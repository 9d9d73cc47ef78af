/** The execution engine around the string instructions: handlers that change the registers, the flags and
    the memory in place, and the main loop that calls them. */
module X86Cpu {
  import opened Counting
  import opened RepStrings
  import opened X86Flags
  import opened X86Memory
  import opened Wrappers

  datatype Exit = Advanced | Explicit | Exception(fault: Fault)

  class Cpu {
    var ecx: nat
    var esi: nat
    var edi: nat
    var eip: nat
    var rep: Option<Progress>
    const cs: Segment
    const ds: Segment
    const es: Segment
    const flags: FlagRegister
    const mem: Memory

    ghost function Value(): State
      reads this, flags, mem.data
    {
      State(ecx, esi, edi, eip, flags.Value(), mem.data[..], rep)
    }

    ghost function Surroundings(): Env
      reads mem
    {
      Env(cs, ds, es, mem.entries)
    }

    constructor (cs: Segment, ds: Segment, es: Segment, mem: Memory, eip: nat)
      ensures fresh(flags) && this.mem == mem && this.cs == cs && this.ds == ds && this.es == es
      ensures this.eip == eip && rep == None && ecx == esi == edi == 0
      ensures Value().flags == Flags(false, false, false, false, false, false, false)
    {
      this.cs, this.ds, this.es, this.mem, this.eip := cs, ds, es, mem, eip;
      ecx, esi, edi, rep := 0, 0, 0, None;
      flags := new FlagRegister();
    }

    /** Both offsets move on by one element. */
    method AdvanceOffsets(i: Inst)
      modifies `esi, `edi
      ensures Value() == Strode(i, old(Value()))
    {
      var back := flags.df;
      esi := (if back then esi - i.size else esi + i.size) % SPACE;
      edi := (if back then edi - i.size else edi + i.size) % SPACE;
    }

    method ExecMovs(i: Inst) returns (exit: Exit)
      modifies `esi, `edi, mem.data
      ensures Leaves(Single(Move(Surroundings(), i, old(Value())), old(Value())), exit, Value(), 0)
    {
      hide Load, Store, Strode;
      var v := mem.Read(esi, i.size, ds);
      if v.Err? { return Exception(v.fault); }
      var w := mem.Write(edi, i.size, v.value, es);
      if w.Err? { return Exception(w.fault); }
      AdvanceOffsets(i);
      return Advanced;
    }

    method ExecCmps(i: Inst) returns (exit: Exit)
      requires i.size > 0
      modifies `esi, `edi, flags
      ensures Leaves(Single(Compare(Surroundings(), i, old(Value())), old(Value())), exit, Value(), 0)
    {
      hide Load, Strode, AfterSub, Masked;
      var v := mem.Read(esi, i.size, ds);
      if v.Err? { return Exception(v.fault); }
      var w := mem.Read(edi, i.size, es);
      if w.Err? { return Exception(w.fault); }
      var a: int, b: int := Masked(v.value, 8 * i.size), Masked(w.value, 8 * i.size);
      flags.UpdateSub(a, b, a - b, 8 * i.size, 0);
      AdvanceOffsets(i);
      return Advanced;
    }

    method RollbackEipTo(i: Inst) returns (exit: Exit)
      modifies `eip
      ensures exit == Explicit && eip == Rollback(Surroundings(), i)
    {
      var base := cs.selector % 0x1_0000 * 0x1_0000;
      eip := (i.addr - base) % SPACE;
      return Explicit;
    }

    method ExecRepMovs(i: Inst) returns (exit: Exit)
      modifies this, mem.data
      ensures Leaves(RepMovsStep(Surroundings(), i, old(Value())), exit, Value(), Rollback(Surroundings(), i))
    {
      hide Load, Store, Strode, Rollback;
      if rep.None? || rep.value.addr != i.addr {
        if ecx == 0 { return Advanced; }
        rep := Some(Progress(0, i.addr, 0));
      }
      if rep.value.step == 0 {
        ecx := (ecx - 1) % SPACE;
        rep := Some(rep.value.(step := 1));
      } else {
        var v := mem.Read(esi, i.size, ds);
        if v.Err? { return Exception(v.fault); }
        var w := mem.Write(edi, i.size, v.value, es);
        if w.Err? { return Exception(w.fault); }
        AdvanceOffsets(i);
        rep := Some(rep.value.(step := 0));
        if ecx == 0 {
          rep := None;
          return Advanced;
        }
      }
      exit := RollbackEipTo(i);
    }

    method ExecRepeCmps(i: Inst) returns (exit: Exit)
      requires i.size > 0
      modifies this, flags
      ensures Leaves(RepeCmpsStep(Surroundings(), i, old(Value())), exit, Value(), Rollback(Surroundings(), i))
    {
      hide Load, Strode, Rollback, AfterSub, Masked;
      if rep.None? || rep.value.addr != i.addr {
        if ecx == 0 { return Advanced; }
        rep := Some(Progress(0, i.addr, 0));
      }
      if rep.value.step == 0 {
        var v := mem.Read(esi, i.size, ds);
        if v.Err? { return Exception(v.fault); }
        rep := Some(rep.value.(step := 1, latch := Masked(v.value, 8 * i.size)));
      } else if rep.value.step == 1 {
        var v := mem.Read(edi, i.size, es);
        if v.Err? { return Exception(v.fault); }
        var a: int, b: int := rep.value.latch, Masked(v.value, 8 * i.size);
        flags.UpdateSub(a, b, a - b, 8 * i.size, 0);
        rep := Some(rep.value.(step := 2));
      } else if rep.value.step == 2 {
        ecx := (ecx - 1) % SPACE;
        rep := Some(rep.value.(step := 3));
      } else {
        AdvanceOffsets(i);
        rep := Some(rep.value.(step := 0));
        if ecx == 0 || !flags.zf {
          rep := None;
          return Advanced;
        }
      }
      exit := RollbackEipTo(i);
    }

    method Dispatch(i: Inst) returns (exit: Exit)
      requires i.size > 0
      modifies this, flags, mem.data
      ensures Leaves(Execute(Surroundings(), i, old(Value())), exit, Value(), Rollback(Surroundings(), i))
    {
      hide Move, Compare, RepMovsStep, RepeCmpsStep, Rollback;
      match i.kind {
        case Movs => exit := ExecMovs(i);
        case Cmps => exit := ExecCmps(i);
        case RepMovs => exit := ExecRepMovs(i);
        case RepeCmps => exit := ExecRepeCmps(i);
      }
    }

    /** One turn of the main loop on a decoded instruction. A fault ends the simulation. */
    method RunCycle(i: Inst) returns (exit: Exit)
      requires i.size > 0
      modifies this, flags, mem.data
      ensures match Cycle(Surroundings(), i, old(Value()))
        case Ran(t) => !exit.Exception? && Value() == t
        case Faulted(t, f) => exit == Exception(f) && Value() == t
    {
      hide Execute, Rollback;
      eip := (eip + i.length) % SPACE;
      exit := Dispatch(i);
    }

    /** `n` turns on the same instruction: as many as a prefix takes, when its fetch goes on giving it. */
    method RunCycles(i: Inst, n: nat) returns (exit: Exit)
      requires i.size > 0
      modifies this, flags, mem.data
      ensures match Cycles(Surroundings(), i, old(Value()), n)
        case Ran(t) => !exit.Exception? && Value() == t
        case Faulted(t, f) => exit == Exception(f) && Value() == t
    {
      hide Cycle;
      exit := Advanced;
      var k := 0;
      while k < n
        invariant 0 <= k <= n && !exit.Exception?
        invariant Surroundings() == old(Surroundings())
        invariant Cycles(Surroundings(), i, old(Value()), k) == Ran(Value())
      {
        exit := RunCycle(i);
        if exit.Exception? {
          FaultIsFinal(Surroundings(), i, old(Value()), k + 1, n);
          return;
        }
        k := k + 1;
      }
    }
  }

  /** What a handler leaves behind, against the outcome that the specification gives. */
  ghost predicate Leaves(o: Outcome, exit: Exit, s: State, back: nat) {
    match o
    case Advance(t) => exit == Advanced && s == t
    case Again(t) => exit == Explicit && s == t.(eip := back)
    case Raise(t, f) => exit == Exception(f) && s == t
  }

  lemma {:induction false} FaultIsFinal(e: Env, i: Inst, s: State, k: nat, n: nat)
    requires i.size > 0 && k <= n && Cycles(e, i, s, k).Faulted?
    ensures Cycles(e, i, s, n) == Cycles(e, i, s, k)
    decreases n
  {
    hide Cycle;
    if k < n { FaultIsFinal(e, i, s, k, n - 1); }
  }
}
