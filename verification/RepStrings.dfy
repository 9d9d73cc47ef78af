/** The repeated string instructions of the functional x86 simulator. A prefix runs as micro-operations, one
    a cycle, with the instruction pointer put back until the last one; here they refine the plain loop. */
module RepStrings {
  import opened Counting
  import opened X86Flags
  import opened X86Memory
  import opened Wrappers

  datatype Kind = Movs | RepMovs | Cmps | RepeCmps

  /** A decoded string instruction: its linear address, its length and the bytes of an element. */
  datatype Inst = Inst(kind: Kind, addr: nat, length: nat, size: nat)

  datatype Env = Env(cs: Segment, ds: Segment, es: Segment, entries: seq<Entry>)

  /** How far the repeated instruction at `addr` has come. */
  datatype Progress = Progress(step: nat, addr: nat, latch: nat)

  datatype State = State(ecx: nat, esi: nat, edi: nat, eip: nat, flags: Flags, data: seq<Byte>, rep: Option<Progress>)

  /** A handler lets the instruction pointer advance, puts it back, or raises a fault. */
  datatype Outcome = Advance(s: State) | Again(s: State) | Raise(s: State, fault: Fault)

  // ---------- one element ----------

  /** The next element: up or down, by the direction flag. */
  function Stride(i: Inst, f: Flags, offset: nat): nat {
    (if f.df then offset - i.size else offset + i.size) % SPACE
  }

  function Source(e: Env, i: Inst, s: State): Result<nat> { Load(s.data, e.entries, e.ds, s.esi, i.size) }

  function Target(e: Env, i: Inst, s: State): Result<nat> { Load(s.data, e.entries, e.es, s.edi, i.size) }

  function Move(e: Env, i: Inst, s: State): Result<State> {
    var v := Source(e, i, s);
    if v.Err? then Err(v.fault)
    else
      var after := Store(s.data, e.entries, e.es, s.edi, i.size, v.value);
      if after.Err? then Err(after.fault)
      else Ok(Strode(i, s.(data := after.value)))
  }

  function Strode(i: Inst, s: State): State {
    s.(esi := Stride(i, s.flags, s.esi), edi := Stride(i, s.flags, s.edi))
  }

  function Bits(i: Inst): nat { 8 * i.size }

  /** The flags of comparing `a` with `b`, both cut down to the element. */
  function Compared(i: Inst, f: Flags, a: nat, b: nat): Flags
    requires i.size > 0
  {
    AfterSub(f, Masked(a, Bits(i)), Masked(b, Bits(i)), Masked(a, Bits(i)) - Masked(b, Bits(i)), Bits(i), 0)
  }

  function Compare(e: Env, i: Inst, s: State): Result<State>
    requires i.size > 0
  {
    var a, b := Source(e, i, s), Target(e, i, s);
    if a.Err? then Err(a.fault)
    else if b.Err? then Err(b.fault)
    else Ok(Strode(i, s.(flags := Compared(i, s.flags, a.value, b.value))))
  }

  // ---------- one micro-operation ----------

  predicate Fresh(i: Inst, s: State) { s.rep.None? || s.rep.value.addr != i.addr }

  function Started(i: Inst, s: State): (t: State)
    ensures !Fresh(i, t)
  {
    if Fresh(i, s) then s.(rep := Some(Progress(0, i.addr, 0))) else s
  }

  function AtStep(s: State, k: nat): State
    requires s.rep.Some?
  {
    s.(rep := Some(s.rep.value.(step := k)))
  }

  function RepMovsStep(e: Env, i: Inst, s: State): Outcome {
    if Fresh(i, s) && s.ecx == 0 then Advance(s)
    else
      var t := Started(i, s);
      if t.rep.value.step == 0 then Again(AtStep(t, 1).(ecx := (t.ecx - 1) % SPACE))
      else
        var u := Move(e, i, t);
        if u.Err? then Raise(t, u.fault)
        else if t.ecx == 0 then Advance(u.value.(rep := None))
        else Again(AtStep(u.value, 0))
  }

  function RepeCmpsStep(e: Env, i: Inst, s: State): Outcome
    requires i.size > 0
  {
    if Fresh(i, s) && s.ecx == 0 then Advance(s)
    else
      var t := Started(i, s);
      var p := t.rep.value;
      if p.step == 0 then
        var a := Source(e, i, t);
        if a.Err? then Raise(t, a.fault)
        else Again(t.(rep := Some(p.(step := 1, latch := Masked(a.value, Bits(i))))))
      else if p.step == 1 then
        var b := Target(e, i, t);
        if b.Err? then Raise(t, b.fault)
        else
          var m := Masked(b.value, Bits(i));
          Again(AtStep(t, 2).(flags := AfterSub(t.flags, p.latch, m, p.latch - m, Bits(i), 0)))
      else if p.step == 2 then Again(AtStep(t, 3).(ecx := (t.ecx - 1) % SPACE))
      else
        var u := Strode(i, t);
        if u.ecx == 0 || !u.flags.zf then Advance(u.(rep := None)) else Again(AtStep(u, 0))
  }

  function Single(r: Result<State>, s: State): Outcome { if r.Ok? then Advance(r.value) else Raise(s, r.fault) }

  function Execute(e: Env, i: Inst, s: State): Outcome
    requires i.size > 0
  {
    match i.kind
    case Movs => Single(Move(e, i, s), s)
    case Cmps => Single(Compare(e, i, s), s)
    case RepMovs => RepMovsStep(e, i, s)
    case RepeCmps => RepeCmpsStep(e, i, s)
  }

  // ---------- cycles ----------

  function Rollback(e: Env, i: Inst): nat { (i.addr - e.cs.selector % 0x1_0000 * 0x1_0000) % SPACE }

  datatype Run = Ran(s: State) | Faulted(s: State, fault: Fault)

  function After(i: Inst, eip: nat): nat { (eip + i.length) % SPACE }

  /** The main loop moves the instruction pointer on before it executes. */
  function Cycle(e: Env, i: Inst, s: State): Run
    requires i.size > 0
  {
    match Execute(e, i, s.(eip := After(i, s.eip)))
    case Advance(t) => Ran(t)
    case Again(t) => Ran(t.(eip := Rollback(e, i)))
    case Raise(t, f) => Faulted(t, f)
  }

  function Cycles(e: Env, i: Inst, s: State, n: nat): Run
    requires i.size > 0
    decreases n
  {
    if n == 0 then Ran(s)
    else
      var r := Cycles(e, i, s, n - 1);
      if r.Faulted? then r else Cycle(e, i, r.s)
  }

  /** The instruction is the one that the instruction pointer points at. */
  predicate PointsAt(e: Env, i: Inst, s: State) {
    i.size > 0 && s.eip < SPACE && i.addr == Linear(e.cs, s.eip) && s.ecx < SPACE
  }

  /** Putting the instruction pointer back leads to the instruction again. */
  lemma RollbackReturns(e: Env, i: Inst, s: State)
    requires PointsAt(e, i, s)
    ensures Rollback(e, i) == s.eip
  {
  }

  // ---------- REP MOVS ----------

  /** `k` single MOVS instructions. */
  function Moves(e: Env, i: Inst, s: State, k: nat): Result<State>
    decreases k
  {
    if k == 0 then Ok(s)
    else
      var r := Moves(e, i, s, k - 1);
      if r.Err? then r else Move(e, i, r.value)
  }

  // ---------- what moves do to memory ----------

  /** The offset `k` elements on. */
  function Offset(i: Inst, f: Flags, base: nat, k: nat): nat
    decreases k
  {
    if k == 0 then base else Stride(i, f, Offset(i, f, base, k - 1))
  }

  /** `k` elements up or down from the base, modulo 2^32. */
  lemma {:induction false} OffsetMeans(i: Inst, f: Flags, base: nat, k: nat)
    requires base < SPACE
    ensures Offset(i, f, base, k) == (if f.df then base - k * i.size else base + k * i.size) % SPACE
    decreases k
  {
    if k > 0 {
      OffsetMeans(i, f, base, k - 1);
      var at := if f.df then base - (k - 1) * i.size else base + (k - 1) * i.size;
      OneStride(at, i.size);
      assert (k - 1) * i.size + i.size == k * i.size;
    }
  }

  lemma OneStride(at: int, size: nat)
    ensures (at % SPACE + size) % SPACE == (at + size) % SPACE
    ensures (at % SPACE - size) % SPACE == (at - size) % SPACE
  {
    SameRemainder(at % SPACE, size, at / SPACE);
    SameRemainder(at % SPACE, 0 - size, at / SPACE);
    assert at == SPACE * (at / SPACE) + at % SPACE;
  }

  lemma SameRemainder(a: int, d: int, q: int)
    ensures (SPACE * q + a + d) % SPACE == (a + d) % SPACE
  {
  }

  /** Where the `k`-th element is read, and where it is written. */
  function SourcePlace(e: Env, i: Inst, s: State, k: nat): (p: Result<nat>)
    ensures p.Ok? ==> p.value + i.size <= |s.data|
  {
    Place(e.entries, e.ds, Offset(i, s.flags, s.esi, k), i.size, |s.data|)
  }

  function TargetPlace(e: Env, i: Inst, s: State, k: nat): (p: Result<nat>)
    ensures p.Ok? ==> p.value + i.size <= |s.data|
  {
    Place(e.entries, e.es, Offset(i, s.flags, s.edi, k), i.size, |s.data|)
  }

  /** One move copies the bytes at DS:ESI to ES:EDI. */
  lemma MoveCopies(e: Env, i: Inst, s: State)
    requires Move(e, i, s).Ok?
    ensures
      var p, q := Place(e.entries, e.ds, s.esi, i.size, |s.data|), Place(e.entries, e.es, s.edi, i.size, |s.data|);
      && p.Ok? && q.Ok?
      && Move(e, i, s).value == Strode(i, s.(data := s.data[..q.value] + s.data[p.value..p.value + i.size] + s.data[q.value + i.size..]))
  {
    hide Translate, ToBytes, FromBytes, Strode;
    var p := Place(e.entries, e.ds, s.esi, i.size, |s.data|).value;
    ValueOfBytes(s.data[p..p + i.size]);
  }

  /** All `k` elements can be read and written, and no element is written to the place of a later one, read or written. */
  ghost predicate Separate(e: Env, i: Inst, s: State, k: nat) {
    && (forall j :: 0 <= j < k ==> SourcePlace(e, i, s, j).Ok? && TargetPlace(e, i, s, j).Ok?)
    && forall j, m :: 0 <= j < m < k ==>
         Apart(TargetPlace(e, i, s, j).value, SourcePlace(e, i, s, m).value, i.size)
         && Apart(TargetPlace(e, i, s, j).value, TargetPlace(e, i, s, m).value, i.size)
  }

  predicate Apart(p: nat, q: nat, n: nat) { p + n <= q || q + n <= p }

  ghost predicate Untouched(e: Env, i: Inst, s: State, k: nat, x: nat)
    requires forall j :: 0 <= j < k ==> TargetPlace(e, i, s, j).Ok?
  {
    forall j :: 0 <= j < k ==> !(TargetPlace(e, i, s, j).value <= x < TargetPlace(e, i, s, j).value + i.size)
  }

  function Element(i: Inst, data: seq<Byte>, p: nat): seq<Byte>
    requires p + i.size <= |data|
  {
    data[p..p + i.size]
  }

  /** Every target holds what its source held at the start, and the other bytes are as they were. */
  ghost predicate Copied(e: Env, i: Inst, s: State, k: nat, data: seq<Byte>)
    requires forall j :: 0 <= j < k ==> SourcePlace(e, i, s, j).Ok? && TargetPlace(e, i, s, j).Ok?
  {
    && |data| == |s.data|
    && (forall j :: 0 <= j < k ==> Element(i, data, TargetPlace(e, i, s, j).value) == Element(i, s.data, SourcePlace(e, i, s, j).value))
    && forall x :: 0 <= x < |data| && Untouched(e, i, s, k, x) ==> data[x] == s.data[x]
  }

  lemma {:induction false} MovesCopy(e: Env, i: Inst, s: State, k: nat)
    requires Moves(e, i, s, k).Ok? && Separate(e, i, s, k)
    ensures
      var r := Moves(e, i, s, k).value;
      && Copied(e, i, s, k, r.data)
      && r == s.(data := r.data, esi := Offset(i, s.flags, s.esi, k), edi := Offset(i, s.flags, s.edi, k))
    decreases k
  {
    hide Move, SourcePlace, TargetPlace;
    if k > 0 {
      MovesCopy(e, i, s, k - 1);
      MoveOneMore(e, i, s, k - 1, Moves(e, i, s, k - 1).value);
    }
  }

  lemma MoveOneMore(e: Env, i: Inst, s: State, k: nat, r: State)
    requires Separate(e, i, s, k + 1) && Copied(e, i, s, k, r.data) && Move(e, i, r).Ok?
    requires r == s.(data := r.data, esi := Offset(i, s.flags, s.esi, k), edi := Offset(i, s.flags, s.edi, k))
    ensures
      var t := Move(e, i, r).value;
      && Copied(e, i, s, k + 1, t.data)
      && t == s.(data := t.data, esi := Offset(i, s.flags, s.esi, k + 1), edi := Offset(i, s.flags, s.edi, k + 1))
  {
    MoveCopies(e, i, r);
    hide Move, Place, Stride, Apart, Untouched;
    CopyOneMore(e, i, s, k, r.data, Move(e, i, r).value.data);
  }

  lemma Spliced(before: seq<Byte>, after: seq<Byte>, p: nat, q: nat, n: nat)
    requires p + n <= |before| && q + n <= |before| && after == before[..q] + before[p..p + n] + before[q + n..]
    ensures |after| == |before| && after[q..q + n] == before[p..p + n]
    ensures forall x :: 0 <= x < |after| && !(q <= x < q + n) ==> after[x] == before[x]
  {
  }

  lemma ElementKept(before: seq<Byte>, after: seq<Byte>, t: nat, q: nat, i: Inst)
    requires |after| == |before| && t + i.size <= |before| && Apart(t, q, i.size)
    requires forall x :: 0 <= x < |after| && !(q <= x < q + i.size) ==> after[x] == before[x]
    ensures Element(i, after, t) == Element(i, before, t)
  {
  }

  lemma SourceKept(e: Env, i: Inst, s: State, k: nat, data: seq<Byte>)
    requires Separate(e, i, s, k + 1) && Copied(e, i, s, k, data)
    ensures var p := SourcePlace(e, i, s, k).value; Element(i, data, p) == Element(i, s.data, p)
  {
    hide SourcePlace, TargetPlace;
    var p := SourcePlace(e, i, s, k).value;
    forall b | p <= b < p + i.size ensures data[b] == s.data[b] { assert Untouched(e, i, s, k, b); }
  }

  lemma CopyOneMore(e: Env, i: Inst, s: State, k: nat, before: seq<Byte>, after: seq<Byte>)
    requires Separate(e, i, s, k + 1) && Copied(e, i, s, k, before)
    requires
      var p, q := SourcePlace(e, i, s, k).value, TargetPlace(e, i, s, k).value;
      after == before[..q] + Element(i, before, p) + before[q + i.size..]
    ensures Copied(e, i, s, k + 1, after)
  {
    hide SourcePlace, TargetPlace;
    var p, q := SourcePlace(e, i, s, k).value, TargetPlace(e, i, s, k).value;
    SourceKept(e, i, s, k, before);
    Spliced(before, after, p, q, i.size);
    assert Element(i, after, q) == Element(i, before, p);
    forall j | 0 <= j < k
      ensures Element(i, after, TargetPlace(e, i, s, j).value) == Element(i, s.data, SourcePlace(e, i, s, j).value)
    {
      ElementKept(before, after, TargetPlace(e, i, s, j).value, q, i);
    }
    hide Element, Apart;
    forall x | 0 <= x < |after| && Untouched(e, i, s, k + 1, x) ensures after[x] == s.data[x] { StillUntouched(e, i, s, k, x); }
  }

  lemma StillUntouched(e: Env, i: Inst, s: State, k: nat, x: nat)
    requires (forall j :: 0 <= j < k + 1 ==> TargetPlace(e, i, s, j).Ok?) && Untouched(e, i, s, k + 1, x)
    ensures Untouched(e, i, s, k, x) && !(TargetPlace(e, i, s, k).value <= x < TargetPlace(e, i, s, k).value + i.size)
  {
    hide TargetPlace;
  }

  function With(s: State, ecx: nat, eip: nat, rep: Option<Progress>): State { s.(ecx := ecx, eip := eip, rep := rep) }

  /** A move leaves the count, the instruction pointer and the progress alone. */
  lemma MoveIgnores(e: Env, i: Inst, s: State, ecx: nat, eip: nat, rep: Option<Progress>)
    ensures var r, t := Move(e, i, s), Move(e, i, With(s, ecx, eip, rep));
      t == (if r.Ok? then Ok(With(r.value, ecx, eip, rep)) else r)
  {
    hide Load, Store, Stride;
  }

  /** Between elements: `k` moved, and the count and the progress say so. */
  function MovsAt(e: Env, i: Inst, s: State, k: nat): State
    requires k <= s.ecx && Moves(e, i, s, k).Ok?
  {
    With(Moves(e, i, s, k).value, s.ecx - k, if 0 < k == s.ecx then After(i, s.eip) else s.eip,
         if k == 0 then s.rep else if k < s.ecx then Some(Progress(0, i.addr, 0)) else None)
  }

  /** Inside an element: the count has gone down, and the move is still to come. */
  function MovsInside(e: Env, i: Inst, s: State, k: nat): State
    requires k < s.ecx && Moves(e, i, s, k).Ok?
  {
    With(Moves(e, i, s, k).value, s.ecx - k - 1, s.eip, Some(Progress(1, i.addr, 0)))
  }

  /** What a fault in move `k` leaves: `k` elements moved, and the count already gone down once more. */
  function FaultedMovs(e: Env, i: Inst, s: State, k: nat): State
    requires k < s.ecx && Moves(e, i, s, k).Ok?
  {
    With(Moves(e, i, s, k).value, s.ecx - k - 1, After(i, s.eip), Some(Progress(1, i.addr, 0)))
  }

  lemma MovsCounts(e: Env, i: Inst, s: State, k: nat)
    requires PointsAt(e, i, s) && i.kind == RepMovs && Fresh(i, s) && k < s.ecx && Moves(e, i, s, k).Ok?
    ensures Cycle(e, i, MovsAt(e, i, s, k)) == Ran(MovsInside(e, i, s, k))
  {
    hide Moves, Move, Linear, Rollback, After;
    RollbackReturns(e, i, s);
  }

  lemma MovsMoves(e: Env, i: Inst, s: State, k: nat)
    requires PointsAt(e, i, s) && i.kind == RepMovs && Fresh(i, s) && k < s.ecx && Moves(e, i, s, k).Ok?
    ensures var r := Moves(e, i, s, k + 1);
      match Cycle(e, i, MovsInside(e, i, s, k))
      case Ran(t) => r.Ok? && t == MovsAt(e, i, s, k + 1)
      case Faulted(t, f) => r == Err(f) && t == FaultedMovs(e, i, s, k)
  {
    hide Move, Linear, Rollback, After;
    RollbackReturns(e, i, s);
    var u := Moves(e, i, s, k).value;
    MoveIgnores(e, i, u, s.ecx - k - 1, After(i, s.eip), Some(Progress(1, i.addr, 0)));
  }

  /** As long as the moves succeed, the cycles follow them two by two. */
  lemma {:induction false} RepMovsFollows(e: Env, i: Inst, s: State, k: nat)
    requires PointsAt(e, i, s) && i.kind == RepMovs && Fresh(i, s) && k <= s.ecx && Moves(e, i, s, k).Ok?
    ensures Cycles(e, i, s, 2 * k) == Ran(MovsAt(e, i, s, k))
    ensures k < s.ecx ==> Cycles(e, i, s, 2 * k + 1) == Ran(MovsInside(e, i, s, k))
    decreases k
  {
    hide Cycle, Move, Linear, MovsInside, After;
    if k > 0 {
      RepMovsFollows(e, i, s, k - 1);
      MovsMoves(e, i, s, k - 1);
      assert Cycles(e, i, s, 2 * k) == Cycle(e, i, MovsInside(e, i, s, k - 1));
    }
    if k < s.ecx { MovsCounts(e, i, s, k); }
  }

  /** The prefix is on its instruction, and has not finished. */
  predicate Busy(i: Inst, s: State, r: Run) { r.Ran? && r.s.eip == s.eip && r.s.rep.Some? && r.s.rep.value.addr == i.addr }

  /** Without a fault, 2n cycles are n single moves, with the count at zero and the instruction pointer on
      the instruction until the last cycle. */
  lemma RepMovsIsLoop(e: Env, i: Inst, s: State)
    requires PointsAt(e, i, s) && i.kind == RepMovs && Fresh(i, s) && s.ecx > 0 && Moves(e, i, s, s.ecx).Ok?
    ensures Cycles(e, i, s, 2 * s.ecx) == Ran(With(Moves(e, i, s, s.ecx).value, 0, After(i, s.eip), None))
    ensures forall c :: 0 < c < 2 * s.ecx ==> Busy(i, s, Cycles(e, i, s, c))
  {
    hide Cycles, Moves, With, Busy, MovsAt, Linear, After;
    RepMovsFollows(e, i, s, s.ecx);
    MovsEnds(e, i, s);
    forall c: nat | 0 < c < 2 * s.ecx ensures Busy(i, s, Cycles(e, i, s, c)) { RepMovsBusy(e, i, s, c); }
  }

  /** Apart from overlaps, REP MOVS copies as many elements as the count says, from DS:ESI on to ES:EDI on. */
  lemma RepMovsCopies(e: Env, i: Inst, s: State)
    requires PointsAt(e, i, s) && i.kind == RepMovs && Fresh(i, s) && s.ecx > 0 && Moves(e, i, s, s.ecx).Ok? && Separate(e, i, s, s.ecx)
    ensures
      var r := Cycles(e, i, s, 2 * s.ecx);
      && r.Ran? && Copied(e, i, s, s.ecx, r.s.data) && r.s.ecx == 0 && r.s.eip == (s.eip + i.length) % 0x1_0000_0000
      && r.s.esi == Offset(i, s.flags, s.esi, s.ecx) && r.s.edi == Offset(i, s.flags, s.edi, s.ecx)
  {
    hide Cycles, Moves, Copied, Busy, PointsAt, Offset;
    RepMovsIsLoop(e, i, s);
    MovesCopy(e, i, s, s.ecx);
  }

  lemma MovsEnds(e: Env, i: Inst, s: State)
    requires s.ecx > 0 && Moves(e, i, s, s.ecx).Ok?
    ensures MovsAt(e, i, s, s.ecx) == With(Moves(e, i, s, s.ecx).value, 0, After(i, s.eip), None)
  {
  }

  lemma RepMovsBusy(e: Env, i: Inst, s: State, c: nat)
    requires PointsAt(e, i, s) && i.kind == RepMovs && Fresh(i, s) && 0 < c < 2 * s.ecx && Moves(e, i, s, s.ecx).Ok?
    ensures Busy(i, s, Cycles(e, i, s, c))
  {
    hide Cycles, Moves, PointsAt;
    var k := c / 2;
    MovesPrefix(e, i, s, k, s.ecx);
    RepMovsFollows(e, i, s, k);
  }

  lemma {:induction false} MovesPrefix(e: Env, i: Inst, s: State, k: nat, n: nat)
    requires k <= n && Moves(e, i, s, n).Ok?
    ensures Moves(e, i, s, k).Ok?
    decreases n
  {
    hide Move;
    if k < n { MovesPrefix(e, i, s, k, n - 1); }
  }

  /** A fault in move `k` comes in cycle 2k + 2. The count is then n - k - 1: it has already gone down
      for the element that was not moved. */
  lemma RepMovsFaults(e: Env, i: Inst, s: State, k: nat)
    requires PointsAt(e, i, s) && i.kind == RepMovs && Fresh(i, s) && k < s.ecx
    requires Moves(e, i, s, k).Ok? && Moves(e, i, s, k + 1).Err?
    ensures var r := Cycles(e, i, s, 2 * k + 2);
      r == Faulted(FaultedMovs(e, i, s, k), Moves(e, i, s, k + 1).fault)
  {
    hide Moves, Cycle, Move, Linear, MovsInside, FaultedMovs;
    RepMovsFollows(e, i, s, k);
    MovsMoves(e, i, s, k);
    assert Cycles(e, i, s, 2 * k + 2) == Cycle(e, i, Cycles(e, i, s, 2 * k + 1).s);
  }

  /** Two bytes to move in segments of one byte: the second move faults, with the count at zero. */
  lemma CountGoneBeforeTheMove()
    ensures
      var seg, f := Segment(0, 0), Flags(false, false, false, false, false, false, false);
      var e := Env(seg, seg, seg, [Entry(true, true, 0, 0)]);
      var s := State(2, 0, 0, 0, f, [7], None);
      var r := Cycles(e, Inst(RepMovs, 0, 2, 1), s, 4);
      r.Faulted? && r.fault == BeyondLimit && r.s.ecx == 0 && r.s.esi == 1
  {
    var seg, f := Segment(0, 0), Flags(false, false, false, false, false, false, false);
    var e := Env(seg, seg, seg, [Entry(true, true, 0, 0)]);
    var i, s := Inst(RepMovs, 0, 2, 1), State(2, 0, 0, 0, f, [7], None);
    assert Vpn(0) == 0 && Linear(seg, 0) == 0;
    assert Translate(e.entries, 0, 1) == Frame(e.entries[0], 0, 1) == Ok(0);
    assert Place(e.entries, seg, 0, 1, 1) == Ok(0);
    assert FromBytes([7]) == 7 + 256 * FromBytes([]);
    assert [7][0..1] == [7];
    assert Load([7], e.entries, seg, 0, 1) == Ok(7);
    assert Source(e, i, s) == Ok(7);
    assert ToBytes(7, 1) == [7];
    assert [7][..0] + ToBytes(7, 1) + [7][1..] == [7];
    assert Store([7], e.entries, seg, 0, 1, 7) == Ok([7]);
    assert Move(e, i, s) == Ok(s.(esi := 1, edi := 1));
    assert Moves(e, i, s, 1) == Ok(s.(esi := 1, edi := 1));
    assert Moves(e, i, s, 2) == Err(BeyondLimit);
    RepMovsFaults(e, i, s, 1);
  }

  /** With a count of zero either prefix does nothing at all. */
  lemma RepOfNothing(e: Env, i: Inst, s: State)
    requires i.size > 0 && (i.kind == RepMovs || i.kind == RepeCmps) && Fresh(i, s) && s.ecx == 0
    ensures Cycles(e, i, s, 1) == Ran(s.(eip := (s.eip + i.length) % 0x1_0000_0000))
  {
    assert Cycles(e, i, s, 1) == Cycle(e, i, Cycles(e, i, s, 0).s);
  }

  // ---------- REPE CMPS ----------

  function SourceAt(e: Env, i: Inst, s: State, k: nat): Result<nat> {
    Load(s.data, e.entries, e.ds, Offset(i, s.flags, s.esi, k), i.size)
  }

  function TargetAt(e: Env, i: Inst, s: State, k: nat): Result<nat> {
    Load(s.data, e.entries, e.es, Offset(i, s.flags, s.edi, k), i.size)
  }

  /** The first `k` elements are there and agree. */
  predicate AgreeUpTo(e: Env, i: Inst, s: State, k: nat) {
    forall j :: 0 <= j < k ==> SourceAt(e, i, s, j).Ok? && SourceAt(e, i, s, j) == TargetAt(e, i, s, j)
  }

  /** The flags after `k` comparisons. */
  function FlagsAt(e: Env, i: Inst, s: State, k: nat): Flags
    requires i.size > 0 && (k > 0 ==> SourceAt(e, i, s, k - 1).Ok? && TargetAt(e, i, s, k - 1).Ok?)
  {
    if k == 0 then s.flags else Compared(i, s.flags, SourceAt(e, i, s, k - 1).value, TargetAt(e, i, s, k - 1).value)
  }

  /** An element fits its mask, so that masking keeps it. */
  lemma {:induction false} PowerOfBytes(n: nat)
    ensures Power256(n) == Pow2(8 * n)
  {
    if n > 0 {
      PowerOfBytes(n - 1);
      Pow2Sum(8, 8 * (n - 1));
      assert Pow2(8) == 256;
    }
  }

  lemma ElementFits(e: Env, i: Inst, data: seq<Byte>, seg: Segment, offset: nat)
    requires Load(data, e.entries, seg, offset, i.size).Ok?
    ensures var v := Load(data, e.entries, seg, offset, i.size).value;
      v < Pow2(Bits(i)) && Masked(v, Bits(i)) == v
  {
    hide FromBytes, Translate;
    PowerOfBytes(i.size);
    Remainder(0, Load(data, e.entries, seg, offset, i.size).value, Pow2(Bits(i)));
  }

  /** Comparing two elements that were read orders them. */
  lemma ComparedMeans(i: Inst, f: Flags, a: nat, b: nat)
    requires i.size > 0 && a < Pow2(Bits(i)) && b < Pow2(Bits(i)) && Masked(a, Bits(i)) == a && Masked(b, Bits(i)) == b
    ensures var g := Compared(i, f, a, b);
      && (g.zf <==> a == b) && (g.cf <==> a < b)
      && (g.sf != g.of <==> Signed(a, Bits(i)) < Signed(b, Bits(i)))
      && g.df == f.df
  {
    SubFlagsOrder(f, a, b, Bits(i), 0);
    hide AfterSub, Masked, Pow2;
  }

  /** `k` single CMPS instructions. */
  function Compares(e: Env, i: Inst, s: State, k: nat): Result<State>
    requires i.size > 0
    decreases k
  {
    if k == 0 then Ok(s)
    else
      var r := Compares(e, i, s, k - 1);
      if r.Err? then r else Compare(e, i, r.value)
  }

  /** The first `k` elements can be read. */
  predicate Readable(e: Env, i: Inst, s: State, k: nat) {
    forall j :: 0 <= j < k ==> SourceAt(e, i, s, j).Ok? && TargetAt(e, i, s, j).Ok?
  }

  /** The state with `k` elements compared, but for the count, the instruction pointer and the progress. */
  function Strides(e: Env, i: Inst, s: State, k: nat): State
    requires i.size > 0 && Readable(e, i, s, k)
  {
    s.(esi := Offset(i, s.flags, s.esi, k), edi := Offset(i, s.flags, s.edi, k), flags := FlagsAt(e, i, s, k))
  }

  lemma FlagsKeepDirection(e: Env, i: Inst, s: State, k: nat)
    requires i.size > 0 && Readable(e, i, s, k)
    ensures FlagsAt(e, i, s, k).df == s.flags.df
  {
    hide SourceAt, TargetAt;
  }

  lemma StrideByDirection(i: Inst, f: Flags, g: Flags, offset: nat)
    requires f.df == g.df
    ensures Stride(i, f, offset) == Stride(i, g, offset)
  {
  }

  lemma FlagsByDirection(f: Flags, g: Flags, a: nat, b: nat, bits: nat)
    requires f.df == g.df && bits > 0
    ensures AfterSub(f, a, b, a - b, bits, 0) == AfterSub(g, a, b, a - b, bits, 0)
  {
  }

  /** Single comparisons stride over the elements and leave the flags of the last one. */
  lemma {:induction false} ComparesStride(e: Env, i: Inst, s: State, k: nat)
    requires i.size > 0 && Readable(e, i, s, k)
    ensures Compares(e, i, s, k) == Ok(Strides(e, i, s, k))
    decreases k
  {
    hide Load, AfterSub, Masked, Stride, FlagsAt;
    FlagsStart(e, i, s);
    if k > 0 {
      ComparesStride(e, i, s, k - 1);
      CompareStrides(e, i, s, k - 1);
    }
  }

  lemma FlagsStart(e: Env, i: Inst, s: State)
    requires i.size > 0
    ensures FlagsAt(e, i, s, 0) == s.flags
  {
  }

  lemma CompareStrides(e: Env, i: Inst, s: State, k: nat)
    requires i.size > 0 && Readable(e, i, s, k + 1)
    ensures Compare(e, i, Strides(e, i, s, k)) == Ok(Strides(e, i, s, k + 1))
  {
    hide Load, AfterSub, Masked, Stride;
    var t := Strides(e, i, s, k);
    var a, b := SourceAt(e, i, s, k).value, TargetAt(e, i, s, k).value;
    FlagsKeepDirection(e, i, s, k);
    FlagsByDirection(t.flags, s.flags, Masked(a, Bits(i)), Masked(b, Bits(i)), Bits(i));
    FlagsKeepDirection(e, i, s, k + 1);
    StrideByDirection(i, FlagsAt(e, i, s, k + 1), s.flags, t.esi);
    StrideByDirection(i, FlagsAt(e, i, s, k + 1), s.flags, t.edi);
  }

  /** The value that the last comparison took from the source. */
  function Latch(e: Env, i: Inst, s: State, k: nat): nat
    requires k > 0 ==> SourceAt(e, i, s, k - 1).Ok?
  {
    if k == 0 then 0 else Masked(SourceAt(e, i, s, k - 1).value, Bits(i))
  }

  /** Between elements: `k` agreed, and there are more. */
  function CmpsAt(e: Env, i: Inst, s: State, k: nat): State
    requires i.size > 0 && k < s.ecx && Readable(e, i, s, k)
  {
    With(Strides(e, i, s, k), s.ecx - k, s.eip, if k == 0 then s.rep else Some(Progress(0, i.addr, Latch(e, i, s, k))))
  }

  /** Element `k` is in the latch, and the count still includes it. */
  function CmpsLoaded(e: Env, i: Inst, s: State, k: nat): State
    requires i.size > 0 && k < s.ecx && Readable(e, i, s, k) && SourceAt(e, i, s, k).Ok?
  {
    With(Strides(e, i, s, k), s.ecx - k, s.eip, Some(Progress(1, i.addr, Latch(e, i, s, k + 1))))
  }

  function CmpsCompared(e: Env, i: Inst, s: State, k: nat): State
    requires i.size > 0 && k < s.ecx && Readable(e, i, s, k + 1)
  {
    With(Strides(e, i, s, k), s.ecx - k, s.eip, Some(Progress(2, i.addr, Latch(e, i, s, k + 1))))
      .(flags := FlagsAt(e, i, s, k + 1))
  }

  function CmpsCounted(e: Env, i: Inst, s: State, k: nat): State
    requires i.size > 0 && k < s.ecx && Readable(e, i, s, k + 1)
  {
    With(Strides(e, i, s, k), s.ecx - k - 1, s.eip, Some(Progress(3, i.addr, Latch(e, i, s, k + 1))))
      .(flags := FlagsAt(e, i, s, k + 1))
  }

  /** The prefix has finished after `k` elements. */
  function CmpsDone(e: Env, i: Inst, s: State, k: nat): State
    requires i.size > 0 && k <= s.ecx && Readable(e, i, s, k)
  {
    With(Strides(e, i, s, k), s.ecx - k, After(i, s.eip), None)
  }

  /** The prefix goes on after `k` elements. */
  predicate GoesOn(e: Env, i: Inst, s: State, k: nat)
    requires i.size > 0 && Readable(e, i, s, k)
  {
    k < s.ecx && FlagsAt(e, i, s, k).zf
  }

  ghost predicate Starts(e: Env, i: Inst, s: State) { PointsAt(e, i, s) && i.kind == RepeCmps && Fresh(i, s) }

  lemma CmpsLoads(e: Env, i: Inst, s: State, k: nat)
    requires Starts(e, i, s) && k < s.ecx && Readable(e, i, s, k)
    ensures SourceAt(e, i, s, k).Ok? ==> Cycle(e, i, CmpsAt(e, i, s, k)) == Ran(CmpsLoaded(e, i, s, k))
    ensures SourceAt(e, i, s, k).Err? ==>
      var r := Cycle(e, i, CmpsAt(e, i, s, k));
      r.Faulted? && r.fault == SourceAt(e, i, s, k).fault && r.s.ecx == s.ecx - k
  {
    hide Load, Linear, Rollback, After, Masked, FlagsAt, Stride;
    RollbackReturns(e, i, s);
  }

  lemma CmpsCompares(e: Env, i: Inst, s: State, k: nat)
    requires Starts(e, i, s) && k < s.ecx && Readable(e, i, s, k) && SourceAt(e, i, s, k).Ok?
    ensures TargetAt(e, i, s, k).Ok? ==>
      Readable(e, i, s, k + 1) && Cycle(e, i, CmpsLoaded(e, i, s, k)) == Ran(CmpsCompared(e, i, s, k))
    ensures TargetAt(e, i, s, k).Err? ==>
      Cycle(e, i, CmpsLoaded(e, i, s, k)) == Faulted(CmpsLoaded(e, i, s, k).(eip := After(i, s.eip)), TargetAt(e, i, s, k).fault)
  {
    hide Load, Linear, Rollback, After, Masked, Stride, AfterSub;
    RollbackReturns(e, i, s);
    var t := CmpsLoaded(e, i, s, k);
    FlagsKeepDirection(e, i, s, k);
    if TargetAt(e, i, s, k).Ok? {
      FlagsByDirection(t.flags, s.flags, t.rep.value.latch, Masked(TargetAt(e, i, s, k).value, Bits(i)), Bits(i));
    }
  }

  lemma CmpsCounts(e: Env, i: Inst, s: State, k: nat)
    requires Starts(e, i, s) && k < s.ecx && Readable(e, i, s, k + 1)
    ensures Cycle(e, i, CmpsCompared(e, i, s, k)) == Ran(CmpsCounted(e, i, s, k))
  {
    hide Load, Linear, Rollback, After, FlagsAt, Stride, Latch, Strides;
    RollbackReturns(e, i, s);
  }

  lemma CmpsStrides(e: Env, i: Inst, s: State, k: nat)
    requires Starts(e, i, s) && k < s.ecx && Readable(e, i, s, k + 1)
    ensures Cycle(e, i, CmpsCounted(e, i, s, k)) == Ran(if GoesOn(e, i, s, k + 1) then CmpsAt(e, i, s, k + 1) else CmpsDone(e, i, s, k + 1))
  {
    hide Load, Linear, Rollback, After, FlagsAt, Stride, Latch;
    RollbackReturns(e, i, s);
    FlagsKeepDirection(e, i, s, k + 1);
    StrideByDirection(i, FlagsAt(e, i, s, k + 1), s.flags, Offset(i, s.flags, s.esi, k));
    StrideByDirection(i, FlagsAt(e, i, s, k + 1), s.flags, Offset(i, s.flags, s.edi, k));
  }

  /** The first `k` comparisons all let the prefix go on. */
  predicate NoStopUpTo(e: Env, i: Inst, s: State, k: nat)
    requires i.size > 0 && Readable(e, i, s, k)
  {
    forall j :: 0 < j <= k ==> FlagsAt(e, i, s, j).zf
  }

  lemma {:induction false} RepeCmpsFollows(e: Env, i: Inst, s: State, k: nat)
    requires Starts(e, i, s) && k < s.ecx && Readable(e, i, s, k) && NoStopUpTo(e, i, s, k)
    ensures Cycles(e, i, s, 4 * k) == Ran(CmpsAt(e, i, s, k))
    ensures SourceAt(e, i, s, k).Ok? ==> Cycles(e, i, s, 4 * k + 1) == Ran(CmpsLoaded(e, i, s, k))
    ensures Readable(e, i, s, k + 1) ==>
      && Cycles(e, i, s, 4 * k + 2) == Ran(CmpsCompared(e, i, s, k))
      && Cycles(e, i, s, 4 * k + 3) == Ran(CmpsCounted(e, i, s, k))
    decreases k
  {
    hide Cycle, SourceAt, TargetAt, Linear, FlagsAt, CmpsLoaded, CmpsCompared, CmpsCounted, CmpsDone;
    if k > 0 {
      RepeCmpsFollows(e, i, s, k - 1);
      CmpsStrides(e, i, s, k - 1);
      assert Cycles(e, i, s, 4 * k) == Cycle(e, i, CmpsCounted(e, i, s, k - 1));
    } else {
      CmpsStart(e, i, s);
    }
    hide CmpsAt;
    CmpsLoads(e, i, s, k);
    if SourceAt(e, i, s, k).Ok? { CmpsCompares(e, i, s, k); }
    if Readable(e, i, s, k + 1) { CmpsCounts(e, i, s, k); }
  }

  lemma CmpsStart(e: Env, i: Inst, s: State)
    requires i.size > 0 && 0 < s.ecx
    ensures CmpsAt(e, i, s, 0) == s
  {
  }

  /** Elements that agree leave the zero flag set, and only those. */
  lemma FlagsCompare(e: Env, i: Inst, s: State, k: nat)
    requires i.size > 0 && Readable(e, i, s, k + 1)
    ensures var a, b, f := SourceAt(e, i, s, k).value, TargetAt(e, i, s, k).value, FlagsAt(e, i, s, k + 1);
      && (f.zf <==> a == b) && (f.cf <==> a < b)
      && (f.sf != f.of <==> Signed(a, Bits(i)) < Signed(b, Bits(i)))
      && f.df == s.flags.df
  {
    hide Load, Masked, Compared, Signed;
    var a, b := SourceAt(e, i, s, k).value, TargetAt(e, i, s, k).value;
    ElementFits(e, i, s.data, e.ds, Offset(i, s.flags, s.esi, k));
    ElementFits(e, i, s.data, e.es, Offset(i, s.flags, s.edi, k));
    ComparedMeans(i, s.flags, a, b);
  }

  lemma AgreeingNeverStops(e: Env, i: Inst, s: State, k: nat)
    requires i.size > 0 && AgreeUpTo(e, i, s, k)
    ensures Readable(e, i, s, k) && NoStopUpTo(e, i, s, k)
  {
    hide SourceAt, TargetAt, FlagsAt;
    assert Readable(e, i, s, k);
    forall j | 0 < j <= k ensures FlagsAt(e, i, s, j).zf { FlagsCompare(e, i, s, j - 1); }
  }

  /** Element `m` is the one that ends the comparison: the first that differs, or the last. */
  ghost predicate Ends(e: Env, i: Inst, s: State, m: nat) {
    && m < s.ecx && AgreeUpTo(e, i, s, m) && SourceAt(e, i, s, m).Ok? && TargetAt(e, i, s, m).Ok?
    && (m + 1 == s.ecx || SourceAt(e, i, s, m) != TargetAt(e, i, s, m))
  }

  /** Without a fault, 4(m + 1) cycles are m + 1 single comparisons, where `m` is the first element that
      differs or the last one. The count, the flags and the offsets are those of that element, and the
      instruction pointer stays on the instruction until the last cycle. */
  lemma RepeCmpsIsLoop(e: Env, i: Inst, s: State, m: nat)
    requires Starts(e, i, s) && Ends(e, i, s, m)
    ensures Compares(e, i, s, m + 1).Ok?
    ensures Cycles(e, i, s, 4 * (m + 1)) == Ran(With(Compares(e, i, s, m + 1).value, s.ecx - m - 1, (s.eip + i.length) % 0x1_0000_0000, None))
    ensures var a, b, f := SourceAt(e, i, s, m).value, TargetAt(e, i, s, m).value, Compares(e, i, s, m + 1).value.flags;
      && (f.zf <==> a == b) && (f.cf <==> a < b)
      && (f.sf != f.of <==> Signed(a, Bits(i)) < Signed(b, Bits(i)))
    ensures forall c :: 0 < c < 4 * (m + 1) ==> Busy(i, s, Cycles(e, i, s, c))
  {
    hide Cycles, SourceAt, TargetAt, FlagsAt, Compares, Linear, Busy, Signed;
    AgreeingNeverStops(e, i, s, m);
    assert Readable(e, i, s, m + 1);
    ComparesStride(e, i, s, m + 1);
    FlagsCompare(e, i, s, m);
    RepeCmpsEnds(e, i, s, m);
    forall c: nat | 0 < c < 4 * (m + 1) ensures Busy(i, s, Cycles(e, i, s, c)) { RepeCmpsBusy(e, i, s, m, c); }
  }

  lemma RepeCmpsEnds(e: Env, i: Inst, s: State, m: nat)
    requires Starts(e, i, s) && Ends(e, i, s, m) && Readable(e, i, s, m + 1)
    ensures Cycles(e, i, s, 4 * (m + 1)) == Ran(CmpsDone(e, i, s, m + 1))
  {
    hide Cycle, SourceAt, TargetAt, FlagsAt, Linear, CmpsAt, CmpsLoaded, CmpsCompared, CmpsCounted, CmpsDone;
    AgreeingNeverStops(e, i, s, m);
    FlagsCompare(e, i, s, m);
    RepeCmpsFollows(e, i, s, m);
    CmpsStrides(e, i, s, m);
    assert Cycles(e, i, s, 4 * (m + 1)) == Cycle(e, i, CmpsCounted(e, i, s, m));
  }

  lemma RepeCmpsBusy(e: Env, i: Inst, s: State, m: nat, c: nat)
    requires Starts(e, i, s) && Ends(e, i, s, m) && 0 < c < 4 * (m + 1)
    ensures Busy(i, s, Cycles(e, i, s, c))
  {
    hide Cycles, SourceAt, TargetAt, FlagsAt, Strides, Latch, Linear;
    var k := c / 4;
    assert AgreeUpTo(e, i, s, k) && Readable(e, i, s, k + 1);
    AgreeingNeverStops(e, i, s, k);
    RepeCmpsFollows(e, i, s, k);
  }

  /** A fault on element `k` leaves the count at n - k: it goes down only after the comparison. */
  lemma RepeCmpsFaults(e: Env, i: Inst, s: State, k: nat)
    requires Starts(e, i, s) && k < s.ecx && AgreeUpTo(e, i, s, k)
    requires SourceAt(e, i, s, k).Err? || TargetAt(e, i, s, k).Err?
    ensures SourceAt(e, i, s, k).Err? ==>
      var r := Cycles(e, i, s, 4 * k + 1);
      r.Faulted? && r.fault == SourceAt(e, i, s, k).fault && r.s.ecx == s.ecx - k
    ensures SourceAt(e, i, s, k).Ok? ==>
      var r := Cycles(e, i, s, 4 * k + 2);
      r.Faulted? && r.fault == TargetAt(e, i, s, k).fault && r.s.ecx == s.ecx - k
  {
    hide Cycle, SourceAt, TargetAt, FlagsAt, Linear, Strides, Latch;
    AgreeingNeverStops(e, i, s, k);
    RepeCmpsFollows(e, i, s, k);
    CmpsLoads(e, i, s, k);
    if SourceAt(e, i, s, k).Ok? {
      CmpsCompares(e, i, s, k);
      assert Cycles(e, i, s, 4 * k + 2) == Cycle(e, i, Cycles(e, i, s, 4 * k + 1).s);
    } else {
      assert Cycles(e, i, s, 4 * k + 1) == Cycle(e, i, Cycles(e, i, s, 4 * k).s);
    }
  }
}
