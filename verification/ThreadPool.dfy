/** The thread pool as interleaved atomic steps: clients and the destroyer push into the shared
    ring, workers pop from it, and three semaphores keep them apart. One step is one semaphore
    operation or one access to the ring; any enabled thread may take the next step. */
module ThreadPool {
  import opened PFifo

  datatype Elem = Job(id: nat) | Pill

  datatype Pc =
    | NotStarted | Idle
    | PushWait | PushLock | PushWrite | PushAdvance | PushUnlock | PushPost
    | PopWait | PopLock | PopRead | PopAdvance | PopUnlock | PopPost | Handle
    | Exited

  /** A client hands over its jobs in order; the destroyer pushes `pills` kill pills, then joins the
      workers one after another. */
  datatype Role = Worker | Client(todo: seq<nat>) | Destroyer(pills: nat, joined: nat)

  datatype Thread = Thread(role: Role, pc: Pc, item: Elem)

  /** The shared ring of the queue. */
  datatype Ring = Ring(buf: seq<Elem>, head: nat, tail: nat)

  datatype Semaphores = Semaphores(mutex: nat, slots: nat, data: nat)

  /** What has happened: elements put in the ring and taken from it, in order, the jobs handed to
      the user function, and whether an `Enqueue` or `Dequeue` ever returned false. */
  datatype History = History(pushed: seq<Elem>, popped: seq<Elem>, ran: multiset<Elem>, failed: bool)

  /** Threads 0..workers-1 are the workers and thread `workers` is the destroyer. In an `orderly`
      pool the destroyer is called only after every client has returned. */
  datatype State = State(workers: nat, orderly: bool, threads: seq<Thread>, ring: Ring, sems: Semaphores, log: History)

  // ---------- steps ----------

  predicate ClientsDone(s: State) {
    forall i :: 0 <= i < |s.threads| && s.threads[i].role.Client? ==> s.threads[i].pc == Idle && s.threads[i].role.todo == []
  }

  predicate Shaped(s: State) {
    && 2 <= s.workers < |s.threads|
    && InRange(|s.ring.buf|, s.ring.tail, s.ring.head)
    && (forall i :: 0 <= i < |s.threads| ==> (s.threads[i].role.Worker? <==> i < s.workers))
    && (forall i :: 0 <= i < |s.threads| ==> (s.threads[i].role.Destroyer? <==> i == s.workers))
    && (forall i :: 0 <= i < |s.threads| && s.threads[i].role.Destroyer? ==> s.threads[i].role.joined <= s.workers)
  }

  /** What an idle thread can begin. */
  predicate CanBegin(s: State, t: Thread) {
    match t.role
    case Worker => t.pc == Idle
    case Client(todo) => t.pc == Idle && todo != []
    case Destroyer(pills, joined) =>
      || (t.pc == NotStarted && (s.orderly ==> ClientsDone(s)))
      || (t.pc == Idle && (pills > 0 || joined >= s.workers
                           || (joined < |s.threads| && s.threads[joined].pc == Exited)))
  }

  /** True when thread `i` is not blocked: a semaphore wait needs a positive count. */
  predicate Enabled(s: State, i: nat)
    requires i < |s.threads|
  {
    match s.threads[i].pc
    case NotStarted => CanBegin(s, s.threads[i])
    case Idle => CanBegin(s, s.threads[i])
    case PushWait => s.sems.slots > 0
    case PushLock => s.sems.mutex > 0
    case PopWait => s.sems.data > 0
    case PopLock => s.sems.mutex > 0
    case Exited => false
    case _ => true
  }

  /** An idle thread picks its next action. */
  function Begin(s: State, t: Thread): Thread {
    match t.role
    case Worker => At(t, PopWait)
    case Client(todo) => if todo == [] then t else Thread(Client(todo[1..]), PushWait, Job(todo[0]))
    case Destroyer(pills, joined) =>
      if t.pc == NotStarted then At(t, Idle)
      else if pills > 0 then Thread(Destroyer(pills - 1, joined), PushWait, Pill)
      else if joined < s.workers then Thread(Destroyer(0, joined + 1), t.pc, t.item)
      else At(t, Exited)
  }

  predicate Full(r: Ring) { NextPtr(r.head, |r.buf|) == r.tail }

  predicate Void(r: Ring) { r.head == r.tail }

  function At(t: Thread, pc: Pc): Thread { Thread(t.role, pc, t.item) }

  /** Where thread `t` stands after its next atomic step. */
  function NextThread(s: State, t: Thread): Thread
    requires InRange(|s.ring.buf|, s.ring.tail, s.ring.head)
  {
    match t.pc
    case NotStarted => Begin(s, t)
    case Idle => Begin(s, t)
    case PushWait => At(t, PushLock)
    case PushLock => At(t, PushWrite)
    case PushWrite => At(t, if Full(s.ring) then PushUnlock else PushAdvance)
    case PushAdvance => At(t, PushUnlock)
    case PushUnlock => At(t, PushPost)
    case PushPost => At(t, Idle)
    case PopWait => At(t, PopLock)
    case PopLock => At(t, PopRead)
    case PopRead => if Void(s.ring) then At(t, PopUnlock) else Thread(t.role, PopAdvance, s.ring.buf[s.ring.tail])
    case PopAdvance => At(t, PopUnlock)
    case PopUnlock => At(t, PopPost)
    case PopPost => At(t, Handle)
    case Handle => At(t, if t.item == Pill then Exited else Idle)
    case Exited => t
  }

  /** What that step does to the ring: `Enqueue` writes the slot and then moves the head, `Dequeue`
      reads the slot and then moves the tail. */
  function NextRing(r: Ring, t: Thread): Ring
    requires InRange(|r.buf|, r.tail, r.head)
  {
    match t.pc
    case PushWrite => if Full(r) then r else Ring(r.buf[r.head := t.item], r.head, r.tail)
    case PushAdvance => Ring(r.buf, NextPtr(r.head, |r.buf|), r.tail)
    case PopAdvance => Ring(r.buf, r.head, NextPtr(r.tail, |r.buf|))
    case _ => r
  }

  /** ... to the semaphores; a wait is taken only when the count is positive. */
  function NextSems(m: Semaphores, t: Thread): Semaphores {
    match t.pc
    case PushWait => Semaphores(m.mutex, Down(m.slots), m.data)
    case PushLock => Semaphores(Down(m.mutex), m.slots, m.data)
    case PushUnlock => Semaphores(m.mutex + 1, m.slots, m.data)
    case PushPost => Semaphores(m.mutex, m.slots, m.data + 1)
    case PopWait => Semaphores(m.mutex, m.slots, Down(m.data))
    case PopLock => Semaphores(Down(m.mutex), m.slots, m.data)
    case PopUnlock => Semaphores(m.mutex + 1, m.slots, m.data)
    case PopPost => Semaphores(m.mutex, m.slots + 1, m.data)
    case _ => m
  }

  function Down(n: nat): nat { if n > 0 then n - 1 else 0 }

  /** ... and to the record of what happened. */
  function NextLog(r: Ring, h: History, t: Thread): History {
    match t.pc
    case PushWrite => History(h.pushed, h.popped, h.ran, h.failed || Full(r))
    case PushAdvance => History(h.pushed + [t.item], h.popped, h.ran, h.failed)
    case PopRead => History(h.pushed, h.popped, h.ran, h.failed || Void(r))
    case PopAdvance => History(h.pushed, h.popped + [t.item], h.ran, h.failed)
    case Handle => if t.item == Pill then h else History(h.pushed, h.popped, h.ran + multiset{t.item}, h.failed)
    case _ => h
  }

  /** One atomic step of thread `i`. */
  function Step(s: State, i: nat): State
    requires Shaped(s) && i < |s.threads| && Enabled(s, i)
  {
    var t := s.threads[i];
    State(s.workers, s.orderly, s.threads[i := NextThread(s, t)], NextRing(s.ring, t), NextSems(s.sems, t),
          NextLog(s.ring, s.log, t))
  }

  /** The pool just after creation, with one destroyer and any number of clients. */
  ghost predicate Initial(s: State, capacity: nat) {
    && Shaped(s) && capacity >= 1 && |s.ring.buf| == capacity + 1
    && s.ring.head == 0 && s.ring.tail == 0 && s.sems.mutex == 1 && s.sems.slots == capacity && s.sems.data == 0
    && s.log.pushed == [] && s.log.popped == [] && s.log.ran == multiset{} && !s.log.failed
    && (forall i :: 0 <= i < |s.threads| ==>
          s.threads[i].pc == if s.threads[i].role.Destroyer? then NotStarted else Idle)
    && s.threads[s.workers].role == Destroyer(s.workers, 0)
  }

  /** `trace` is an interleaving of steps, one thread number a step, that leads from `s` to `t`. */
  ghost predicate Execution(s: State, trace: seq<nat>, t: State)
    decreases |trace|
  {
    if trace == [] then s == t
    else
      var i := trace[0];
      Shaped(s) && i < |s.threads| && Enabled(s, i) && Execution(Step(s, i), trace[1..], t)
  }

  // ---------- counting tokens ----------

  /** What a thread may be holding or owing. */
  datatype Token = SlotToken | DataOwed | DataToken | SlotOwed | Critical

  function Holds(t: Thread, k: Token): (n: nat)
    ensures n <= 1
  {
    var held := match k
      case SlotToken => t.pc.PushLock? || t.pc.PushWrite? || t.pc.PushAdvance?
      case DataOwed => t.pc.PushUnlock? || t.pc.PushPost?
      case DataToken => t.pc.PopLock? || t.pc.PopRead? || t.pc.PopAdvance?
      case SlotOwed => t.pc.PopUnlock? || t.pc.PopPost?
      case Critical => t.pc.PushWrite? || t.pc.PushAdvance? || t.pc.PushUnlock?
                       || t.pc.PopRead? || t.pc.PopAdvance? || t.pc.PopUnlock?;
    if held then 1 else 0
  }

  function Tally(ts: seq<Thread>, k: Token): nat
    decreases |ts|
  {
    if ts == [] then 0 else Holds(ts[0], k) + Tally(ts[1..], k)
  }

  lemma {:induction false} TallyUpdate(ts: seq<Thread>, i: nat, t: Thread, k: Token)
    requires i < |ts|
    ensures Tally(ts[i := t], k) == Tally(ts, k) - Holds(ts[i], k) + Holds(t, k)
    decreases |ts|
  {
    if i == 0 {
      assert ts[i := t][1..] == ts[1..];
    } else {
      assert ts[i := t][1..] == ts[1..][i - 1 := t];
      TallyUpdate(ts[1..], i - 1, t, k);
    }
  }

  lemma {:induction false} TallyAtLeast(ts: seq<Thread>, i: nat, k: Token)
    requires i < |ts|
    ensures Tally(ts, k) >= Holds(ts[i], k)
    decreases |ts|
  {
    if i > 0 { TallyAtLeast(ts[1..], i - 1, k); }
  }

  lemma {:induction false} TallyPair(ts: seq<Thread>, i: nat, j: nat, k: Token)
    requires i < j < |ts|
    ensures Tally(ts, k) >= Holds(ts[i], k) + Holds(ts[j], k)
    decreases |ts|
  {
    if i == 0 { TallyAtLeast(ts[1..], j - 1, k); } else { TallyPair(ts[1..], i - 1, j - 1, k); }
  }

  lemma {:induction false} TallyZero(ts: seq<Thread>, k: Token)
    requires forall i :: 0 <= i < |ts| ==> Holds(ts[i], k) == 0
    ensures Tally(ts, k) == 0
    decreases |ts|
  {
    if ts != [] { TallyZero(ts[1..], k); }
  }

  // ---------- where every element is ----------

  /** How often element `e` is still to be pushed in role `r`. */
  function ToPush(r: Role, e: Elem): nat {
    match r
    case Worker => 0
    case Client(todo) => JobCount(todo, e)
    case Destroyer(pills, _) => if e == Pill then pills else 0
  }

  function JobCount(todo: seq<nat>, e: Elem): nat
    decreases |todo|
  {
    if todo == [] then 0 else (if e == Job(todo[0]) then 1 else 0) + JobCount(todo[1..], e)
  }

  /** Does the thread hold an element: one it is pushing, or one it has popped and not finished with?
      An exited worker keeps its pill. */
  predicate Carries(t: Thread) {
    t.pc.PushWait? || t.pc.PushLock? || t.pc.PushWrite? || t.pc.PushAdvance?
    || t.pc.PopUnlock? || t.pc.PopPost? || t.pc.Handle? || (t.pc.Exited? && t.role.Worker?)
  }

  function InHand(t: Thread, e: Elem): nat {
    ToPush(t.role, e) + if Carries(t) && t.item == e then 1 else 0
  }

  function AllInHand(ts: seq<Thread>, e: Elem): nat
    decreases |ts|
  {
    if ts == [] then 0 else InHand(ts[0], e) + AllInHand(ts[1..], e)
  }

  lemma {:induction false} InHandUpdate(ts: seq<Thread>, i: nat, t: Thread, e: Elem)
    requires i < |ts|
    ensures AllInHand(ts[i := t], e) == AllInHand(ts, e) - InHand(ts[i], e) + InHand(t, e)
    decreases |ts|
  {
    if i == 0 {
      assert ts[i := t][1..] == ts[1..];
    } else {
      assert ts[i := t][1..] == ts[1..][i - 1 := t];
      InHandUpdate(ts[1..], i - 1, t, e);
    }
  }

  function Queue(s: State): seq<Elem>
    requires Shaped(s)
  {
    Window(s.ring.buf, s.ring.tail, s.ring.head)
  }

  /** How often `e` occurs in the whole pool: in hand, in the ring, or among the jobs that ran. */
  function Occurrences(s: State, e: Elem): nat
    requires Shaped(s)
  {
    AllInHand(s.threads, e) + multiset(Queue(s))[e] + s.log.ran[e]
  }

  // ---------- the invariant ----------

  /** Every free slot is counted by the semaphore, promised to a pusher, or owed by a popper; every
      element in the ring is counted, promised to a popper, or owed by a pusher. */
  ghost predicate SlotsBalance(s: State)
    requires Shaped(s)
  {
    s.sems.slots + Tally(s.threads, SlotToken) + Tally(s.threads, SlotOwed) == |s.ring.buf| - 1 - |Queue(s)|
  }

  ghost predicate DataBalance(s: State)
    requires Shaped(s)
  {
    s.sems.data + Tally(s.threads, DataToken) + Tally(s.threads, DataOwed) == |Queue(s)|
  }

  ghost predicate MutexBalance(s: State) { s.sems.mutex + Tally(s.threads, Critical) == 1 }

  ghost predicate Balanced(s: State)
    requires Shaped(s)
  {
    SlotsBalance(s) && DataBalance(s) && MutexBalance(s)
  }

  predicate LocallyRight(s: State, t: Thread)
    requires Shaped(s)
  {
    && (t.pc.PushAdvance? ==> NextPtr(s.ring.head, |s.ring.buf|) != s.ring.tail && s.ring.buf[s.ring.head] == t.item)
    && (t.pc.PopAdvance? ==> s.ring.head != s.ring.tail && s.ring.buf[s.ring.tail] == t.item)
    && (match t.role
        case Worker => (t.pc.Idle? || t.pc.Exited? || !Pushes(t.pc)) && (t.pc.Exited? ==> t.item == Pill)
        case Client(_) => Pushes(t.pc) && !t.pc.NotStarted? && !t.pc.Exited? && (!t.pc.Idle? ==> t.item.Job?)
        case Destroyer(pills, joined) =>
          && Pushes(t.pc)
          && (!t.pc.Idle? && !t.pc.NotStarted? && !t.pc.Exited? ==> t.item == Pill)
          && (t.pc.Exited? ==> pills == 0 && joined == s.workers))
  }

  predicate Pushes(pc: Pc) {
    !pc.PopWait? && !pc.PopLock? && !pc.PopRead? && !pc.PopAdvance? && !pc.PopUnlock? && !pc.PopPost? && !pc.Handle?
  }

  /** No job is ever behind a pill. */
  predicate PillsLast(q: seq<Elem>) {
    forall i, j :: 0 <= i < j < |q| && q[i] == Pill ==> q[j] == Pill
  }

  ghost predicate Inv(s: State) {
    && Shaped(s) && !s.log.failed
    && Balanced(s)
    && (forall i :: 0 <= i < |s.threads| ==> LocallyRight(s, s.threads[i]))
    && s.log.pushed == s.log.popped + Queue(s)
    && (s.orderly ==> PillsLast(s.log.pushed)) && Pill !in s.log.ran
    && (forall i :: 0 <= i < s.workers && Carries(s.threads[i]) && s.threads[i].item == Pill ==> Pill in s.log.popped)
    && (s.orderly && s.threads[s.workers].pc != NotStarted ==> ClientsDone(s))
    && (s.threads[s.workers].pc == NotStarted ==> Pill !in s.log.pushed)
    && (forall w :: 0 <= w < s.workers && w < s.threads[s.workers].role.joined ==> s.threads[w].pc == Exited)
  }

  lemma InitialInv(s: State, capacity: nat)
    requires Initial(s, capacity)
    ensures Inv(s)
  {
    TallyZero(s.threads, SlotToken);
    TallyZero(s.threads, SlotOwed);
    TallyZero(s.threads, DataToken);
    TallyZero(s.threads, DataOwed);
    TallyZero(s.threads, Critical);
  }

  // ---------- every step keeps the invariant ----------

  lemma OnlyOneInside(s: State, i: nat, j: nat)
    requires Shaped(s) && Balanced(s) && i < |s.threads| && j < |s.threads| && i != j
    requires Holds(s.threads[i], Critical) == 1
    ensures Holds(s.threads[j], Critical) == 0
  {
    if i < j { TallyPair(s.threads, i, j, Critical); } else { TallyPair(s.threads, j, i, Critical); }
  }

  /** Holding a slot token means the ring is not full; holding a data token, that it is not empty.
      So `Enqueue` and `Dequeue` never fail. */
  lemma TokensAreGood(s: State, i: nat)
    requires Shaped(s) && Balanced(s) && i < |s.threads|
    ensures Holds(s.threads[i], SlotToken) == 1 ==> !Full(s.ring)
    ensures Holds(s.threads[i], DataToken) == 1 ==> !Void(s.ring)
  {
    TallyAtLeast(s.threads, i, SlotToken);
    TallyAtLeast(s.threads, i, DataToken);
    FullExactlyWhen(s.ring.buf, s.ring.tail, s.ring.head);
  }

  lemma BeginShape(s: State, t: Thread)
    requires CanBegin(s, t)
    ensures var u := Begin(s, t);
            && (u.role.Worker? <==> t.role.Worker?) && (u.role.Destroyer? <==> t.role.Destroyer?)
            && (t.role.Destroyer? && t.role.joined <= s.workers ==> u.role.joined <= s.workers)
            && (u.role.Destroyer? && u.role.joined > t.role.joined
                ==> u.role.joined == t.role.joined + 1 && t.role.joined < |s.threads| && s.threads[t.role.joined].pc == Exited)
            && (t.role.Destroyer? && t.pc.NotStarted? ==> s.orderly ==> ClientsDone(s))
            && (u.pc.NotStarted? ==> false)
  {
    hide ClientsDone;
  }

  lemma StepShaped(s: State, i: nat)
    requires Shaped(s) && i < |s.threads| && Enabled(s, i)
    ensures Shaped(Step(s, i))
  {
    var t := s.threads[i];
    if t.pc.NotStarted? || t.pc.Idle? { BeginShape(s, t); }
    hide Begin, CanBegin, ClientsDone, NextSems, NextLog;
    assert InRange(|NextRing(s.ring, t).buf|, NextRing(s.ring, t).tail, NextRing(s.ring, t).head);
    hide NextRing;
    var u := NextThread(s, t);
    assert (u.role.Worker? <==> t.role.Worker?) && (u.role.Destroyer? <==> t.role.Destroyer?);
    hide NextThread;
  }

  /** How the window of queued elements moves with each kind of step. */
  ghost predicate QueueMoved(before: seq<Elem>, after: seq<Elem>, t: Thread) {
    match t.pc
    case PushAdvance => after == before + [t.item]
    case PopAdvance => before == [t.item] + after
    case _ => after == before
  }

  lemma StepQueue(s: State, i: nat)
    requires Shaped(s) && Balanced(s) && i < |s.threads| && Enabled(s, i) && LocallyRight(s, s.threads[i])
    ensures Shaped(Step(s, i)) && QueueMoved(Queue(s), Queue(Step(s, i)), s.threads[i])
  {
    var t, r := s.threads[i], s.ring;
    StepShaped(s, i);
    TokensAreGood(s, i);
    if t.pc.PushWrite? { WriteIsInvisible(r.buf, r.tail, r.head, t.item); }
    if t.pc.PushAdvance? { AdvanceHead(r.buf, r.tail, r.head); }
    if t.pc.PopAdvance? { AdvanceTail(r.buf, r.tail, r.head); }
    hide Window, Balanced, Shaped, Enabled, NextThread, NextSems, NextLog;
  }

  /** A step moves tokens between its thread, the semaphores and the ring, and loses none. */
  lemma StepKeepsTokens(s: State, i: nat)
    requires Shaped(s) && Balanced(s) && i < |s.threads| && Enabled(s, i) && LocallyRight(s, s.threads[i])
    ensures var t, u := s.threads[i], NextThread(s, s.threads[i]);
            var m, n := s.sems, Step(s, i).sems;
            var pushed, popped := Hit(t.pc.PushAdvance?), Hit(t.pc.PopAdvance?);
            && n.slots + Holds(u, SlotToken) + Holds(u, SlotOwed) + pushed == m.slots + Holds(t, SlotToken) + Holds(t, SlotOwed) + popped
            && n.data + Holds(u, DataToken) + Holds(u, DataOwed) + popped == m.data + Holds(t, DataToken) + Holds(t, DataOwed) + pushed
            && n.mutex + Holds(u, Critical) == m.mutex + Holds(t, Critical)
    ensures Step(s, i).log.failed == s.log.failed && |Step(s, i).ring.buf| == |s.ring.buf|
    ensures Step(s, i).threads == s.threads[i := NextThread(s, s.threads[i])]
  {
    TokensAreGood(s, i);
    hide Queue, Window, ClientsDone, Shaped, Balanced, CanBegin, Full, Void, InRange, NextPtr;
  }

  function Hit(b: bool): (n: nat)
    ensures n <= 1
  {
    if b then 1 else 0
  }

  lemma StepBalanced(s: State, i: nat)
    requires Shaped(s) && Balanced(s) && i < |s.threads| && Enabled(s, i) && LocallyRight(s, s.threads[i])
    ensures Shaped(Step(s, i)) && Balanced(Step(s, i))
  {
    hide Step, Window, LocallyRight, Holds, Tally, Enabled;
    StepQueue(s, i);
    StepKeepsTokens(s, i);
    var u := NextThread(s, s.threads[i]);
    hide Shaped, Queue, NextThread;
    TallyUpdate(s.threads, i, u, SlotToken);
    TallyUpdate(s.threads, i, u, SlotOwed);
    TallyUpdate(s.threads, i, u, DataToken);
    TallyUpdate(s.threads, i, u, DataOwed);
    TallyUpdate(s.threads, i, u, Critical);
  }

  lemma StepLocalOther(s: State, i: nat, j: nat)
    requires Inv(s) && i < |s.threads| && j < |s.threads| && Enabled(s, i) && i != j
    ensures Shaped(Step(s, i)) && LocallyRight(Step(s, i), Step(s, i).threads[j])
  {
    var t, u := s.threads[i], Step(s, i);
    StepShaped(s, i);
    assert LocallyRight(s, s.threads[j]);
    assert u.workers == s.workers && u.threads[j] == s.threads[j];
    if t.pc.PushWrite? || t.pc.PushAdvance? || t.pc.PopAdvance? {
      OnlyOneInside(s, i, j);
    } else {
      assert u.ring == s.ring;
    }
    hide Step, Shaped, Balanced, Enabled, PillsLast, ClientsDone, InRange;
  }

  lemma StepLocalSelf(s: State, i: nat)
    requires Inv(s) && i < |s.threads| && Enabled(s, i)
    ensures Shaped(Step(s, i)) && LocallyRight(Step(s, i), Step(s, i).threads[i])
  {
    var t := s.threads[i];
    StepShaped(s, i);
    TokensAreGood(s, i);
    assert LocallyRight(s, t);
    assert s.ring.head < |s.ring.buf|;
    assert t.role.Destroyer? ==> t.role.joined <= s.workers;
    hide ClientsDone, Balanced, PillsLast, Shaped, NextSems, NextLog;
  }

  lemma StepClients(s: State, i: nat)
    requires Inv(s) && i < |s.threads| && Enabled(s, i)
    ensures var u := Step(s, i);
            && u.workers == s.workers && u.orderly == s.orderly
            && (u.orderly && u.threads[u.workers].pc != NotStarted ==> ClientsDone(u))
            && (forall w :: 0 <= w < u.workers && w < u.threads[u.workers].role.joined ==> u.threads[w].pc == Exited)
  {
    var t := s.threads[i];
    StepShaped(s, i);
    hide Balanced, PillsLast, InRange, Queue, Window, NextRing, NextSems, NextLog;
    assert LocallyRight(s, t) && LocallyRight(s, s.threads[s.workers]);
    if t.pc.NotStarted? || t.pc.Idle? {
      BeginShape(s, t);
      assert t.role.Client? ==> t.pc.Idle? && t.role.todo != [];
      hide Begin, LocallyRight;
    } else {
      assert NextThread(s, t).role == t.role && t.pc != Exited && NextThread(s, t).pc != NotStarted;
      hide Begin, LocallyRight, CanBegin, NextThread;
    }
  }

  lemma StepHistory(s: State, i: nat)
    requires Inv(s) && i < |s.threads| && Enabled(s, i)
    ensures var u := Step(s, i); Shaped(u) && u.log.pushed == u.log.popped + Queue(u)
  {
    var t, u := s.threads[i], Step(s, i);
    assert LocallyRight(s, t);
    StepQueue(s, i);
    hide Balanced, Queue, Window, CanBegin, Begin, PillsLast, LocallyRight, ClientsDone, Shaped, NextThread, NextSems;
    if t.pc.PopAdvance? {
      assert s.log.popped + ([t.item] + Queue(u)) == s.log.popped + [t.item] + Queue(u);
    }
  }

  lemma StepPillsLast(s: State, i: nat)
    requires Inv(s) && i < |s.threads| && Enabled(s, i)
    ensures var u := Step(s, i);
            && Shaped(u) && (u.orderly ==> PillsLast(u.log.pushed)) && Pill !in u.log.ran
            && (u.threads[u.workers].pc == NotStarted ==> Pill !in u.log.pushed)
  {
    var t, u, d := s.threads[i], Step(s, i), s.threads[s.workers];
    assert LocallyRight(s, t) && LocallyRight(s, d);
    StepShaped(s, i);
    if t.pc.NotStarted? || t.pc.Idle? { BeginShape(s, t); }
    hide Balanced, Queue, Begin, CanBegin, NextRing, NextSems;
    assert u.threads[u.workers].pc == NotStarted ==> d.pc == NotStarted;
    hide NextThread;
    assert u.log.pushed == s.log.pushed + if t.pc.PushAdvance? then [t.item] else [];
    assert t.pc.PushAdvance? && t.item == Pill ==> d.pc != NotStarted;
    assert s.orderly && t.pc.PushAdvance? && t.item != Pill ==> d.pc == NotStarted;
    assert u.orderly == s.orderly && Pill !in u.log.ran;
    hide Step, Shaped, LocallyRight, Enabled;
  }

  lemma StepCarriedPills(s: State, i: nat)
    requires Inv(s) && i < |s.threads| && Enabled(s, i)
    ensures var u := Step(s, i);
            forall j :: 0 <= j < u.workers && j < |u.threads| && Carries(u.threads[j]) && u.threads[j].item == Pill
                        ==> Pill in u.log.popped
  {
    var t, u := s.threads[i], Step(s, i);
    assert LocallyRight(s, t);
    StepShaped(s, i);
    TokensAreGood(s, i);
    hide Balanced, Queue, PillsLast, ClientsDone, NextRing, NextSems;
    assert u.log.popped == s.log.popped + if t.pc.PopAdvance? then [t.item] else [];
    var t' := NextThread(s, t);
    assert i < s.workers && Carries(t') ==> t'.item == t.item && (Carries(t) || t.pc.PopAdvance?);
    assert u.threads == s.threads[i := t'] && u.workers == s.workers;
    hide Step, Shaped, LocallyRight, Enabled, Carries, NextThread;
  }

  /** Every step of every thread keeps the invariant. */
  lemma StepInv(s: State, i: nat)
    requires Inv(s) && i < |s.threads| && Enabled(s, i)
    ensures Inv(Step(s, i))
  {
    hide LocallyRight, PillsLast, Balanced, ClientsDone, Enabled, Carries, NextThread, NextLog, NextSems, NextRing;
    StepBalanced(s, i);
    StepKeepsTokens(s, i);
    StepClients(s, i);
    StepHistory(s, i);
    StepPillsLast(s, i);
    StepCarriedPills(s, i);
    forall j: nat | j < |s.threads| ensures LocallyRight(Step(s, i), Step(s, i).threads[j]) {
      if j == i { StepLocalSelf(s, i); } else { StepLocalOther(s, i, j); }
    }
    hide Step, Shaped, Queue;
  }

  // ---------- conservation ----------

  lemma BeginHand(s: State, t: Thread, e: Elem)
    requires CanBegin(s, t) && Shaped(s) && (t.pc.Idle? || t.pc.NotStarted?)
    ensures InHand(Begin(s, t), e) == InHand(t, e)
  {
  }

  /** A thread puts its element down in the ring, picks one up there, or passes a job to the user. */
  predicate PutsDown(t: Thread, e: Elem) { (t.pc.PushAdvance? || (t.pc.Handle? && e != Pill)) && t.item == e }
  predicate PicksUp(t: Thread, e: Elem) { t.pc.PopAdvance? && t.item == e }

  lemma StepHand(s: State, i: nat, e: Elem)
    requires Inv(s) && i < |s.threads| && Enabled(s, i)
    ensures var t, u := s.threads[i], NextThread(s, s.threads[i]);
            InHand(u, e) + Hit(PutsDown(t, e)) == InHand(t, e) + Hit(PicksUp(t, e))
  {
    var t := s.threads[i];
    assert LocallyRight(s, t);
    hide Queue, Window, Balanced, ClientsDone, PillsLast;
    if t.pc.Idle? || t.pc.NotStarted? {
      BeginHand(s, t, e);
      hide InHand, Shaped, Begin, CanBegin, LocallyRight;
    } else {
      TokensAreGood(s, i);
      hide Begin, CanBegin, Shaped, ToPush, Full, Void;
    }
  }

  lemma StepRing(s: State, i: nat, e: Elem)
    requires Inv(s) && i < |s.threads| && Enabled(s, i)
    ensures var t, u := s.threads[i], Step(s, i);
            && Shaped(u)
            && multiset(Queue(u))[e] + u.log.ran[e] + Hit(PicksUp(t, e))
               == multiset(Queue(s))[e] + s.log.ran[e] + Hit(PutsDown(t, e))
  {
    var t, u := s.threads[i], Step(s, i);
    assert LocallyRight(s, t);
    StepQueue(s, i);
    hide Queue, Balanced, ClientsDone, Shaped, PillsLast, LocallyRight, Begin, CanBegin, NextThread, NextSems;
    assert u.log.ran[e] == s.log.ran[e] + Hit(t.pc.Handle? && e != Pill && t.item == e);
    hide Step;
    assert multiset(Queue(u))[e] + Hit(PicksUp(t, e)) == multiset(Queue(s))[e] + Hit(t.pc.PushAdvance? && t.item == e);
  }

  /** Elements are neither lost nor duplicated by a step: they move between hands, the ring and the
      jobs that ran. */
  lemma StepKeepsElements(s: State, i: nat, e: Elem)
    requires Inv(s) && i < |s.threads| && Enabled(s, i)
    ensures Shaped(Step(s, i)) && Occurrences(Step(s, i), e) == Occurrences(s, e)
  {
    StepHand(s, i, e);
    StepRing(s, i, e);
    StepKeepsTokens(s, i) by { assert LocallyRight(s, s.threads[i]); }
    hide Step, Queue, InHand, AllInHand, Balanced, Shaped, Enabled, PutsDown, PicksUp, LocallyRight;
    InHandUpdate(s.threads, i, NextThread(s, s.threads[i]), e);
  }
}
