/** What every interleaving of the thread pool guarantees: it never fails, never deadlocks, always
    ends, and when it ends every job has run exactly once. */
module ThreadPoolRuns {
  import opened PFifo
  import opened ThreadPool

  ghost predicate Finished(s: State)
    requires Shaped(s)
  {
    s.threads[s.workers].pc == Exited
  }

  // ---------- pills ----------

  lemma {:induction false} PillsHeld(ts: seq<Thread>, n: nat)
    requires n <= |ts|
    requires forall i :: 0 <= i < n ==> InHand(ts[i], Pill) >= 1
    ensures AllInHand(ts, Pill) >= n
    decreases |ts|
  {
    if n > 0 { PillsHeld(ts[1..], n - 1); }
  }

  lemma {:induction false} AllHoldPills(ts: seq<Thread>, n: nat)
    requires n <= |ts| && AllInHand(ts, Pill) >= n
    requires forall i :: 0 <= i < n ==> InHand(ts[i], Pill) <= 1
    requires forall i :: n <= i < |ts| ==> InHand(ts[i], Pill) == 0
    ensures forall i :: 0 <= i < n ==> InHand(ts[i], Pill) == 1
    decreases |ts|
  {
    if n > 0 {
      AtMost(ts[1..], n - 1);
      AllHoldPills(ts[1..], n - 1);
      assert forall i :: 0 < i < n ==> ts[i] == ts[1..][i - 1];
    }
  }

  lemma {:induction false} AtMost(ts: seq<Thread>, n: nat)
    requires n <= |ts|
    requires forall i :: 0 <= i < n ==> InHand(ts[i], Pill) <= 1
    requires forall i :: n <= i < |ts| ==> InHand(ts[i], Pill) == 0
    ensures AllInHand(ts, Pill) <= n
    decreases |ts|
  {
    if ts != [] { AtMost(ts[1..], if n > 0 then n - 1 else 0); }
  }

  lemma {:induction false} NoneInHand(ts: seq<Thread>, e: Elem)
    requires forall i :: 0 <= i < |ts| ==> InHand(ts[i], e) == 0
    ensures AllInHand(ts, e) == 0
    decreases |ts|
  {
    if ts != [] { NoneInHand(ts[1..], e); }
  }

  lemma {:induction false} InHandAtLeast(ts: seq<Thread>, i: nat, n: nat, e: Elem)
    requires n <= i < |ts| && e == Pill
    requires forall j :: 0 <= j < n ==> InHand(ts[j], Pill) >= 1
    ensures AllInHand(ts, e) >= n + InHand(ts[i], e)
    decreases |ts|
  {
    if n > 0 {
      InHandAtLeast(ts[1..], i - 1, n - 1, e);
    } else if i > 0 {
      InHandAtLeast(ts[1..], i - 1, 0, e);
    }
  }

  // ---------- the end of a run ----------

  lemma NothingBehindAPill(p: seq<Elem>, q: seq<Elem>)
    requires PillsLast(p + q) && Pill in p
    ensures forall j :: 0 <= j < |q| ==> q[j] == Pill
  {
    var k :| 0 <= k < |p| && p[k] == Pill;
    forall j | 0 <= j < |q| ensures q[j] == Pill {
      assert (p + q)[k] == Pill && (p + q)[|p| + j] == q[j];
    }
  }

  lemma {:induction false} PillsCount(q: seq<Elem>)
    requires forall j :: 0 <= j < |q| ==> q[j] == Pill
    ensures multiset(q)[Pill] == |q|
    decreases |q|
  {
    if q != [] {
      assert q == [q[0]] + q[1..];
      PillsCount(q[1..]);
    }
  }

  /** Once the destroyer has joined every worker, each worker holds exactly one pill and no pill is
      left in the ring; a job that was given but has not run is in the ring or still with a client. */
  lemma FinishedWorkers(s: State)
    requires Inv(s) && Finished(s) && Occurrences(s, Pill) == s.workers
    ensures forall w :: 0 <= w < s.workers ==> s.threads[w].pc == Exited && InHand(s.threads[w], Pill) == 1
    ensures multiset(Queue(s))[Pill] == 0 && Pill in s.log.popped
  {
    var ts := s.threads;
    assert LocallyRight(s, ts[s.workers]);
    forall w | 0 <= w < s.workers ensures ts[w].pc == Exited && ts[w].item == Pill && InHand(ts[w], Pill) == 1 {
      assert LocallyRight(s, ts[w]);
    }
    PillsHeld(ts, s.workers);
    assert Carries(ts[0]) && Pill in s.log.popped;
  }

  /** In an orderly pool nothing is left behind: every job has run as often as it was given. */
  lemma FinishedMeansDone(s: State)
    requires Inv(s) && Finished(s) && Occurrences(s, Pill) == s.workers && s.orderly
    ensures Queue(s) == []
    ensures forall id :: s.log.ran[Job(id)] == Occurrences(s, Job(id))
  {
    var ts := s.threads;
    assert LocallyRight(s, ts[s.workers]);
    FinishedWorkers(s);
    NothingBehindAPill(s.log.popped, Queue(s));
    PillsCount(Queue(s));
    forall id ensures s.log.ran[Job(id)] == Occurrences(s, Job(id)) {
      forall i | 0 <= i < |ts| ensures InHand(ts[i], Job(id)) == 0 {
        if i > s.workers { assert ts[i].role.Client?; }
        if i < s.workers { assert InHand(ts[i], Pill) == 1; }
      }
      NoneInHand(ts, Job(id));
    }
  }

  // ---------- no deadlock ----------

  /** Waiting outside the queue, or not in it at all: holding no token and owing none. */
  predicate Quiet(t: Thread) { t.pc.NotStarted? || t.pc.Idle? || t.pc.PushWait? || t.pc.PopWait? || t.pc.Exited? }

  predicate AtMutex(t: Thread) { t.pc.PushLock? || t.pc.PopLock? }

  lemma MutexIsFree(s: State)
    requires Inv(s) && forall i :: 0 <= i < |s.threads| ==> Quiet(s.threads[i]) || AtMutex(s.threads[i])
    ensures s.sems.mutex == 1
  {
    hide Shaped, PillsLast, ClientsDone, LocallyRight;
    TallyZero(s.threads, Critical);
  }

  lemma QuietCounts(s: State)
    requires Inv(s) && forall i :: 0 <= i < |s.threads| ==> Quiet(s.threads[i])
    ensures s.sems.data == |Queue(s)| && s.sems.slots == |s.ring.buf| - 1 - |Queue(s)|
  {
    var ts := s.threads;
    hide Queue, PillsLast, ClientsDone, LocallyRight;
    TallyZero(ts, SlotToken);
    TallyZero(ts, SlotOwed);
    TallyZero(ts, DataToken);
    TallyZero(ts, DataOwed);
  }

  /** With all workers gone, the destroyer has nothing left to push and can go on joining. */
  lemma JoinsWhenAllExited(s: State)
    requires Inv(s) && !Finished(s) && Occurrences(s, Pill) == s.workers
    requires Quiet(s.threads[s.workers])
    requires forall w :: 0 <= w < s.workers ==> s.threads[w].pc == Exited
    ensures Enabled(s, s.workers)
  {
    var ts, d := s.threads, s.threads[s.workers];
    forall w | 0 <= w < s.workers ensures InHand(ts[w], Pill) == 1 && Carries(ts[w]) && ts[w].item == Pill {
      assert LocallyRight(s, ts[w]);
    }
    assert LocallyRight(s, d);
    InHandAtLeast(ts, s.workers, s.workers, Pill);
    assert Carries(ts[0]) && Pill in s.log.popped;
    hide Balanced, Window, PillsLast, ClientsDone;
  }

  /** With the ring empty and no client on its way, the destroyer can start, push or join. */
  lemma DestroyerGoesOn(s: State)
    requires Inv(s) && !Finished(s) && Occurrences(s, Pill) == s.workers
    requires Queue(s) == [] && ClientsDone(s)
    requires forall i :: 0 <= i < |s.threads| ==> Quiet(s.threads[i]) && !s.threads[i].pc.PushWait?
    ensures Enabled(s, s.workers)
  {
    var ts, d := s.threads, s.threads[s.workers];
    assert LocallyRight(s, d);
    if d.pc.Idle? && d.role.pills == 0 {
      forall i | 0 <= i < |ts|
        ensures InHand(ts[i], Pill) == if i < s.workers && ts[i].pc.Exited? then 1 else 0
      {
        assert LocallyRight(s, ts[i]);
        if ts[i].role.Client? { JobsAreNoPills(ts[i].role.todo); }
      }
      hide Balanced, Window, PillsLast, LocallyRight;
      AllHoldPills(ts, s.workers);
    }
  }

  lemma WorkerCanTake(s: State, w: nat)
    requires Inv(s) && w < s.workers && Quiet(s.threads[w]) && s.threads[w].pc != Exited
    requires s.threads[w].pc.Idle? || s.sems.data > 0
    ensures Enabled(s, w)
  {
    assert LocallyRight(s, s.threads[w]);
    hide Balanced, Window, PillsLast, ClientsDone;
  }

  /** As long as the destroyer has not returned, some thread can take a step. */
  lemma NoDeadlock(s: State) returns (i: nat)
    requires Inv(s) && !Finished(s) && Occurrences(s, Pill) == s.workers
    ensures i < |s.threads| && Enabled(s, i)
  {
    var ts := s.threads;
    hide Balanced, LocallyRight, PillsLast, Window;
    if j: nat :| j < |ts| && !Quiet(ts[j]) && !AtMutex(ts[j]) {
      return j;
    } else if j: nat :| j < |ts| && AtMutex(ts[j]) {
      MutexIsFree(s);
      return j;
    }
    QuietCounts(s);
    if forall w :: 0 <= w < s.workers ==> ts[w].pc == Exited {
      JoinsWhenAllExited(s);
      return s.workers;
    } else if w: nat :| w < s.workers && ts[w].pc != Exited && (ts[w].pc == Idle || Queue(s) != []) {
      WorkerCanTake(s, w);
      return w;
    } else if j: nat :| j < |ts| && ts[j].pc == PushWait {
      return j;
    } else if j: nat :| j < |ts| && ts[j].role.Client? && ts[j].pc == Idle && ts[j].role.todo != [] {
      return j;
    }
    ClientsAreDone(s);
    DestroyerGoesOn(s);
    return s.workers;
  }

  lemma ClientsAreDone(s: State)
    requires Inv(s)
    requires forall i :: 0 <= i < |s.threads| ==> Quiet(s.threads[i]) && !s.threads[i].pc.PushWait?
    requires forall i :: 0 <= i < |s.threads| && s.threads[i].role.Client? && s.threads[i].pc == Idle ==> s.threads[i].role.todo == []
    ensures ClientsDone(s)
  {
    forall i | 0 <= i < |s.threads| && s.threads[i].role.Client? ensures s.threads[i].pc == Idle {
      assert LocallyRight(s, s.threads[i]);
    }
  }

  // ---------- every run ends ----------

  /** What a thread still has to do, weighted so that every step costs at least one. */
  function Weight(workers: nat, t: Thread): nat {
    (match t.role
     case Worker => 0
     case Client(todo) => 16 * |todo|
     case Destroyer(pills, joined) =>
       16 * pills + (if joined <= workers then workers - joined else 0)
       + (if t.pc.NotStarted? then 2 else if t.pc.Exited? then 0 else 1))
    + (match t.pc
       case NotStarted => 0
       case Idle => if t.role.Worker? then 1 else 0
       case PushWait => 15
       case PushLock => 14
       case PushWrite => 13
       case PushAdvance => 12
       case PushUnlock => 8
       case PushPost => 7
       case PopWait => 0
       case PopLock => 5
       case PopRead => 4
       case PopAdvance => 3
       case PopUnlock => 5
       case PopPost => 4
       case Handle => 3
       case Exited => 0)
  }

  function TotalWeight(workers: nat, ts: seq<Thread>): nat
    decreases |ts|
  {
    if ts == [] then 0 else Weight(workers, ts[0]) + TotalWeight(workers, ts[1..])
  }

  lemma {:induction false} WeightUpdate(workers: nat, ts: seq<Thread>, i: nat, t: Thread)
    requires i < |ts|
    ensures TotalWeight(workers, ts[i := t]) == TotalWeight(workers, ts) - Weight(workers, ts[i]) + Weight(workers, t)
    decreases |ts|
  {
    if i == 0 {
      assert ts[i := t][1..] == ts[1..];
    } else {
      assert ts[i := t][1..] == ts[1..][i - 1 := t];
      WeightUpdate(workers, ts[1..], i - 1, t);
    }
  }

  /** The work left in the pool: in the threads, in the queued elements, in the posted tokens. */
  function WorkLeft(s: State): nat
    requires Shaped(s)
  {
    TotalWeight(s.workers, s.threads) + 3 * |Queue(s)| + 6 * s.sems.data
  }

  lemma StepCosts(s: State, i: nat)
    requires Inv(s) && i < |s.threads| && Enabled(s, i)
    ensures Shaped(Step(s, i)) && WorkLeft(Step(s, i)) < WorkLeft(s)
  {
    StepQueue(s, i) by { assert LocallyRight(s, s.threads[i]); }
    StepKeepsTokens(s, i) by { assert LocallyRight(s, s.threads[i]); }
    WeightUpdate(s.workers, s.threads, i, NextThread(s, s.threads[i]));
    StepWeight(s, i);
    hide Step, Queue, Weight, TotalWeight, Shaped, Balanced, LocallyRight, Enabled;
  }

  lemma StepWeight(s: State, i: nat)
    requires Inv(s) && i < |s.threads| && Enabled(s, i)
    ensures var t, u, v := s.threads[i], NextThread(s, s.threads[i]), Step(s, i);
            && v.workers == s.workers
            && Weight(s.workers, u) + 6 * v.sems.data + Bonus(t) < Weight(s.workers, t) + 6 * s.sems.data
  {
    assert LocallyRight(s, s.threads[i]);
    TokensAreGood(s, i);
    hide Queue, Window, Balanced, PillsLast, ClientsDone, NextRing, NextLog, Full, Void;
  }

  /** The weight of the element a step adds to the ring, or takes from it. */
  function Bonus(t: Thread): int { if t.pc.PushAdvance? then 3 else if t.pc.PopAdvance? then -3 else 0 }

  // ---------- every interleaving ----------

  lemma {:induction false} ExecutionKeeps(s: State, trace: seq<nat>, t: State)
    requires Inv(s) && Execution(s, trace, t)
    ensures Inv(t) && |trace| + WorkLeft(t) <= WorkLeft(s)
    ensures forall e :: Occurrences(t, e) == Occurrences(s, e)
    decreases |trace|
  {
    hide Inv, Step, Enabled, Occurrences, WorkLeft;
    if trace != [] {
      var i := trace[0];
      var u := Step(s, i);
      StepInv(s, i);
      StepCosts(s, i);
      forall e ensures Occurrences(u, e) == Occurrences(s, e) { StepKeepsElements(s, i, e); }
      ExecutionKeeps(u, trace[1..], t);
    }
  }

  /** How often job `id` is handed over by the clients among `ts`. */
  function Given(ts: seq<Thread>, id: nat): nat
    decreases |ts|
  {
    if ts == [] then 0
    else (if ts[0].role.Client? then JobCount(ts[0].role.todo, Job(id)) else 0) + Given(ts[1..], id)
  }

  lemma {:induction false} GivenIsInHand(ts: seq<Thread>, id: nat)
    requires forall i :: 0 <= i < |ts| ==> !Carries(ts[i])
    ensures AllInHand(ts, Job(id)) == Given(ts, id)
    decreases |ts|
  {
    if ts != [] { GivenIsInHand(ts[1..], id); }
  }

  lemma {:induction false} JobsAreNoPills(todo: seq<nat>)
    ensures JobCount(todo, Pill) == 0
    decreases |todo|
  {
    if todo != [] { JobsAreNoPills(todo[1..]); }
  }

  lemma {:induction false} OnlyDestroyerHasPills(ts: seq<Thread>, d: nat)
    requires d < |ts|
    requires forall i :: 0 <= i < |ts| ==> !Carries(ts[i]) && (i != d ==> !ts[i].role.Destroyer?)
    ensures AllInHand(ts, Pill) == InHand(ts[d], Pill)
    decreases |ts|
  {
    if ts[0].role.Client? { JobsAreNoPills(ts[0].role.todo); }
    if d == 0 {
      forall i | 0 <= i < |ts[1..]| ensures InHand(ts[1..][i], Pill) == 0 {
        if ts[1..][i].role.Client? { JobsAreNoPills(ts[1..][i].role.todo); }
      }
      NoneInHand(ts[1..], Pill);
    } else {
      OnlyDestroyerHasPills(ts[1..], d - 1);
    }
  }

  lemma InitialOccurrences(s: State, capacity: nat)
    requires Initial(s, capacity)
    ensures Occurrences(s, Pill) == s.workers
    ensures forall id :: Occurrences(s, Job(id)) == Given(s.threads, id)
  {
    OnlyDestroyerHasPills(s.threads, s.workers);
    forall id ensures Occurrences(s, Job(id)) == Given(s.threads, id) { GivenIsInHand(s.threads, id); }
  }

  /** Any interleaving of the clients, the workers and the destroyer, as far as it has got: no
      `Enqueue` or `Dequeue` failed, the ring gave out elements in the order it took them, only
      finitely many steps were and will be possible, and either some thread can go on or the
      destroyer has returned. */
  lemma EveryInterleaving(s: State, capacity: nat, trace: seq<nat>, t: State)
    requires Initial(s, capacity) && Execution(s, trace, t)
    ensures Shaped(t) && !t.log.failed && t.log.pushed == t.log.popped + Queue(t)
    ensures |trace| <= WorkLeft(s)
    ensures Finished(t) || exists i: nat :: i < |t.threads| && Enabled(t, i)
  {
    InitialInv(s, capacity);
    InitialOccurrences(s, capacity);
    ExecutionKeeps(s, trace, t);
    WorkersNeverChange(s, trace, t);
    hide Balanced, LocallyRight, Enabled, Execution, Initial, Queue, WorkLeft, PillsLast, ClientsDone, Occurrences;
    if !Finished(t) { var i := NoDeadlock(t); }
  }

  lemma {:induction false} WorkersNeverChange(s: State, trace: seq<nat>, t: State)
    requires Execution(s, trace, t)
    ensures t.workers == s.workers && t.orderly == s.orderly
    decreases |trace|
  {
    if trace != [] { WorkersNeverChange(Step(s, trace[0]), trace[1..], t); }
  }

  /** When the destroyer returns, every worker has exited with exactly one kill pill, and a job has
      run exactly as often as it was given unless it is stuck in the ring or with a client. */
  lemma ShutdownAccountsForJobs(s: State, capacity: nat, trace: seq<nat>, t: State)
    requires Initial(s, capacity) && Execution(s, trace, t) && Shaped(t) && Finished(t)
    ensures forall w :: 0 <= w < s.workers && w < |t.threads| ==> t.threads[w].pc == Exited && InHand(t.threads[w], Pill) == 1
    ensures forall id :: t.log.ran[Job(id)] == Given(s.threads, id)
                         <==> AllInHand(t.threads, Job(id)) == 0 && Job(id) !in Queue(t)
  {
    InitialInv(s, capacity);
    InitialOccurrences(s, capacity);
    ExecutionKeeps(s, trace, t);
    WorkersNeverChange(s, trace, t);
    hide Inv, Initial, Execution, Queue, Finished, InHand, Given;
    FinishedWorkers(t);
    forall id
      ensures t.log.ran[Job(id)] == Given(s.threads, id) <==> AllInHand(t.threads, Job(id)) == 0 && Job(id) !in Queue(t)
    {
      assert Occurrences(t, Job(id)) == Given(s.threads, id);
      assert Job(id) in Queue(t) <==> multiset(Queue(t))[Job(id)] > 0;
    }
  }

  /** Orderly shutdown: if every client returned before the destroyer was called, then when the
      destroyer returns the ring is empty and every job has run exactly as often as it was given. */
  lemma OrderlyShutdownRunsEveryJob(s: State, capacity: nat, trace: seq<nat>, t: State)
    requires Initial(s, capacity) && Execution(s, trace, t) && Shaped(t) && Finished(t) && s.orderly
    ensures Queue(t) == []
    ensures forall id :: t.log.ran[Job(id)] == Given(s.threads, id)
  {
    InitialInv(s, capacity);
    InitialOccurrences(s, capacity);
    ExecutionKeeps(s, trace, t);
    WorkersNeverChange(s, trace, t);
    hide Inv, Initial, Execution, Queue, Occurrences, Finished, InHand, Given;
    FinishedMeansDone(t);
  }
}
