// SyncSender of src/channel_sync_sender.rs: one linear sender token shared by many threads through a mutex.
module SyncSenders {
  import opened Common

  type ThreadId = nat

  // Where a thread stands in its current call of send.
  datatype Pc =
    | Idle          // between calls
    | Locked        // holds the guard, has not taken the sender yet
    | Holding       // has taken the sender out of the slot
    | Delivered     // the channel has accepted the item and given the sender back
    | Returned      // the sender is back in the slot, the guard is about to drop
    | Crashed(reason: PanicReason)

  // A thread, and how many of its calls have returned.
  datatype Thread = Thread(pc: Pc, calls: nat)

  // The call by which a thread sends its index-th item.
  datatype Call = Call(thread: ThreadId, index: nat)

  datatype State<T> = State(
    threads: map<ThreadId, Thread>,
    lock: Option<ThreadId>,
    poisoned: bool,
    slot: bool,             // whether the slot holds the sender
    alive: bool,            // whether the receiver still exists
    queue: seq<T>,          // accepted and not yet received
    received: seq<T>,
    locks: seq<Call>,       // calls in the order they took the lock
    accepted: seq<Call>)    // calls whose item the channel accepted, in that order

  // What each thread sends, and how many items the channel stores before it makes a sender wait.
  datatype Setup<T> = Setup(programs: map<ThreadId, seq<T>>, capacity: nat) {
    predicate Valid() {
      capacity > 0
    }

    function Init(): State<T> {
      State(map t | t in programs :: Thread(Idle, 0), None, false, true, true, [], [], [], [])
    }

    predicate Knows(c: Call) {
      c.thread in programs && c.index < |programs[c.thread]|
    }

    function Items(calls: seq<Call>): seq<T>
      requires forall c <- calls :: Knows(c)
    {
      seq(|calls|, i requires 0 <= i < |calls| => assert Knows(calls[i]); programs[calls[i].thread][calls[i].index])
    }
  }

  datatype Step =
    | Lock(thread: ThreadId)
    | Take(thread: ThreadId)
    | Deliver(thread: ThreadId)
    | PutBack(thread: ThreadId)
    | Unlock(thread: ThreadId)
    | Receive
    | DropReceiver

  // The thread panics; a panic while the guard is held poisons the mutex and releases it.
  function Crash<T>(s: State<T>, t: ThreadId, reason: PanicReason): State<T>
    requires t in s.threads
  {
    var dead := s.(threads := s.threads[t := s.threads[t].(pc := Crashed(reason))]);
    if s.lock == Some(t) then dead.(lock := None, poisoned := true) else dead
  }

  function MoveTo<T>(s: State<T>, t: ThreadId, pc: Pc): State<T>
    requires t in s.threads
  {
    s.(threads := s.threads[t := s.threads[t].(pc := pc)])
  }

  function Pending<T>(setup: Setup<T>, s: State<T>, t: ThreadId): bool {
    t in s.threads && t in setup.programs && s.threads[t].calls < |setup.programs[t]|
  }

  // One atomic step, or None when it cannot be taken now.
  function Next<T>(setup: Setup<T>, s: State<T>, step: Step): Option<State<T>> {
    match step
    case Lock(t) =>
      if !Pending(setup, s, t) || !s.threads[t].pc.Idle? then None
      else if s.lock.Some? then None
      else if s.poisoned then Some(Crash(s, t, Poisoned))
      else Some(MoveTo(s, t, Locked).(lock := Some(t), locks := s.locks + [Call(t, s.threads[t].calls)]))
    case Take(t) =>
      if !Pending(setup, s, t) || !s.threads[t].pc.Locked? then None
      else if !s.slot then Some(Crash(s, t, UnwrapFailed))
      else Some(MoveTo(s, t, Holding).(slot := false))
    case Deliver(t) =>
      if !Pending(setup, s, t) || !s.threads[t].pc.Holding? then None
      else if !s.alive then Some(Crash(s, t, SendFailed))
      else if |s.queue| >= setup.capacity then None
      else
        var call := Call(t, s.threads[t].calls);
        var item := setup.programs[t][call.index];
        Some(MoveTo(s, t, Delivered).(queue := s.queue + [item], accepted := s.accepted + [call]))
    case PutBack(t) =>
      if !Pending(setup, s, t) || !s.threads[t].pc.Delivered? then None
      else Some(MoveTo(s, t, Returned).(slot := true))
    case Unlock(t) =>
      if !Pending(setup, s, t) || !s.threads[t].pc.Returned? then None
      else Some(s.(threads := s.threads[t := Thread(Idle, s.threads[t].calls + 1)], lock := None))
    case Receive =>
      if !s.alive || s.queue == [] then None
      else Some(s.(queue := s.queue[1..], received := s.received + [s.queue[0]]))
    case DropReceiver =>
      if !s.alive then None else Some(s.(alive := false))
  }

  // The state an interleaving leads to, or None when some step of it was not possible.
  function Execute<T>(setup: Setup<T>, s: State<T>, steps: seq<Step>): Option<State<T>>
    decreases |steps|
  {
    if steps == [] then Some(s)
    else
      match Next(setup, s, steps[0])
      case None => None
      case Some(next) => Execute(setup, next, steps[1..])
  }

  // ----- The invariant ----------------------------------------------------------------------

  predicate Inside(pc: Pc) {
    pc.Locked? || pc.Holding? || pc.Delivered? || pc.Returned?
  }

  // The guard is held by exactly the thread that is inside a call.
  ghost predicate MutualExclusion<T>(setup: Setup<T>, s: State<T>) {
    && s.threads.Keys == setup.programs.Keys
    && (s.lock.Some? ==> s.lock.value in s.threads)
    && (forall t <- s.threads :: Inside(s.threads[t].pc) <==> s.lock == Some(t))
    && (forall t <- s.threads :: Inside(s.threads[t].pc) ==> Pending(setup, s, t))
    && (forall t <- s.threads :: s.threads[t].calls <= |setup.programs[t]|)
  }

  // The sender is in the slot, or in the hands of the lock holder, or gone for good with the mutex poisoned.
  ghost predicate TokenConserved<T>(s: State<T>) {
    && (!s.slot <==> s.poisoned || MidSend(s))
    && (s.poisoned ==> s.lock.None? && !s.alive)
    && (forall t <- s.threads :: s.threads[t].pc.Crashed? ==>
          s.poisoned && (s.threads[t].pc.reason == SendFailed || s.threads[t].pc.reason == Poisoned))
  }

  // The lock holder has the sender in its hands.
  predicate MidSend<T>(s: State<T>) {
    && s.lock.Some? && s.lock.value in s.threads
    && (s.threads[s.lock.value].pc.Holding? || s.threads[s.lock.value].pc.Delivered?)
  }

  // The mutex is poisoned only by a thread whose send failed.
  ghost predicate PoisonHasCause<T>(s: State<T>) {
    s.poisoned ==> exists t <- s.threads :: s.threads[t].pc == Crashed(SendFailed)
  }

  // How many of a thread's items the channel has accepted.
  function AcceptedBy(th: Thread): nat {
    if th.pc.Delivered? || th.pc.Returned? then th.calls + 1 else th.calls
  }

  ghost predicate NoneLost<T>(setup: Setup<T>, s: State<T>) {
    && (forall c <- s.accepted :: setup.Knows(c))
    && s.received + s.queue == setup.Items(s.accepted)
    && |s.queue| <= setup.capacity
  }

  // The indices of one thread's accepted calls, in the order accepted.
  function IndicesOf(calls: seq<Call>, t: ThreadId): seq<nat> {
    if calls == [] then []
    else
      var n := |calls| - 1;
      IndicesOf(calls[..n], t) + if calls[n].thread == t then [calls[n].index] else []
  }

  function UpTo(n: nat): seq<nat> {
    seq(n, i => i)
  }

  ghost predicate ProgramOrder<T>(s: State<T>) {
    forall t <- s.threads :: IndicesOf(s.accepted, t) == UpTo(AcceptedBy(s.threads[t]))
  }

  // Calls are accepted in the order they took the lock; only the last one to take it may still be missing.
  ghost predicate LockOrder<T>(s: State<T>) {
    match s.lock
    case Some(t) =>
      t in s.threads &&
      (var call := Call(t, s.threads[t].calls);
       if s.threads[t].pc.Delivered? || s.threads[t].pc.Returned? then
         s.locks == s.accepted && s.accepted != [] && s.accepted[|s.accepted| - 1] == call
       else
         s.locks == s.accepted + [call])
    case None =>
      if s.poisoned then exists call :: s.locks == s.accepted + [call] else s.locks == s.accepted
  }

  ghost predicate Invariant<T>(setup: Setup<T>, s: State<T>) {
    && MutualExclusion(setup, s)
    && TokenConserved(s)
    && PoisonHasCause(s)
    && NoneLost(setup, s)
    && ProgramOrder(s)
    && LockOrder(s)
  }

  lemma StepKeepsExclusion<T>(setup: Setup<T>, s: State<T>, step: Step)
    requires MutualExclusion(setup, s) && Next(setup, s, step).Some?
    ensures MutualExclusion(setup, Next(setup, s, step).value)
  {
    var s' := Next(setup, s, step).value;
    if !step.Receive? && !step.DropReceiver? {
      var t := step.thread;
      OnlyOneMoves(setup, s, step);
      assert Inside(s'.threads[t].pc) <==> s'.lock == Some(t);
      assert forall u <- s.threads :: u != t ==> (Inside(s'.threads[u].pc) <==> s'.lock == Some(u));
    }
  }

  lemma OnlyOneMoves<T>(setup: Setup<T>, s: State<T>, step: Step)
    requires !step.Receive? && !step.DropReceiver? && Next(setup, s, step).Some?
    ensures step.thread in s.threads
    ensures var s' := Next(setup, s, step).value;
      s'.threads.Keys == s.threads.Keys && forall u <- s.threads :: u != step.thread ==> s'.threads[u] == s.threads[u]
  {
  }

  lemma StepKeepsToken<T>(setup: Setup<T>, s: State<T>, step: Step)
    requires MutualExclusion(setup, s) && TokenConserved(s) && Next(setup, s, step).Some?
    ensures TokenConserved(Next(setup, s, step).value)
  {
    var s' := Next(setup, s, step).value;
    if !step.Receive? && !step.DropReceiver? {
      var t := step.thread;
      OnlyOneMoves(setup, s, step);
      assert forall u <- s.threads :: u != t ==> !Inside(s.threads[u].pc) || s.lock == Some(u);
    } else {
      assert s'.threads == s.threads;
    }
  }

  lemma StepKeepsCause<T>(setup: Setup<T>, s: State<T>, step: Step)
    requires MutualExclusion(setup, s) && TokenConserved(s) && PoisonHasCause(s) && Next(setup, s, step).Some?
    ensures PoisonHasCause(Next(setup, s, step).value)
  {
    var s' := Next(setup, s, step).value;
    if s.poisoned {
      var t :| t in s.threads && s.threads[t].pc == Crashed(SendFailed);
      assert s'.threads[t] == s.threads[t];
    } else if s'.poisoned {
      assert s'.threads[step.thread].pc == Crashed(SendFailed);
    }
  }

  lemma StepKeepsItems<T>(setup: Setup<T>, s: State<T>, step: Step)
    requires NoneLost(setup, s) && Next(setup, s, step).Some?
    ensures NoneLost(setup, Next(setup, s, step).value)
  {
    var s' := Next(setup, s, step).value;
    if step.Deliver? && s.alive {
      var call := Call(step.thread, s.threads[step.thread].calls);
      assert setup.Items(s.accepted + [call]) == setup.Items(s.accepted) + [setup.programs[call.thread][call.index]];
      Assoc(s.received, s.queue, [setup.programs[call.thread][call.index]]);
    } else if step.Receive? {
      Assoc(s.received, [s.queue[0]], s.queue[1..]);
      assert [s.queue[0]] + s.queue[1..] == s.queue;
    }
  }

  // The one step that gets an item accepted, and what it counts as.
  predicate Delivers<T>(s: State<T>, step: Step) {
    step.Deliver? && s.alive
  }

  lemma AcceptedByStep<T>(setup: Setup<T>, s: State<T>, step: Step, t: ThreadId)
    requires t in s.threads && Next(setup, s, step).Some?
    ensures var s' := Next(setup, s, step).value;
      && t in s'.threads
      && AcceptedBy(s'.threads[t]) ==
           AcceptedBy(s.threads[t]) + (if Delivers(s, step) && step.thread == t then 1 else 0)
      && (Delivers(s, step) ==> step.thread in s.threads)
      && s'.accepted ==
           s.accepted + (if Delivers(s, step) then [Call(step.thread, AcceptedBy(s.threads[step.thread]))] else [])
  {
  }

  lemma StepKeepsOrder<T>(setup: Setup<T>, s: State<T>, step: Step)
    requires MutualExclusion(setup, s) && ProgramOrder(s) && Next(setup, s, step).Some?
    ensures ProgramOrder(Next(setup, s, step).value)
  {
    StepKeepsExclusion(setup, s, step);
    hide Next, AcceptedBy, IndicesOf, UpTo;
    var s' := Next(setup, s, step).value;
    forall t <- s'.threads ensures IndicesOf(s'.accepted, t) == UpTo(AcceptedBy(s'.threads[t])) {
      AcceptedByStep(setup, s, step, t);
      if Delivers(s, step) {
        OneMoreIndex(s.accepted, Call(step.thread, AcceptedBy(s.threads[step.thread])), t);
      }
    }
  }

  lemma OneMoreIndex(calls: seq<Call>, call: Call, t: ThreadId)
    ensures IndicesOf(calls + [call], t) == IndicesOf(calls, t) + if call.thread == t then [call.index] else []
    ensures UpTo(call.index + 1) == UpTo(call.index) + [call.index]
  {
    assert (calls + [call])[..|calls|] == calls;
  }

  lemma StepKeepsLockOrder<T>(setup: Setup<T>, s: State<T>, step: Step)
    requires MutualExclusion(setup, s) && TokenConserved(s) && LockOrder(s) && Next(setup, s, step).Some?
    ensures LockOrder(Next(setup, s, step).value)
  {
    if !step.Receive? && !step.DropReceiver? {
      assert step.thread in s.threads;
      if s.lock.Some? && s.lock != Some(step.thread) {
        assert false;
      }
    }
  }

  lemma StepKeepsInvariant<T>(setup: Setup<T>, s: State<T>, step: Step)
    requires Invariant(setup, s) && Next(setup, s, step).Some?
    ensures Invariant(setup, Next(setup, s, step).value)
  {
    StepKeepsExclusion(setup, s, step);
    StepKeepsToken(setup, s, step);
    StepKeepsCause(setup, s, step);
    StepKeepsItems(setup, s, step);
    StepKeepsOrder(setup, s, step);
    StepKeepsLockOrder(setup, s, step);
  }

  lemma InitInvariant<T>(setup: Setup<T>)
    ensures Invariant(setup, setup.Init())
  {
    assert setup.Items([]) == [];
    assert forall t: nat :: IndicesOf([], t) == UpTo(0);
  }

  // The invariant holds in every state that any interleaving of any number of threads can reach.
  lemma {:induction false} EveryInterleaving<T>(setup: Setup<T>, s: State<T>, steps: seq<Step>)
    requires Invariant(setup, s) && Execute(setup, s, steps).Some?
    ensures Invariant(setup, Execute(setup, s, steps).value)
    decreases |steps|
  {
    if steps != [] {
      StepKeepsInvariant(setup, s, steps[0]);
      EveryInterleaving(setup, Next(setup, s, steps[0]).value, steps[1..]);
    }
  }

  ghost predicate Reachable<T(!new)>(setup: Setup<T>, s: State<T>) {
    exists steps: seq<Step> :: Execute(setup, setup.Init(), steps) == Some(s)
  }

  lemma ReachableInvariant<T(!new)>(setup: Setup<T>, s: State<T>)
    requires Reachable(setup, s)
    ensures Invariant(setup, s)
  {
    var steps: seq<Step> :| Execute(setup, setup.Init(), steps) == Some(s);
    InitInvariant(setup);
    EveryInterleaving(setup, setup.Init(), steps);
  }

  // ----- What the invariant means -----------------------------------------------------------

  // take().unwrap() never fails, and no two threads ever have the sender out.
  lemma TokenNeverMissing<T(!new)>(setup: Setup<T>, s: State<T>, t: ThreadId)
    requires Reachable(setup, s) && t in s.threads
    ensures s.threads[t].pc != Crashed(UnwrapFailed)
    ensures s.threads[t].pc.Locked? ==> s.slot && Next(setup, s, Take(t)) == Some(MoveTo(s, t, Holding).(slot := false))
    ensures s.threads[t].pc.Holding? || s.threads[t].pc.Delivered? ==>
      !s.slot && forall u <- s.threads :: u != t ==> !Inside(s.threads[u].pc)
  {
    ReachableInvariant(setup, s);
  }

  // The items of one thread among the accepted calls.
  function ItemsOf<T>(setup: Setup<T>, calls: seq<Call>, t: ThreadId): seq<T>
    requires forall c <- calls :: setup.Knows(c)
  {
    if calls == [] then []
    else
      var n := |calls| - 1;
      assert setup.Knows(calls[n]);
      ItemsOf(setup, calls[..n], t) + if calls[n].thread == t then [setup.programs[t][calls[n].index]] else []
  }

  lemma {:induction false} ItemsByIndex<T>(setup: Setup<T>, calls: seq<Call>, t: ThreadId)
    requires t in setup.programs && forall c <- calls :: setup.Knows(c)
    ensures |ItemsOf(setup, calls, t)| == |IndicesOf(calls, t)|
    ensures forall i | 0 <= i < |IndicesOf(calls, t)| ::
              && IndicesOf(calls, t)[i] < |setup.programs[t]|
              && ItemsOf(setup, calls, t)[i] == setup.programs[t][IndicesOf(calls, t)[i]]
  {
    if calls != [] {
      assert setup.Knows(calls[|calls| - 1]);
      ItemsByIndex(setup, calls[..|calls| - 1], t);
    }
  }

  // Linearizability: what the receiver has and will get is what was accepted; each thread's share of it is an initial
  // piece of that thread's program, covering every call that returned; and acceptance follows the lock order.
  lemma Linearizable<T(!new)>(setup: Setup<T>, s: State<T>, t: ThreadId)
    requires Reachable(setup, s) && t in s.threads
    ensures t in setup.programs && forall c <- s.accepted :: setup.Knows(c)
    ensures s.received + s.queue == setup.Items(s.accepted)
    ensures var n := AcceptedBy(s.threads[t]);
      && s.threads[t].calls <= n <= s.threads[t].calls + 1
      && n <= |setup.programs[t]|
      && ItemsOf(setup, s.accepted, t) == setup.programs[t][..n]
    ensures s.accepted <= s.locks && |s.locks| <= |s.accepted| + 1
    ensures s.lock.None? && !s.poisoned ==> s.accepted == s.locks
  {
    ReachableInvariant(setup, s);
    ItemsByIndex(setup, s.accepted, t);
    assert t in setup.programs.Keys;
    var n := AcceptedBy(s.threads[t]);
    assert IndicesOf(s.accepted, t) == UpTo(n);
    assert ItemsOf(setup, s.accepted, t) == setup.programs[t][..n];
  }

  lemma PoisonStays<T>(setup: Setup<T>, s: State<T>, step: Step)
    requires MutualExclusion(setup, s) && TokenConserved(s) && s.poisoned && Next(setup, s, step).Some?
    ensures var end := Next(setup, s, step).value;
      && end.poisoned && end.accepted == s.accepted && end.locks == s.locks
      && (forall t <- s.threads :: t in end.threads && end.threads[t].calls == s.threads[t].calls)
  {
  }

  lemma LockPanicsWhenPoisoned<T>(setup: Setup<T>, s: State<T>, t: ThreadId)
    requires s.poisoned && s.lock.None? && Pending(setup, s, t) && s.threads[t].pc.Idle?
    ensures Next(setup, s, Lock(t)) == Some(Crash(s, t, Poisoned))
  {
  }

  // Once a send has failed the mutex stays poisoned: nothing more is accepted and every later call panics at the lock.
  lemma {:induction false} PoisonIsForever<T(!new)>(setup: Setup<T>, s: State<T>, steps: seq<Step>)
    requires Invariant(setup, s) && s.poisoned && Execute(setup, s, steps).Some?
    ensures var end := Execute(setup, s, steps).value;
      && end.poisoned && !end.slot && end.lock.None?
      && end.accepted == s.accepted && end.locks == s.locks
      && (forall t <- s.threads :: t in end.threads && end.threads[t].calls == s.threads[t].calls)
      && (forall t <- end.threads :: end.threads[t].pc.Idle? && Pending(setup, end, t) ==>
            Next(setup, end, Lock(t)) == Some(Crash(end, t, Poisoned)))
    decreases |steps|
  {
    hide NoneLost, ProgramOrder, LockOrder, PoisonHasCause, Next;
    if steps != [] {
      StepKeepsInvariant(setup, s, steps[0]);
      PoisonStays(setup, s, steps[0]);
      PoisonIsForever(setup, Next(setup, s, steps[0]).value, steps[1..]);
    } else {
      forall t <- s.threads | s.threads[t].pc.Idle? && Pending(setup, s, t)
        ensures Next(setup, s, Lock(t)) == Some(Crash(s, t, Poisoned))
      {
        LockPanicsWhenPoisoned(setup, s, t);
      }
    }
  }

  // No deadlock: while some call is still to be made, a thread or the receiver can move.
  lemma SomeStepIsPossible<T(!new)>(setup: Setup<T>, s: State<T>, t: ThreadId)
    requires setup.Valid() && Reachable(setup, s)
    requires Pending(setup, s, t) && !s.threads[t].pc.Crashed?
    ensures exists step: Step :: !step.DropReceiver? && Next(setup, s, step).Some?
  {
    ReachableInvariant(setup, s);
    var u := if s.lock.Some? then s.lock.value else t;
    var step := match s.threads[u].pc
      case Idle => Lock(u)
      case Locked => Take(u)
      case Holding => if s.alive && |s.queue| >= setup.capacity then Receive else Deliver(u)
      case Delivered => PutBack(u)
      case Returned => Unlock(u)
      case Crashed(_) => Receive;
    assert Next(setup, s, step).Some?;
  }

  // ----- Every interleaving comes to an end ---------------------------------------------------

  // How far into its current call a thread is. Delivering counts twice: the item still has to be received.
  function Progress(pc: Pc): (n: nat)
    ensures n < 6
  {
    match pc
    case Idle => 0
    case Locked => 1
    case Holding => 2
    case Delivered => 4
    case Returned => 5
    case Crashed(_) => 0
  }

  // How many steps a thread with a program of the given length can still take or cause.
  function StepsLeft(th: Thread, length: nat): nat {
    if th.pc.Crashed? || th.calls >= length then 0 else 6 * (length - th.calls) - Progress(th.pc)
  }

  ghost function Pick(ids: set<ThreadId>): (t: ThreadId)
    requires ids != {}
    ensures t in ids
  {
    var t :| t in ids;
    t
  }

  ghost function Sum(weights: map<ThreadId, nat>, ids: set<ThreadId>): nat
    requires ids <= weights.Keys
  {
    if ids == {} then 0 else weights[Pick(ids)] + Sum(weights, ids - {Pick(ids)})
  }

  lemma {:induction false} SumReplaced(weights: map<ThreadId, nat>, ids: set<ThreadId>, t: ThreadId, w: nat)
    requires ids <= weights.Keys && t in weights
    ensures Sum(weights[t := w], ids) == Sum(weights, ids) + if t in ids then w - weights[t] else 0
    decreases |ids|
  {
    if ids != {} {
      SumReplaced(weights, ids - {Pick(ids)}, t, w);
    }
  }

  lemma {:induction false} SumOfSixfold(weights: map<ThreadId, nat>, scaled: map<ThreadId, nat>, ids: set<ThreadId>)
    requires ids <= weights.Keys && ids <= scaled.Keys && forall t <- ids :: scaled[t] == 6 * weights[t]
    ensures Sum(scaled, ids) == 6 * Sum(weights, ids)
    decreases |ids|
  {
    if ids != {} {
      SumOfSixfold(weights, scaled, ids - {Pick(ids)});
    }
  }

  function Weights<T>(setup: Setup<T>, s: State<T>): map<ThreadId, nat>
    requires s.threads.Keys == setup.programs.Keys
  {
    map t | t in s.threads :: StepsLeft(s.threads[t], |setup.programs[t]|)
  }

  // How many calls the programs make in all.
  ghost function CallsInAll<T>(setup: Setup<T>): nat {
    Sum(map t | t in setup.programs :: |setup.programs[t]|, setup.programs.Keys)
  }

  // A bound on the steps that can follow: those of the threads, one per waiting item, and the receiver's end.
  ghost function Potential<T>(setup: Setup<T>, s: State<T>): nat
    requires s.threads.Keys == setup.programs.Keys
  {
    Sum(Weights(setup, s), setup.programs.Keys) + |s.queue| + if s.alive then 1 else 0
  }

  // A step of a thread leaves it with less to do, its item in the queue included.
  lemma StepUsesThread<T>(setup: Setup<T>, s: State<T>, step: Step)
    requires !step.Receive? && !step.DropReceiver? && Next(setup, s, step).Some?
    ensures step.thread in s.threads && step.thread in setup.programs
    ensures var s' := Next(setup, s, step).value;
      var length := |setup.programs[step.thread]|;
      && step.thread in s'.threads
      && s'.alive == s.alive
      && StepsLeft(s'.threads[step.thread], length) + |s'.queue| < StepsLeft(s.threads[step.thread], length) + |s.queue|
  {
  }

  lemma ReceiverMovesAlone<T>(setup: Setup<T>, s: State<T>, step: Step)
    requires (step.Receive? || step.DropReceiver?) && Next(setup, s, step).Some?
    ensures var s' := Next(setup, s, step).value;
      && s'.threads == s.threads
      && |s'.queue| + (if s'.alive then 1 else 0) < |s.queue| + if s.alive then 1 else 0
  {
  }

  lemma StepUsesPotential<T>(setup: Setup<T>, s: State<T>, step: Step)
    requires s.threads.Keys == setup.programs.Keys && Next(setup, s, step).Some?
    ensures var s' := Next(setup, s, step).value;
      s'.threads.Keys == setup.programs.Keys && Potential(setup, s') < Potential(setup, s)
  {
    hide Next, StepsLeft, Sum;
    var s' := Next(setup, s, step).value;
    if step.Receive? || step.DropReceiver? {
      ReceiverMovesAlone(setup, s, step);
      assert Weights(setup, s') == Weights(setup, s);
    } else {
      var t := step.thread;
      OnlyOneMoves(setup, s, step);
      StepUsesThread(setup, s, step);
      var w := StepsLeft(s'.threads[t], |setup.programs[t]|);
      assert Weights(setup, s') == Weights(setup, s)[t := w];
      SumReplaced(Weights(setup, s), setup.programs.Keys, t, w);
    }
  }

  lemma {:induction false} StepsUsePotential<T>(setup: Setup<T>, s: State<T>, steps: seq<Step>)
    requires s.threads.Keys == setup.programs.Keys && Execute(setup, s, steps).Some?
    ensures var end := Execute(setup, s, steps).value;
      end.threads.Keys == setup.programs.Keys && |steps| + Potential(setup, end) <= Potential(setup, s)
    decreases |steps|
  {
    if steps != [] {
      StepUsesPotential(setup, s, steps[0]);
      StepsUsePotential(setup, Next(setup, s, steps[0]).value, steps[1..]);
    }
  }

  // No interleaving goes on for ever: with n calls in all it has at most 6n + 1 steps, five of the thread and one of
  // the receiver for each call, and the receiver's end.
  lemma InterleavingsAreBounded<T>(setup: Setup<T>, steps: seq<Step>)
    requires Execute(setup, setup.Init(), steps).Some?
    ensures |steps| <= 6 * CallsInAll(setup) + 1
  {
    StepsUsePotential(setup, setup.Init(), steps);
    SumOfSixfold(map t | t in setup.programs :: |setup.programs[t]|, Weights(setup, setup.Init()), setup.programs.Keys);
  }

  // Nothing can happen any more, unless the receiver goes away.
  ghost predicate AtRest<T>(setup: Setup<T>, s: State<T>) {
    forall step: Step :: !step.DropReceiver? ==> Next(setup, s, step).None?
  }

  // An interleaving comes to rest exactly when every thread has made all its calls or panicked and the receiver has
  // taken every item or gone away. If it is still there, it has received the whole program of every thread.
  lemma RestIffDone<T(!new)>(setup: Setup<T>, s: State<T>)
    requires setup.Valid() && Reachable(setup, s)
    ensures AtRest(setup, s) <==>
      && (forall t <- s.threads ::
            s.threads[t].pc.Crashed? || (t in setup.programs && s.threads[t].calls == |setup.programs[t]|))
      && (s.alive ==> s.queue == [])
    ensures AtRest(setup, s) && s.alive ==>
      && (forall c <- s.accepted :: setup.Knows(c))
      && s.received == setup.Items(s.accepted)
      && forall t <- s.threads :: t in setup.programs && ItemsOf(setup, s.accepted, t) == setup.programs[t]
  {
    ReachableInvariant(setup, s);
    if AtRest(setup, s) {
      assert Next(setup, s, Receive).None?;
      forall t <- s.threads
        ensures s.threads[t].pc.Crashed? || (t in setup.programs && s.threads[t].calls == |setup.programs[t]|)
      {
        if Pending(setup, s, t) && !s.threads[t].pc.Crashed? {
          SomeStepIsPossible(setup, s, t);
        }
      }
      if s.alive {
        assert s.received + [] == s.received;
        forall t <- s.threads ensures ItemsOf(setup, s.accepted, t) == setup.programs[t] {
          Linearizable(setup, s, t);
          assert setup.programs[t][..|setup.programs[t]|] == setup.programs[t];
        }
      }
    }
  }

  // ----- An uninterrupted call --------------------------------------------------------------

  // The steps of a call of send that no other thread interleaves with.
  function SoloSteps<T>(setup: Setup<T>, s: State<T>, t: ThreadId, goesAway: bool): seq<Step> {
    if s.poisoned then [Lock(t)]
    else if !s.alive then [Lock(t), Take(t), Deliver(t)]
    else if |s.queue| < setup.capacity then [Lock(t), Take(t), Deliver(t), PutBack(t), Unlock(t)]
    else if goesAway then [Lock(t), Take(t), DropReceiver, Deliver(t)]
    else [Lock(t), Take(t), Receive, Deliver(t), PutBack(t), Unlock(t)]
  }

  lemma {:induction false} ExecuteAppend<T>(setup: Setup<T>, s: State<T>, a: seq<Step>, b: seq<Step>)
    requires Execute(setup, s, a).Some?
    ensures Execute(setup, s, a + b) == Execute(setup, Execute(setup, s, a).value, b)
    decreases |a|
  {
    if a == [] {
      assert a + b == b;
    } else {
      ExecuteAppend(setup, Next(setup, s, a[0]).value, a[1..], b);
      assert (a + b)[1..] == a[1..] + b;
    }
  }

  lemma ExecuteOne<T>(setup: Setup<T>, s: State<T>, step: Step)
    ensures Execute(setup, s, [step]) == Next(setup, s, step)
  {
    assert [step][1..] == [];
  }

  lemma ExecuteTwo<T>(setup: Setup<T>, s: State<T>, first: Step, second: Step)
    requires Next(setup, s, first).Some?
    ensures Execute(setup, s, [first, second]) == Next(setup, Next(setup, s, first).value, second)
  {
    assert [first, second][1..] == [second];
    ExecuteOne(setup, Next(setup, s, first).value, second);
  }

  // Taking the lock and the sender.
  lemma SoloEntry<T>(setup: Setup<T>, s: State<T>, t: ThreadId)
    requires Pending(setup, s, t) && s.threads[t].pc.Idle? && s.lock.None? && !s.poisoned && s.slot
    ensures Execute(setup, s, [Lock(t), Take(t)]) == Some(s.(
      threads := s.threads[t := Thread(Holding, s.threads[t].calls)],
      lock := Some(t), slot := false,
      locks := s.locks + [Call(t, s.threads[t].calls)]))
  {
    var locked := Next(setup, s, Lock(t)).value;
    ExecuteTwo(setup, s, Lock(t), Take(t));
    var holding := Thread(Holding, s.threads[t].calls);
    assert locked.threads[t := holding] == s.threads[t := holding];
  }

  // Giving back the sender and the lock once the item is accepted.
  lemma SoloExit<T>(setup: Setup<T>, s: State<T>, t: ThreadId)
    requires Pending(setup, s, t) && s.threads[t].pc.Delivered?
    ensures Execute(setup, s, [PutBack(t), Unlock(t)]) ==
      Some(s.(threads := s.threads[t := Thread(Idle, s.threads[t].calls + 1)], lock := None, slot := true))
  {
    var returned := Next(setup, s, PutBack(t)).value;
    ExecuteTwo(setup, s, PutBack(t), Unlock(t));
    var idle := Thread(Idle, s.threads[t].calls + 1);
    assert returned.threads[t := idle] == s.threads[t := idle];
  }

  // What threads share: the mutex's poison flag and slot, and the channel.
  datatype Shared<T> = Shared(slot: bool, poisoned: bool, alive: bool, queue: seq<T>, received: seq<T>)

  function SharedOf<T>(s: State<T>): Shared<T> {
    Shared(s.slot, s.poisoned, s.alive, s.queue, s.received)
  }

  // The outcome of an uninterrupted call: it returns exactly when the channel accepts the item. When the channel is
  // full the receiver either takes an item or goes away.
  function SendShared<T>(v: Shared<T>, capacity: nat, item: T, goesAway: bool): (Shared<T>, Outcome<()>) {
    var full := |v.queue| >= capacity > 0;
    if v.poisoned then (v, Panic(Poisoned))
    else if !v.alive || (full && goesAway) then (v.(slot := false, poisoned := true, alive := false), Panic(SendFailed))
    else if full then (v.(received := v.received + [v.queue[0]], queue := v.queue[1..] + [item]), Done(()))
    else (v.(queue := v.queue + [item]), Done(()))
  }

  // What an uninterrupted call of thread t leaves behind.
  function SoloEnd<T>(setup: Setup<T>, s: State<T>, t: ThreadId, goesAway: bool): State<T>
    requires Pending(setup, s, t)
  {
    var call := Call(t, s.threads[t].calls);
    var (v, outcome) := SendShared(SharedOf(s), setup.capacity, setup.programs[t][call.index], goesAway);
    s.(threads := s.threads[t :=
         if outcome.Done? then Thread(Idle, call.index + 1) else Thread(Crashed(outcome.reason), call.index)],
       slot := v.slot, poisoned := v.poisoned, alive := v.alive, queue := v.queue, received := v.received,
       locks := if s.poisoned then s.locks else s.locks + [call],
       accepted := if outcome.Done? then s.accepted + [call] else s.accepted)
  }

  lemma SoloFails<T>(setup: Setup<T>, s: State<T>, t: ThreadId, goesAway: bool)
    requires setup.Valid() && Pending(setup, s, t) && s.threads[t].pc.Idle? && s.lock.None? && s.slot && !s.poisoned
    requires !s.alive || (|s.queue| == setup.capacity && goesAway)
    ensures Execute(setup, s, SoloSteps(setup, s, t, goesAway)) == Some(SoloEnd(setup, s, t, goesAway))
  {
    SoloEntry(setup, s, t);
    var mid := Execute(setup, s, [Lock(t), Take(t)]).value;
    var n := s.threads[t].calls;
    assert mid.threads[t := Thread(Crashed(SendFailed), n)] == s.threads[t := Thread(Crashed(SendFailed), n)];
    if s.alive {
      ExecuteAppend(setup, s, [Lock(t), Take(t)], [DropReceiver, Deliver(t)]);
      assert [Lock(t), Take(t)] + [DropReceiver, Deliver(t)] == SoloSteps(setup, s, t, goesAway);
      ExecuteTwo(setup, mid, DropReceiver, Deliver(t));
    } else {
      ExecuteAppend(setup, s, [Lock(t), Take(t)], [Deliver(t)]);
      assert [Lock(t), Take(t)] + [Deliver(t)] == SoloSteps(setup, s, t, goesAway);
      ExecuteOne(setup, mid, Deliver(t));
    }
  }

  // Handing the item to the channel, after the receiver has made room if need be.
  lemma SoloDelivery<T>(setup: Setup<T>, s: State<T>, t: ThreadId)
    requires setup.Valid() && Pending(setup, s, t) && s.threads[t].pc.Holding? && s.alive && |s.queue| <= setup.capacity
    ensures var n := s.threads[t].calls;
      var full := |s.queue| == setup.capacity;
      Execute(setup, s, if full then [Receive, Deliver(t)] else [Deliver(t)]) == Some(s.(
        threads := s.threads[t := Thread(Delivered, n)],
        received := if full then s.received + [s.queue[0]] else s.received,
        queue := (if full then s.queue[1..] else s.queue) + [setup.programs[t][n]],
        accepted := s.accepted + [Call(t, n)]))
  {
    if |s.queue| < setup.capacity {
      ExecuteOne(setup, s, Deliver(t));
    } else {
      ExecuteTwo(setup, s, Receive, Deliver(t));
    }
  }

  // The state in which thread t has delivered its item but has not given back the sender yet.
  function SoloMiddle<T>(setup: Setup<T>, s: State<T>, t: ThreadId): State<T>
    requires setup.Valid() && Pending(setup, s, t) && |s.queue| <= setup.capacity
  {
    var n := s.threads[t].calls;
    var full := |s.queue| == setup.capacity;
    State(s.threads[t := Thread(Delivered, n)], Some(t), s.poisoned, false, s.alive,
          (if full then s.queue[1..] else s.queue) + [setup.programs[t][n]],
          if full then s.received + [s.queue[0]] else s.received,
          s.locks + [Call(t, n)], s.accepted + [Call(t, n)])
  }

  function SoloDeliverySteps<T>(setup: Setup<T>, s: State<T>, t: ThreadId): seq<Step> {
    if |s.queue| == setup.capacity then [Receive, Deliver(t)] else [Deliver(t)]
  }

  lemma SoloReachesMiddle<T>(setup: Setup<T>, s: State<T>, t: ThreadId)
    requires setup.Valid() && Pending(setup, s, t) && s.threads[t].pc.Idle? && s.lock.None? && s.slot && !s.poisoned
    requires s.alive && |s.queue| <= setup.capacity
    ensures Execute(setup, s, [Lock(t), Take(t)] + SoloDeliverySteps(setup, s, t)) == Some(SoloMiddle(setup, s, t))
  {
    hide Next, Execute;
    SoloEntry(setup, s, t);
    var holding := Execute(setup, s, [Lock(t), Take(t)]).value;
    SoloDelivery(setup, holding, t);
    ExecuteAppend(setup, s, [Lock(t), Take(t)], SoloDeliverySteps(setup, s, t));
    var n := s.threads[t].calls;
    assert holding.threads[t := Thread(Delivered, n)] == s.threads[t := Thread(Delivered, n)];
  }

  lemma SoloSucceeds<T>(setup: Setup<T>, s: State<T>, t: ThreadId)
    requires setup.Valid() && Pending(setup, s, t) && s.threads[t].pc.Idle? && s.lock.None? && s.slot && !s.poisoned
    requires s.alive && |s.queue| <= setup.capacity
    ensures Execute(setup, s, SoloSteps(setup, s, t, false)) == Some(SoloEnd(setup, s, t, false))
  {
    hide Next, Execute;
    var n := s.threads[t].calls;
    var enter, leave := [Lock(t), Take(t)] + SoloDeliverySteps(setup, s, t), [PutBack(t), Unlock(t)];
    SoloReachesMiddle(setup, s, t);
    var middle := SoloMiddle(setup, s, t);
    SoloExit(setup, middle, t);
    ExecuteAppend(setup, s, enter, leave);
    assert enter + leave == SoloSteps(setup, s, t, false);
    assert middle.threads[t := Thread(Idle, n + 1)] == s.threads[t := Thread(Idle, n + 1)];
  }

  // An uninterrupted call is one of the machine's interleavings: Send, proved to leave SendShared behind, refines it.
  lemma SoloCall<T>(setup: Setup<T>, s: State<T>, t: ThreadId, goesAway: bool)
    requires setup.Valid() && Pending(setup, s, t) && s.threads[t].pc.Idle? && s.lock.None?
    requires (s.slot <==> !s.poisoned) && |s.queue| <= setup.capacity
    ensures Execute(setup, s, SoloSteps(setup, s, t, goesAway)) == Some(SoloEnd(setup, s, t, goesAway))
    ensures SharedOf(SoloEnd(setup, s, t, goesAway)) ==
      SendShared(SharedOf(s), setup.capacity, setup.programs[t][s.threads[t].calls], goesAway).0
  {
    if s.poisoned {
      ExecuteOne(setup, s, Lock(t));
    } else if !s.alive || (|s.queue| == setup.capacity && goesAway) {
      SoloFails(setup, s, t, goesAway);
    } else {
      SoloSucceeds(setup, s, t);
      assert SoloSteps(setup, s, t, goesAway) == SoloSteps(setup, s, t, false);
      assert SoloEnd(setup, s, t, goesAway) == SoloEnd(setup, s, t, false);
    }
  }

  // ----- The class --------------------------------------------------------------------------

  // The channel's two ends; the receiver is the environment.
  class Channel<T> {
    const capacity: nat
    var alive: bool
    var queue: seq<T>
    var received: seq<T>

    constructor (capacity: nat)
      ensures this.capacity == capacity && alive && queue == [] && received == []
    {
      this.capacity := capacity;
      alive, queue, received := true, [], [];
    }

    // The receiver takes the oldest item, if it is still there and an item waits.
    method Receive() returns (item: Option<T>)
      modifies `queue, `received
      ensures item == if alive && old(queue) != [] then Some(old(queue)[0]) else None
      ensures received == old(received) + if item.Some? then [item.value] else []
      ensures queue == if item.Some? then old(queue)[1..] else old(queue)
    {
      if !alive || queue == [] {
        return None;
      }
      item := Some(queue[0]);
      received, queue := received + [queue[0]], queue[1..];
    }

    // The receiver goes away.
    method Close()
      modifies `alive
      ensures !alive
    {
      alive := false;
    }

    // sender.send(item).wait(): blocks while the channel is full, until the receiver takes an item or goes away.
    method SendAndWait(item: T, goesAway: bool) returns (ok: bool)
      requires 0 < capacity && |queue| <= capacity
      modifies this
      ensures ok == (old(alive) && !(goesAway && |old(queue)| == capacity))
      ensures alive == ok && |queue| <= capacity
      ensures queue ==
        if !ok then old(queue) else (if |old(queue)| == capacity then old(queue)[1..] else old(queue)) + [item]
      ensures received == if ok && |old(queue)| == capacity then old(received) + [old(queue)[0]] else old(received)
    {
      if alive && |queue| == capacity {
        if goesAway {
          Close();
        } else {
          var _ := Receive();
        }
      }
      ok := alive;
      if ok {
        queue := queue + [item];
      }
    }
  }

  class SyncSender<T> {
    const channel: Channel<T>
    var slot: bool
    var poisoned: bool

    ghost function View(): Shared<T>
      reads this, channel
    {
      Shared(slot, poisoned, channel.alive, channel.queue, channel.received)
    }

    // Between calls: the sender is in the slot unless a failed send has poisoned the mutex.
    ghost predicate Valid()
      reads this, channel
    {
      && 0 < channel.capacity && |channel.queue| <= channel.capacity
      && (slot <==> !poisoned) && (poisoned ==> !channel.alive)
    }

    // channel_sync_sender.
    constructor (capacity: nat)
      requires 0 < capacity
      ensures Valid() && fresh(channel) && channel.capacity == capacity
      ensures View() == Shared(true, false, true, [], [])
    {
      channel := new Channel(capacity);
      slot, poisoned := true, false;
    }

    // Returns exactly when the channel accepts the item; otherwise panics, and the sender is lost for good.
    method Send(result: T, goesAway: bool) returns (outcome: Outcome<()>)
      requires Valid()
      modifies this, channel
      ensures Valid()
      ensures (View(), outcome) == SendShared(old(View()), channel.capacity, result, goesAway)
      ensures channel.received + channel.queue ==
        old(channel.received) + old(channel.queue) + if outcome.Done? then [result] else []
    {
      if poisoned {
        return Panic(Poisoned);
      }
      assert slot;  // take().unwrap() finds the sender
      slot := false;
      ghost var received, queue := channel.received, channel.queue;
      var ok := channel.SendAndWait(result, goesAway);
      if !ok {
        poisoned := true;
        return Panic(SendFailed);
      }
      slot := true;
      assert queue != [] ==> [queue[0]] + queue[1..] == queue;
      return Done(());
    }
  }
}
