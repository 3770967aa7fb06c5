/**
 The blocking queue of adaptThreadedSharedQ.cpp: a mutex, a condition variable and a list,
 as a machine of atomic steps. Any number of workers and producers interleave freely; a
 signal wakes at least one waiter, and a waiter may also wake for no reason.
 */
module Monitor {

  /** again: the worker has been woken from a wait and has not looked at the queue since. */
  datatype WorkerPc<M> =
    | AtLock(again: bool)
    | Checking(again: bool)
    | Waiting
    | Woken
    | Rewoken
    | Taken(msg: M)
    | Busy(msg: M)

  datatype ProducerPc<M> =
    | Outside
    | AtPutLock(msg: M)
    | Putting(msg: M)
    | Signalling
    | Leaving

  datatype Holder = Free | ByWorker(w: nat) | ByProducer(p: nat)

  datatype State<M> = State(
    queue: seq<M>,
    mutex: Holder,
    workers: seq<WorkerPc<M>>,
    producers: seq<ProducerPc<M>>)

  datatype Step<M> =
    | WLock(w: nat)            // pthread_mutex_lock at the top of the loop
    | WCheck(w: nat)           // empty: start waiting; else pop the front
    | WUnlock(w: nat)          // unlock with a message in hand, and return it
    | WReturn(w: nat)          // the caller is done with it and asks for another
    | WReacquire(w: nat)       // a woken worker gets the mutex back
    | WLoop(w: nat)            // and gives it up to start over
    | Spurious(w: nat)
    | PCall(p: nat, msg: M)
    | PLock(p: nat)
    | PPut(p: nat)
    | PSignal(p: nat, woken: set<nat>)
    | PUnlock(p: nat)

  function Init<M>(workers: nat, producers: nat): State<M> {
    State([], Free, seq(workers, _ => AtLock(false)), seq(producers, _ => Outside))
  }

  predicate WorkerStep<M>(step: Step<M>) {
    !(step.PCall? || step.PLock? || step.PPut? || step.PSignal? || step.PUnlock?)
  }

  ghost predicate Enabled<M>(s: State<M>, step: Step<M>) {
    if WorkerStep(step) then
      step.w < |s.workers| &&
      var pc := s.workers[step.w];
      match step
      case WLock(w) => pc.AtLock? && s.mutex == Free
      case WCheck(w) => pc.Checking?
      case WUnlock(w) => pc.Taken?
      case WReturn(w) => pc.Busy?
      case WReacquire(w) => pc.Woken? && s.mutex == Free
      case WLoop(w) => pc.Rewoken?
      case _ => pc.Waiting?
    else
      step.p < |s.producers| &&
      var pc := s.producers[step.p];
      match step
      case PCall(p, m) => pc.Outside?
      case PLock(p) => pc.AtPutLock? && s.mutex == Free
      case PPut(p) => pc.Putting?
      case PSignal(p, woken) =>
        && pc.Signalling?
        && (forall i :: i in woken ==> i < |s.workers| && s.workers[i].Waiting?)
        && ((exists i :: 0 <= i < |s.workers| && s.workers[i].Waiting?) ==> woken != {})
      case _ => pc.Leaving?
  }

  ghost function Do<M>(s: State<M>, step: Step<M>): (t: State<M>)
    requires Enabled(s, step)
    ensures |t.workers| == |s.workers| && |t.producers| == |s.producers|
  {
    match step
    case WLock(w) => s.(mutex := ByWorker(w), workers := s.workers[w := Checking(s.workers[w].again)])
    case WCheck(w) =>
      if s.queue == [] then
        s.(mutex := Free, workers := s.workers[w := Waiting])
      else
        s.(queue := s.queue[1..], workers := s.workers[w := Taken(s.queue[0])])
    case WUnlock(w) => s.(mutex := Free, workers := s.workers[w := Busy(s.workers[w].msg)])
    case WReturn(w) => s.(workers := s.workers[w := AtLock(false)])
    case WReacquire(w) => s.(mutex := ByWorker(w), workers := s.workers[w := Rewoken])
    case WLoop(w) => s.(mutex := Free, workers := s.workers[w := AtLock(true)])
    case Spurious(w) => s.(workers := s.workers[w := Woken])
    case PCall(p, m) => s.(producers := s.producers[p := AtPutLock(m)])
    case PLock(p) => s.(mutex := ByProducer(p), producers := s.producers[p := Putting(s.producers[p].msg)])
    case PPut(p) => s.(queue := s.queue + [s.producers[p].msg], producers := s.producers[p := Signalling])
    case PSignal(p, woken) =>
      s.(workers := seq(|s.workers|, i requires 0 <= i < |s.workers| => if i in woken then Woken else s.workers[i]),
         producers := s.producers[p := Leaving])
    case PUnlock(p) => s.(mutex := Free, producers := s.producers[p := Outside])
  }

  ghost predicate Legal<M>(s: State<M>, steps: seq<Step<M>>)
    decreases |steps|
  {
    steps == [] || (Enabled(s, steps[0]) && Legal(Do(s, steps[0]), steps[1..]))
  }

  ghost function After<M>(s: State<M>, steps: seq<Step<M>>): State<M>
    requires Legal(s, steps)
    decreases |steps|
  {
    if steps == [] then s else After(Do(s, steps[0]), steps[1..])
  }

  // ---------------------------------------------------------------- the invariant

  /** A worker that a wakeup has sent back to look at the queue. */
  predicate ToRecheck<M>(pc: WorkerPc<M>) {
    pc.Woken? || pc.Rewoken? || ((pc.AtLock? || pc.Checking?) && pc.again)
  }

  function Recheckers<M>(workers: seq<WorkerPc<M>>): nat {
    if workers == [] then 0 else (if ToRecheck(workers[0]) then 1 else 0) + Recheckers(workers[1..])
  }

  ghost predicate SomeWaiting<M>(s: State<M>) {
    exists i :: 0 <= i < |s.workers| && s.workers[i].Waiting?
  }

  /** A message that is in the list but whose signal is still to come. */
  function Unsignalled<M>(s: State<M>): nat {
    if s.mutex.ByProducer? && s.mutex.p < |s.producers| && s.producers[s.mutex.p].Signalling? then 1 else 0
  }

  ghost predicate MutexInv<M>(s: State<M>) {
    && (s.mutex.ByWorker? ==> s.mutex.w < |s.workers|)
    && (s.mutex.ByProducer? ==> s.mutex.p < |s.producers|)
    && (forall i :: 0 <= i < |s.workers| ==>
          (s.mutex == ByWorker(i) <==> s.workers[i].Checking? || s.workers[i].Rewoken? || s.workers[i].Taken?))
    && (forall i :: 0 <= i < |s.producers| ==>
          (s.mutex == ByProducer(i) <==> s.producers[i].Putting? || s.producers[i].Signalling? || s.producers[i].Leaving?))
  }

  ghost predicate Inv<M>(s: State<M>) {
    && MutexInv(s)
    && (SomeWaiting(s) ==> |s.queue| <= Recheckers(s.workers) + Unsignalled(s))
  }

  lemma {:induction false} RecheckersUpdate<M>(workers: seq<WorkerPc<M>>, i: nat, pc: WorkerPc<M>)
    requires i < |workers|
    ensures Recheckers(workers[i := pc]) ==
      Recheckers(workers) - (if ToRecheck(workers[i]) then 1 else 0) + (if ToRecheck(pc) then 1 else 0)
  {
    if i == 0 {
      assert workers[i := pc][1..] == workers[1..];
    } else {
      assert workers[i := pc][1..] == workers[1..][i - 1 := pc];
      RecheckersUpdate(workers[1..], i - 1, pc);
    }
  }

  lemma {:induction false} RecheckersGrow<M>(before: seq<WorkerPc<M>>, after: seq<WorkerPc<M>>)
    requires |before| == |after|
    requires forall i :: 0 <= i < |before| ==> ToRecheck(before[i]) ==> ToRecheck(after[i])
    ensures Recheckers(before) <= Recheckers(after)
    ensures (exists i :: 0 <= i < |before| && !ToRecheck(before[i]) && ToRecheck(after[i]))
      ==> Recheckers(before) < Recheckers(after)
  {
    if before != [] {
      RecheckersGrow(before[1..], after[1..]);
      if i :| 0 <= i < |before| && !ToRecheck(before[i]) && ToRecheck(after[i]) {
        if i > 0 {
          assert !ToRecheck(before[1..][i - 1]) && ToRecheck(after[1..][i - 1]);
        }
      }
    }
  }

  lemma WorkerKeeps<M>(s: State<M>, step: Step<M>)
    requires Inv(s) && Enabled(s, step) && WorkerStep(step)
    ensures Inv(Do(s, step))
  {
    hide Recheckers;
    var t := Do(s, step);
    RecheckersUpdate(s.workers, step.w, t.workers[step.w]);
    assert MutexInv(t);
    if SomeWaiting(t) && !(step.WCheck? && s.queue == []) {
      var j :| 0 <= j < |t.workers| && t.workers[j].Waiting?;
      assert s.workers[j].Waiting?;
      assert Unsignalled(t) == Unsignalled(s);
    }
  }

  lemma ProducerKeeps<M>(s: State<M>, step: Step<M>)
    requires Inv(s) && Enabled(s, step) && !WorkerStep(step) && !step.PSignal?
    ensures Inv(Do(s, step))
  {
    hide Recheckers;
    var t := Do(s, step);
    assert MutexInv(t);
    assert SomeWaiting(t) ==> SomeWaiting(s);
  }

  lemma SignalKeeps<M>(s: State<M>, step: Step<M>)
    requires Inv(s) && Enabled(s, step) && step.PSignal?
    ensures Inv(Do(s, step))
  {
    hide Recheckers;
    var t := Do(s, step);
    assert MutexInv(t);
    RecheckersGrow(s.workers, t.workers);
    if SomeWaiting(t) {
      var j :| 0 <= j < |t.workers| && t.workers[j].Waiting?;
      assert s.workers[j].Waiting?;
      var i :| i in step.woken;
      assert !ToRecheck(s.workers[i]) && ToRecheck(t.workers[i]);
    }
  }

  lemma StepKeeps<M>(s: State<M>, step: Step<M>)
    requires Inv(s) && Enabled(s, step)
    ensures Inv(Do(s, step))
  {
    hide Inv, Enabled, Do;
    if WorkerStep(step) {
      WorkerKeeps(s, step);
    } else if step.PSignal? {
      SignalKeeps(s, step);
    } else {
      ProducerKeeps(s, step);
    }
  }

  lemma {:induction false} RunKeeps<M>(s: State<M>, steps: seq<Step<M>>)
    requires Inv(s) && Legal(s, steps)
    ensures Inv(After(s, steps))
    decreases |steps|
  {
    hide Inv, Enabled;
    if steps != [] {
      StepKeeps(s, steps[0]);
      RunKeeps(Do(s, steps[0]), steps[1..]);
    }
  }

  // ---------------------------------------------------------------- results over all runs

  /** A worker has been woken and sent back, and has not looked since. */
  function SentBack<M>(back: bool, steps: seq<Step<M>>, w: nat): bool
    decreases |steps|
  {
    if steps == [] then back
    else SentBack(if steps[0] == WLoop(w) then true else if steps[0] == WCheck(w) then false else back, steps[1..], w)
  }

  ghost predicate AgainIs<M>(s: State<M>, w: nat, back: bool)
    requires w < |s.workers|
  {
    var pc := s.workers[w];
    && (pc.AtLock? || pc.Checking? ==> pc.again == back)
    && (pc.Waiting? || pc.Woken? || pc.Rewoken? || pc.Taken? || pc.Busy? ==> !back)
  }

  lemma {:induction false} AgainInRun<M>(s: State<M>, steps: seq<Step<M>>, w: nat, back: bool)
    requires Legal(s, steps) && w < |s.workers| && AgainIs(s, w, back)
    ensures |After(s, steps).workers| == |s.workers| && AgainIs(After(s, steps), w, SentBack(back, steps, w))
    decreases |steps|
  {
    if steps != [] {
      AgainInRun(Do(s, steps[0]), steps[1..], w,
                 if steps[0] == WLoop(w) then true else if steps[0] == WCheck(w) then false else back);
    }
  }

  /** Who counts as woken has been. */
  lemma RecheckersWereWoken<M>(workers: nat, producers: nat, steps: seq<Step<M>>, w: nat)
    requires Legal(Init<M>(workers, producers), steps) && w < workers
    ensures var s := After(Init<M>(workers, producers), steps);
      && |s.workers| == workers
      && (ToRecheck(s.workers[w]) <==> s.workers[w].Woken? || s.workers[w].Rewoken? || SentBack(false, steps, w))
  {
    AgainInRun(Init<M>(workers, producers), steps, w, false);
  }

  /** The messages of a run's puts: what each producer was last called with, as calling has it. */
  function PutBy<M>(calling: map<nat, M>, steps: seq<Step<M>>): seq<M>
    decreases |steps|
  {
    if steps == [] then []
    else
      match steps[0]
      case PCall(p, m) => PutBy(calling[p := m], steps[1..])
      case PPut(p) => (if p in calling then [calling[p]] else []) + PutBy(calling, steps[1..])
      case _ => PutBy(calling, steps[1..])
  }

  /** What a worker holds. */
  function InHand<M>(pc: WorkerPc<M>): seq<M> {
    if pc.Taken? || pc.Busy? then [pc.msg] else []
  }

  /** What the workers of a run take from the queue, read from their hands. */
  ghost function HandedOut<M>(s: State<M>, steps: seq<Step<M>>): seq<M>
    requires Legal(s, steps)
    decreases |steps|
  {
    if steps == [] then []
    else
      var t := Do(s, steps[0]);
      (if steps[0].WCheck? then InHand(t.workers[steps[0].w]) else []) + HandedOut(t, steps[1..])
  }

  /** And what they have in hand when they leave with it. */
  ghost function Returned<M>(s: State<M>, steps: seq<Step<M>>): seq<M>
    requires Legal(s, steps)
    decreases |steps|
  {
    if steps == [] then []
    else
      var t := Do(s, steps[0]);
      (if steps[0].WUnlock? then InHand(t.workers[steps[0].w]) else []) + Returned(t, steps[1..])
  }

  /** What the holder of the mutex has taken and not left with. */
  ghost function Held<M>(s: State<M>): seq<M> {
    if s.mutex.ByWorker? && s.mutex.w < |s.workers| && s.workers[s.mutex.w].Taken? then [s.workers[s.mutex.w].msg] else []
  }

  /** Who is about to put a message was called with it. */
  ghost predicate Called<M>(s: State<M>, calling: map<nat, M>) {
    forall p :: 0 <= p < |s.producers| && (s.producers[p].AtPutLock? || s.producers[p].Putting?) ==>
      p in calling && calling[p] == s.producers[p].msg
  }

  lemma Regroup<M>(q: seq<M>, x: seq<M>, p: seq<M>, h: seq<M>, r: seq<M>, more: seq<M>, e: seq<M>)
    requires q + x == h + r && r + p == more + e
    ensures q + (x + p) == (h + more) + e
  {
    assert q + (x + p) == (q + x) + p && (h + r) + p == h + (r + p) && h + (more + e) == (h + more) + e;
  }

  lemma {:induction false} PutIsHandedOut<M>(s: State<M>, calling: map<nat, M>, steps: seq<Step<M>>)
    requires Called(s, calling) && Legal(s, steps)
    ensures s.queue + PutBy(calling, steps) == HandedOut(s, steps) + After(s, steps).queue
    decreases |steps|
  {
    if steps != [] {
      var t, step := Do(s, steps[0]), steps[0];
      var called := CalledAfter(calling, step);
      StepMovesOn(s, calling, step);
      PutByStep(calling, steps);
      hide Do, Enabled, Called, CalledAfter, PutBy, InHand;
      PutIsHandedOut(t, called, steps[1..]);
      Regroup(s.queue, if step.PPut? && step.p in calling then [calling[step.p]] else [], PutBy(called, steps[1..]),
              if step.WCheck? then InHand(t.workers[step.w]) else [], t.queue,
              HandedOut(t, steps[1..]), After(s, steps).queue);
    }
  }

  function CalledAfter<M>(calling: map<nat, M>, step: Step<M>): map<nat, M> {
    if step.PCall? then calling[step.p := step.msg] else calling
  }

  lemma PutByStep<M>(calling: map<nat, M>, steps: seq<Step<M>>)
    requires steps != []
    ensures PutBy(calling, steps) ==
      (if steps[0].PPut? && steps[0].p in calling then [calling[steps[0].p]] else []) + PutBy(CalledAfter(calling, steps[0]), steps[1..])
  {
  }

  lemma StepMovesOn<M>(s: State<M>, calling: map<nat, M>, step: Step<M>)
    requires Called(s, calling) && Enabled(s, step)
    ensures Called(Do(s, step), CalledAfter(calling, step))
    ensures var t := Do(s, step);
      s.queue + (if step.PPut? && step.p in calling then [calling[step.p]] else [])
      == (if step.WCheck? then InHand(t.workers[step.w]) else []) + t.queue
  {
  }

  lemma {:induction false} HandedOutIsReturned<M>(s: State<M>, steps: seq<Step<M>>)
    requires Inv(s) && Legal(s, steps)
    ensures Held(s) + HandedOut(s, steps) == Returned(s, steps) + Held(After(s, steps))
    decreases |steps|
  {
    if steps != [] {
      StepKeeps(s, steps[0]);
      StepHandsOn(s, steps[0]);
      hide Inv, Do, Enabled, Held, InHand;
      var t, step := Do(s, steps[0]), steps[0];
      HandedOutIsReturned(t, steps[1..]);
      Regroup(Held(s), if step.WCheck? then InHand(t.workers[step.w]) else [], HandedOut(t, steps[1..]),
              if step.WUnlock? then InHand(t.workers[step.w]) else [], Held(t), Returned(t, steps[1..]), Held(After(s, steps)));
    }
  }

  lemma StepHandsOn<M>(s: State<M>, step: Step<M>)
    requires Inv(s) && Enabled(s, step)
    ensures var t := Do(s, step);
      Held(s) + (if step.WCheck? then InHand(t.workers[step.w]) else [])
      == (if step.WUnlock? then InHand(t.workers[step.w]) else []) + Held(t)
  {
  }

  /**
   First in, first out: what the producers have put is what the workers have taken and what is
   queued, in order; and what the workers leave with is what they have taken, in order, up to
   the message of the one that still holds the mutex.
   */
  lemma FirstInFirstOut<M>(workers: nat, producers: nat, steps: seq<Step<M>>)
    requires Legal(Init<M>(workers, producers), steps)
    ensures var i := Init<M>(workers, producers);
      var s := After(i, steps);
      && PutBy(map[], steps) == HandedOut(i, steps) + s.queue
      && HandedOut(i, steps) == Returned(i, steps) + Held(s)
  {
    var s := Init<M>(workers, producers);
    PutIsHandedOut(s, map[], steps);
    HandedOutIsReturned(s, steps);
    hide HandedOut, Returned, PutBy;
    assert s.queue == [] && Held(s) == [];
    assert [] + PutBy(map[], steps) == PutBy(map[], steps) && [] + HandedOut(s, steps) == HandedOut(s, steps);
  }

  /**
   No wakeup is lost: if some worker waits unsignalled, then every queued message has a woken
   worker of its own on the way to the queue; only a message just put, until the signal that
   its producer sends next, may be without.
   */
  lemma NoLostWakeup<M>(workers: nat, producers: nat, steps: seq<Step<M>>)
    requires Legal(Init<M>(workers, producers), steps)
    ensures var s := After(Init<M>(workers, producers), steps);
      && (SomeWaiting(s) ==> |s.queue| <= Recheckers(s.workers) + Unsignalled(s))
      && Unsignalled(s) <= 1
      && (Unsignalled(s) == 1 <==> exists p :: 0 <= p < |s.producers| && s.producers[p].Signalling?)
  {
    RunKeeps(Init<M>(workers, producers), steps);
  }

  lemma {:induction false} RecheckerExists<M>(workers: seq<WorkerPc<M>>) returns (i: nat)
    requires Recheckers(workers) > 0
    ensures i < |workers| && ToRecheck(workers[i])
  {
    if ToRecheck(workers[0]) {
      i := 0;
    } else {
      i := RecheckerExists(workers[1..]);
      i := i + 1;
    }
  }

  lemma LegalCons<M>(s: State<M>, step: Step<M>, rest: seq<Step<M>>)
    requires Enabled(s, step) && Legal(Do(s, step), rest)
    ensures Legal(s, [step] + rest) && After(s, [step] + rest) == After(Do(s, step), rest)
  {
    assert ([step] + rest)[1..] == rest;
  }

  /** An awake worker, left alone with a free mutex, gets the next message in hand. */
  lemma AwakeDelivers<M>(s: State<M>, i: nat) returns (rest: seq<Step<M>>)
    requires Inv(s) && s.mutex == Free && s.queue != [] && i < |s.workers| && !s.workers[i].Waiting?
    ensures Legal(s, rest) && After(s, rest).queue == s.queue[1..]
    ensures |After(s, rest).workers| == |s.workers| && After(s, rest).workers[i] == Taken(s.queue[0])
    ensures forall k :: 0 <= k < |rest| ==> WorkerStep(rest[k]) && rest[k].w == i && !rest[k].Spurious?
    decreases match s.workers[i] case Woken => 2 case Busy(_) => 1 case _ => 0
  {
    match s.workers[i]
    case AtLock(_) =>
      var t := Do(s, WLock(i));
      LegalCons(t, WCheck(i), []);
      LegalCons(s, WLock(i), [WCheck(i)]);
      rest := [WLock(i)] + [WCheck(i)];
    case Busy(_) =>
      WorkerKeeps(s, WReturn(i));
      rest := AwakeDelivers(Do(s, WReturn(i)), i);
      LegalCons(s, WReturn(i), rest);
      rest := [WReturn(i)] + rest;
    case Woken =>
      var t := Do(s, WReacquire(i));
      WorkerKeeps(s, WReacquire(i));
      WorkerKeeps(t, WLoop(i));
      rest := AwakeDelivers(Do(t, WLoop(i)), i);
      LegalCons(t, WLoop(i), rest);
      rest := [WLoop(i)] + rest;
      LegalCons(s, WReacquire(i), rest);
      rest := [WReacquire(i)] + rest;
  }

  /** What a worker does next. */
  function NextOf<M>(pc: WorkerPc<M>, w: nat): Step<M> {
    match pc
    case AtLock(_) => WLock(w)
    case Checking(_) => WCheck(w)
    case Waiting => Spurious(w)
    case Woken => WReacquire(w)
    case Rewoken => WLoop(w)
    case Taken(_) => WUnlock(w)
    case Busy(_) => WReturn(w)
  }

  function Waiters<M>(s: State<M>): set<nat> {
    set i: nat | i < |s.workers| && s.workers[i].Waiting?
  }

  /** Nobody is held up but by the mutex: a waiting worker may wake by itself, and a producer may call with anything. */
  lemma OnlyMutexBlocks<M>(s: State<M>, w: nat, p: nat, m: M)
    requires w < |s.workers| && p < |s.producers|
    ensures var pc := s.workers[w];
      Enabled(s, NextOf(pc, w)) <==> (pc.AtLock? || pc.Woken? ==> s.mutex == Free)
    ensures match s.producers[p]
            case Outside => Enabled(s, PCall(p, m))
            case AtPutLock(_) => Enabled(s, PLock(p)) <==> s.mutex == Free
            case Putting(_) => Enabled(s, PPut(p))
            case Signalling => Enabled(s, PSignal(p, Waiters(s)))
            case Leaving => Enabled(s, PUnlock(p))
  {
    if s.producers[p].Signalling? {
      if i: nat :| i < |s.workers| && s.workers[i].Waiting? {
        assert i in Waiters(s);
      }
    }
  }

  /**
   A producer, left alone with a free mutex, puts its message at the end of the queue, and its
   signal may wake any of the waiting workers, but at least one.
   */
  lemma PutGoesThrough<M>(s: State<M>, p: nat, m: M, woken: set<nat>) returns (steps: seq<Step<M>>)
    requires Inv(s) && s.mutex == Free && p < |s.producers| && s.producers[p].Outside?
    requires (forall i :: i in woken ==> i < |s.workers| && s.workers[i].Waiting?) && (SomeWaiting(s) ==> woken != {})
    ensures Legal(s, steps)
    ensures var t := After(s, steps);
      && t.queue == s.queue + [m] && t.mutex == Free && t.producers == s.producers && |t.workers| == |s.workers|
      && forall i :: 0 <= i < |s.workers| ==> t.workers[i] == if i in woken then Woken else s.workers[i]
  {
    var s1 := Do(s, PCall(p, m));
    var s2 := Do(s1, PLock(p));
    var s3 := Do(s2, PPut(p));
    assert s3 == s.(queue := s.queue + [m], mutex := ByProducer(p), producers := s.producers[p := Signalling]);
    steps := SignalGoesThrough(s3, p, woken);
    hide Legal, After;
    LegalCons(s2, PPut(p), steps);
    steps := [PPut(p)] + steps;
    LegalCons(s1, PLock(p), steps);
    steps := [PLock(p)] + steps;
    LegalCons(s, PCall(p, m), steps);
    steps := [PCall(p, m)] + steps;
  }

  lemma SignalGoesThrough<M>(s: State<M>, p: nat, woken: set<nat>) returns (steps: seq<Step<M>>)
    requires p < |s.producers| && s.producers[p].Signalling?
    requires (forall i :: i in woken ==> i < |s.workers| && s.workers[i].Waiting?) && (SomeWaiting(s) ==> woken != {})
    ensures Legal(s, steps)
    ensures var t := After(s, steps);
      && t.queue == s.queue && t.mutex == Free && t.producers == s.producers[p := Outside] && |t.workers| == |s.workers|
      && forall i :: 0 <= i < |s.workers| ==> t.workers[i] == if i in woken then Woken else s.workers[i]
  {
    var s1 := Do(s, PSignal(p, woken));
    var s2 := Do(s1, PUnlock(p));
    assert s2.producers == s.producers[p := Outside];
    steps := NoSteps(s2);
    hide Legal, After;
    LegalCons(s1, PUnlock(p), steps);
    steps := [PUnlock(p)] + steps;
    LegalCons(s, PSignal(p, woken), steps);
    steps := [PSignal(p, woken)] + steps;
  }

  lemma NoSteps<M>(s: State<M>) returns (steps: seq<Step<M>>)
    ensures steps == [] && Legal(s, steps) && After(s, steps) == s
  {
    steps := [];
  }

  /**
   The workers never all sleep on a queued message: in every reachable state with the mutex
   free some worker can deliver the next one by its own moves, with no further signal.
   */
  lemma QueuedMessageIsDeliverable<M>(workers: nat, producers: nat, steps: seq<Step<M>>)
    returns (i: nat, rest: seq<Step<M>>)
    requires workers > 0 && Legal(Init<M>(workers, producers), steps)
    requires After(Init<M>(workers, producers), steps).mutex == Free
    requires After(Init<M>(workers, producers), steps).queue != []
    ensures var s := After(Init<M>(workers, producers), steps);
      && Legal(s, rest) && After(s, rest).queue == s.queue[1..]
      && i < |After(s, rest).workers| && After(s, rest).workers[i] == Taken(s.queue[0])
    ensures forall k :: 0 <= k < |rest| ==> WorkerStep(rest[k]) && rest[k].w == i && !rest[k].Spurious?
  {
    var s := After(Init<M>(workers, producers), steps);
    RunKeeps(Init<M>(workers, producers), steps);
    WorkersRemain(Init<M>(workers, producers), steps);
    if SomeWaiting(s) {
      i := RecheckerExists(s.workers);
    } else {
      i := 0;
    }
    rest := AwakeDelivers(s, i);
  }

  lemma {:induction false} WorkersRemain<M>(s: State<M>, steps: seq<Step<M>>)
    requires Legal(s, steps)
    ensures |After(s, steps).workers| == |s.workers|
    decreases |steps|
  {
    if steps != [] {
      WorkersRemain(Do(s, steps[0]), steps[1..]);
    }
  }
}
