/**
 The gate that lets one command of a connection at a time into the worker queues: the flag
 Busy, the list PendingCmdQ, and the 'P' wake-ups that a worker sends through a pipe when it
 leaves commands waiting. One comm thread serves a connection; the commands are of one type
 and each is completed once. A wake-up is handled like a post of a null command.
 */
module Gate {
  import opened Bytes

  /** A command is known by its place in the order of arrival. */
  type Cmd = nat

  datatype CommPc =
    | Idle
    | Holding(arg: Option<Cmd>)                   // Busy taken
    | Requeueing(first: Cmd, arg: Option<Cmd>)    // a pending command taken, arg to be queued behind
    | Dispatching(cmd: Cmd)
    | Yielding                                    // nothing to dispatch; Busy to be given back
    | Queueing(arg: Option<Cmd>)                  // Busy was taken by another command

  /** checking: workers that have cleared Busy and not looked at the list yet. */
  datatype State = State(
    comm: CommPc,
    busy: bool,
    pending: seq<Option<Cmd>>,
    inFlight: seq<Cmd>,
    checking: nat,
    wakeups: nat,
    arrived: nat,
    dispatched: seq<Cmd>,
    completed: set<Cmd>,
    overtook: bool)       // a command was dispatched past one that was waiting

  datatype Step =
    | Post          // the next command arrives: Busy is tried with it in hand
    | WakeUp        // a 'P' is read: Busy is tried with null in hand
    | CommStep      // the comm thread's next instruction
    | Complete      // a worker finishes the command in flight and clears Busy
    | Check         // and looks at the list, sending a 'P' if it is not empty

  const INIT := State(Idle, false, [], [], 0, 0, 0, [], {}, false)

  predicate Enabled(s: State, step: Step) {
    match step
    case Post => s.comm.Idle?
    case WakeUp => s.comm.Idle? && s.wakeups > 0
    case CommStep => !s.comm.Idle?
    case Complete => s.inFlight != []
    case Check => s.checking > 0
  }

  /** The compare-and-swap of Busy from 0 to 1. */
  function TryBusy(s: State, arg: Option<Cmd>): State {
    if s.busy then s.(comm := Queueing(arg)) else s.(busy := true, comm := Holding(arg))
  }

  /** The commands in a list, without its nulls. */
  function Commands(q: seq<Option<Cmd>>): (r: seq<Cmd>)
    ensures |r| <= |q|
  {
    if q == [] then [] else (if q[0].Some? then [q[0].value] else []) + Commands(q[1..])
  }

  function Do(s: State, step: Step): State
    requires Enabled(s, step)
  {
    match step
    case Post => TryBusy(s, Some(s.arrived)).(arrived := s.arrived + 1)
    case WakeUp => TryBusy(s, None).(wakeups := s.wakeups - 1)
    case CommStep =>
      (match s.comm
       case Holding(arg) =>
         // aSQget: null if the list is empty or its front is a null
         var front := if s.pending == [] then None else s.pending[0];
         var rest := if s.pending == [] then [] else s.pending[1..];
         (match front
          case Some(first) => s.(pending := rest, comm := Requeueing(first, arg))
          case None =>
            s.(pending := rest,
               overtook := s.overtook || (arg.Some? && Commands(rest) != []),
               comm := if arg.Some? then Dispatching(arg.value) else Yielding))
       case Requeueing(first, arg) =>
         s.(pending := if arg.Some? then s.pending + [arg] else s.pending, comm := Dispatching(first))
       case Dispatching(cmd) =>
         s.(inFlight := s.inFlight + [cmd], dispatched := s.dispatched + [cmd], comm := Idle)
       case Yielding => s.(busy := false, comm := Idle)
       case Queueing(arg) => s.(pending := s.pending + [arg], comm := Idle)
       case Idle => s)
    case Complete =>
      s.(inFlight := s.inFlight[1..], completed := s.completed + {s.inFlight[0]}, busy := false, checking := s.checking + 1)
    case Check =>
      s.(checking := s.checking - 1, wakeups := if s.pending != [] then s.wakeups + 1 else s.wakeups)
  }

  predicate Legal(s: State, steps: seq<Step>)
    decreases |steps|
  {
    steps == [] || (Enabled(s, steps[0]) && Legal(Do(s, steps[0]), steps[1..]))
  }

  function After(s: State, steps: seq<Step>): State
    requires Legal(s, steps)
    decreases |steps|
  {
    if steps == [] then s else After(Do(s, steps[0]), steps[1..])
  }

  // ---------------------------------------------------------------- where every command is

  function ArgOf(arg: Option<Cmd>): seq<Cmd> {
    if arg.Some? then [arg.value] else []
  }

  /** The commands past the gate's decision, and those that still wait, each in order. */
  function Chosen(s: State): seq<Cmd> {
    s.dispatched +
    match s.comm
    case Requeueing(first, _) => [first]
    case Dispatching(cmd) => [cmd]
    case _ => []
  }

  function Waiting(s: State): seq<Cmd> {
    Commands(s.pending) +
    match s.comm
    case Holding(arg) => ArgOf(arg)
    case Requeueing(_, arg) => ArgOf(arg)
    case Queueing(arg) => ArgOf(arg)
    case _ => []
  }

  function UpTo(n: nat): (r: seq<Cmd>)
    ensures |r| == n && forall i :: 0 <= i < n ==> r[i] == i
  {
    seq(n, i => i)
  }

  /** Who holds Busy: the comm thread, or the one command in flight. */
  ghost predicate BusyInv(s: State) {
    && |s.inFlight| <= 1
    && (s.busy <==> s.inFlight != [] || s.comm.Holding? || s.comm.Requeueing? || s.comm.Dispatching? || s.comm.Yielding?)
    && (s.comm.Holding? || s.comm.Requeueing? || s.comm.Dispatching? || s.comm.Yielding? ==> s.inFlight == [])
  }

  /** Each accepted command is in exactly one place. */
  ghost predicate PlaceInv(s: State) {
    multiset(Chosen(s) + Waiting(s)) == multiset(UpTo(s.arrived))
  }

  ghost predicate DoneInv(s: State) {
    && (forall c :: c in s.dispatched <==> c in s.completed || c in s.inFlight)
    && (forall c :: c in s.inFlight ==> c !in s.completed)
  }

  /** In order, as long as no command has overtaken another. */
  ghost predicate OrderInv(s: State) {
    && (!s.overtook ==> Chosen(s) + Waiting(s) == UpTo(s.arrived))
    && (s.overtook ==> !(Chosen(s) <= UpTo(s.arrived)))
  }

  ghost predicate Inv(s: State) {
    BusyInv(s) && DoneInv(s) && PlaceInv(s) && OrderInv(s)
  }

  lemma {:induction false} CommandsAppend(q: seq<Option<Cmd>>, x: Option<Cmd>)
    ensures Commands(q + [x]) == Commands(q) + ArgOf(x)
  {
    if q == [] {
      assert q + [x] == [x];
    } else {
      assert (q + [x])[1..] == q[1..] + [x];
      CommandsAppend(q[1..], x);
    }
  }

  /** A step that leaves the commands in line in the same order, or adds the newest at the end. */
  lemma LineKept(s: State, t: State)
    requires PlaceInv(s) && OrderInv(s) && t.overtook == s.overtook && Chosen(s) <= Chosen(t)
    requires s.arrived <= t.arrived
    requires Chosen(t) + Waiting(t) == Chosen(s) + Waiting(s) + UpTo(t.arrived)[s.arrived..]
    ensures OrderInv(t) && PlaceInv(t)
  {
    assert UpTo(t.arrived) == UpTo(s.arrived) + UpTo(t.arrived)[s.arrived..];
    assert |Chosen(s) + Waiting(s)| == |multiset(Chosen(s) + Waiting(s))| == |multiset(UpTo(s.arrived))| == s.arrived;
    assert Chosen(t) <= UpTo(t.arrived) ==> Chosen(s) <= UpTo(s.arrived);
  }

  lemma BusyKeeps(s: State, step: Step)
    requires BusyInv(s) && Enabled(s, step)
    ensures BusyInv(Do(s, step))
  {
    hide Commands;
  }

  lemma DoneKeeps(s: State, step: Step)
    requires BusyInv(s) && DoneInv(s) && Enabled(s, step)
    requires step.CommStep? && s.comm.Dispatching? ==> s.comm.cmd !in s.dispatched
    ensures DoneInv(Do(s, step))
  {
    hide Commands;
  }

  // Every step but an overtaking one keeps the line, but for a newcomer at its end.
  ghost predicate LineGrows(s: State, t: State) {
    && t.overtook == s.overtook && s.arrived <= t.arrived && Chosen(s) <= Chosen(t)
    && Chosen(t) + Waiting(t) == Chosen(s) + Waiting(s) + UpTo(t.arrived)[s.arrived..]
  }

  lemma NullTaken(s: State)
    requires s.comm.Holding? && !Overtakes(s) && (s.pending == [] || s.pending[0] == None)
    ensures var t := Do(s, CommStep);
      && t.arrived == s.arrived && t.overtook == s.overtook
      && Chosen(t) + Waiting(t) == Chosen(s) + Waiting(s) && Chosen(s) <= Chosen(t)
  {
    var t := Do(s, CommStep);
    assert Commands(s.pending) == Commands(t.pending);
    hide Commands;
    assert t.comm.Dispatching? ==> Chosen(t) == Chosen(s) + ArgOf(s.comm.arg);
  }

  lemma LineOfNullTaken(s: State)
    requires s.comm.Holding? && !Overtakes(s) && (s.pending == [] || s.pending[0] == None)
    ensures LineGrows(s, Do(s, CommStep))
  {
    NullTaken(s);
    hide Do, Chosen, Waiting, Overtakes;
    assert UpTo(Do(s, CommStep).arrived)[s.arrived..] == [];
  }

  lemma LineOfCommandTaken(s: State)
    requires s.comm.Holding? && s.pending != [] && s.pending[0].Some?
    ensures LineGrows(s, Do(s, CommStep))
  {
    var t, first, rest := Do(s, CommStep), [s.pending[0].value], Commands(s.pending[1..]);
    assert UpTo(t.arrived)[s.arrived..] == [];
    assert Commands(s.pending) == first + rest;
    hide Commands;
    var arg := ArgOf(s.comm.arg);
    assert Waiting(s) == (first + rest) + arg && Waiting(t) == rest + arg && Chosen(t) == Chosen(s) + first;
  }

  lemma LineOfQueued(s: State)
    requires s.comm.Requeueing? || s.comm.Queueing?
    ensures LineGrows(s, Do(s, CommStep))
  {
    var t := Do(s, CommStep);
    CommandsAppend(s.pending, s.comm.arg);
    hide Commands;
    assert UpTo(t.arrived)[s.arrived..] == [];
    assert Waiting(t) == Waiting(s) && Chosen(t) == Chosen(s);
  }

  lemma LineOfRest(s: State, step: Step)
    requires Enabled(s, step) && !(step.CommStep? && (s.comm.Holding? || s.comm.Requeueing? || s.comm.Queueing?))
    ensures LineGrows(s, Do(s, step))
  {
    hide Commands;
    var t := Do(s, step);
    assert UpTo(t.arrived)[s.arrived..] == if step.Post? then [s.arrived] else [];
    assert Waiting(t) == Waiting(s) + UpTo(t.arrived)[s.arrived..];
    assert Chosen(t) == Chosen(s);
  }

  /** The post in hand is about to pop a null with commands behind it. */
  predicate Overtakes(s: State) {
    s.comm.Holding? && s.comm.arg.Some? && (s.pending != [] && s.pending[0] == None && Commands(s.pending[1..]) != [])
  }

  /** A command dispatched past the ones in late breaks the order for good. */
  lemma OvertakeKeeps(s: State, t: State, arg: Cmd, late: seq<Cmd>)
    requires PlaceInv(s) && OrderInv(s) && late != [] && t.arrived == s.arrived && t.overtook
    requires Chosen(s) == s.dispatched && Waiting(s) == late + [arg]
    requires Chosen(t) == s.dispatched + [arg] && Waiting(t) == late
    ensures PlaceInv(t) && OrderInv(t)
  {
    hide Chosen, Waiting;
    var line := s.dispatched + (late + [arg]);
    assert multiset(s.dispatched + [arg] + late) == multiset(line);
    assert |line| == |multiset(line)| == |multiset(UpTo(s.arrived))| == s.arrived;
    if s.overtook {
      assert Chosen(t) <= UpTo(t.arrived) ==> Chosen(s) <= UpTo(s.arrived);
    } else {
      assert line == UpTo(s.arrived);
      assert arg == line[|line| - 1] == s.arrived - 1;
      assert Chosen(t)[|s.dispatched|] == arg != UpTo(t.arrived)[|s.dispatched|];
    }
  }

  lemma StepKeeps(s: State, step: Step)
    requires Inv(s) && Enabled(s, step)
    ensures Inv(Do(s, step))
  {
    BusyKeeps(s, step);
    if step.CommStep? && s.comm.Dispatching? {
      Fresh(s);
    }
    DoneKeeps(s, step);
    hide BusyInv, DoneInv;
    if step.CommStep? && Overtakes(s) {
      OvertakeKeeps(s, Do(s, step), s.comm.arg.value, Commands(s.pending[1..]));
    } else {
      if step.CommStep? && s.comm.Holding? {
        if s.pending != [] && s.pending[0].Some? { LineOfCommandTaken(s); } else { LineOfNullTaken(s); }
      } else if step.CommStep? && (s.comm.Requeueing? || s.comm.Queueing?) {
        LineOfQueued(s);
      } else {
        LineOfRest(s, step);
      }
      hide Do, Chosen, Waiting, PlaceInv, OrderInv;
      LineKept(s, Do(s, step));
    }
  }

  /** A command about to be dispatched has not been before. */
  lemma Fresh(s: State)
    requires Inv(s) && s.comm.Dispatching?
    ensures s.comm.cmd !in s.dispatched
  {
    var line := Chosen(s) + Waiting(s);
    var c := s.comm.cmd;
    if c in s.dispatched {
      assert multiset(s.dispatched)[c] >= 1;
      assert multiset(line) == multiset(s.dispatched) + multiset{c} + multiset(Waiting(s));
      OnceEach(s.arrived, c);
      assert false;
    }
  }

  lemma {:induction false} OnceEach(n: nat, c: Cmd)
    ensures multiset(UpTo(n))[c] <= 1
    ensures c >= n ==> multiset(UpTo(n))[c] == 0
  {
    if n > 0 {
      OnceEach(n - 1, c);
      assert UpTo(n) == UpTo(n - 1) + [n - 1];
    }
  }

  lemma {:induction false} RunKeeps(s: State, steps: seq<Step>)
    requires Inv(s) && Legal(s, steps)
    ensures Inv(After(s, steps))
    decreases |steps|
  {
    hide Inv, Do;
    if steps != [] {
      StepKeeps(s, steps[0]);
      RunKeeps(Do(s, steps[0]), steps[1..]);
    }
  }

  /** How many commands a run posts. */
  function Posts(steps: seq<Step>): nat {
    if steps == [] then 0 else (if steps[0].Post? then 1 else 0) + Posts(steps[1..])
  }

  function PutIn(s: State, t: State): seq<Cmd> {
    if |s.inFlight| < |t.inFlight| then t.inFlight[|s.inFlight|..] else []
  }

  function CompletedIn(s: State, step: Step): seq<Cmd>
    requires Enabled(s, step)
  {
    if step.Complete? then [s.inFlight[0]] else []
  }

  /** The commands that a run puts in flight, in order, and those that workers complete. */
  function PutInFlight(s: State, steps: seq<Step>): seq<Cmd>
    requires Legal(s, steps)
    decreases |steps|
  {
    if steps == [] then []
    else PutIn(s, Do(s, steps[0])) + PutInFlight(Do(s, steps[0]), steps[1..])
  }

  function CompletedBy(s: State, steps: seq<Step>): seq<Cmd>
    requires Legal(s, steps)
    decreases |steps|
  {
    if steps == [] then []
    else CompletedIn(s, steps[0]) + CompletedBy(Do(s, steps[0]), steps[1..])
  }

  lemma StepIsLogged(s: State, step: Step)
    requires Enabled(s, step)
    ensures var t := Do(s, step);
      var put, done := PutIn(s, t), CompletedIn(s, step);
      && t.arrived == s.arrived + (if step.Post? then 1 else 0)
      && t.dispatched == s.dispatched + put && s.inFlight + put == done + t.inFlight
      && forall c :: c in t.completed <==> c in s.completed || c in done
  {
    hide Commands;
  }

  lemma {:induction false} RunIsLogged(s: State, steps: seq<Step>)
    requires Legal(s, steps)
    ensures var t := After(s, steps);
      && t.arrived == s.arrived + Posts(steps) && t.dispatched == s.dispatched + PutInFlight(s, steps)
      && s.inFlight + PutInFlight(s, steps) == CompletedBy(s, steps) + t.inFlight
      && forall c :: c in t.completed <==> c in s.completed || c in CompletedBy(s, steps)
    decreases |steps|
  {
    hide Do, Enabled, PutIn, CompletedIn;
    if steps != [] {
      StepIsLogged(s, steps[0]);
      var t := Do(s, steps[0]);
      var put, done := PutIn(s, t), CompletedIn(s, steps[0]);
      RunIsLogged(t, steps[1..]);
      Regroup(s.inFlight, put, PutInFlight(t, steps[1..]), done, t.inFlight, CompletedBy(t, steps[1..]), After(s, steps).inFlight);
    }
  }

  lemma Regroup(q: seq<Cmd>, x: seq<Cmd>, p: seq<Cmd>, h: seq<Cmd>, r: seq<Cmd>, more: seq<Cmd>, e: seq<Cmd>)
    requires q + x == h + r && r + p == more + e
    ensures q + (x + p) == (h + more) + e
  {
    assert q + (x + p) == (q + x) + p && (h + r) + p == h + (r + p) && h + (more + e) == (h + more) + e;
  }

  /**
   What the state records is what the run did: as many commands arrived as were posted, those
   dispatched are the ones put in flight, and they are completed in the order of dispatch.
   */
  lemma StateRecordsRun(steps: seq<Step>)
    requires Legal(INIT, steps)
    ensures var s := After(INIT, steps);
      && s.arrived == Posts(steps) && s.dispatched == PutInFlight(INIT, steps)
      && PutInFlight(INIT, steps) == CompletedBy(INIT, steps) + s.inFlight
      && forall c :: c in s.completed <==> c in CompletedBy(INIT, steps)
  {
    RunIsLogged(INIT, steps);
    hide PutInFlight, CompletedBy, Posts;
    assert [] + PutInFlight(INIT, steps) == PutInFlight(INIT, steps);
  }

  lemma InitInv()
    ensures Inv(INIT)
  {
    assert UpTo(0) == [];
  }

  // ---------------------------------------------------------------- results over all runs

  /**
   At most one command is in flight; and each accepted command is in exactly one place: still
   in line, in the comm thread's hands, in flight, or completed.
   */
  lemma OneAtATime(steps: seq<Step>)
    requires Legal(INIT, steps)
    ensures var s := After(INIT, steps);
      && |s.inFlight| <= 1
      && multiset(Chosen(s) + Waiting(s)) == multiset(UpTo(s.arrived))
      && (forall c :: c in s.dispatched <==> c in s.completed || c in s.inFlight)
      && (forall c :: c in s.inFlight ==> c !in s.completed)
  {
    InitInv();
    RunKeeps(INIT, steps);
  }

  lemma AlsoLegal(s: State, step: Step, rest: seq<Step>)
    requires Enabled(s, step) && Legal(Do(s, step), rest)
    ensures Legal(s, [step] + rest) && After(s, [step] + rest) == After(Do(s, step), rest)
  {
    assert ([step] + rest)[1..] == rest;
  }

  /** How many steps the comm thread has before it is ready for the next command. */
  function StepsLeft(pc: CommPc): (n: nat) {
    match pc
    case Idle => 0
    case Holding(_) => 3
    case Requeueing(_, _) => 2
    case _ => 1
  }

  lemma {:induction false} RestOfPost(s: State) returns (steps: seq<Step>)
    ensures |steps| <= StepsLeft(s.comm) && Legal(s, steps) && After(s, steps).comm.Idle?
    ensures After(s, steps).wakeups == s.wakeups && forall k :: 0 <= k < |steps| ==> steps[k] == CommStep
    decreases StepsLeft(s.comm)
  {
    steps := [];
    if !s.comm.Idle? {
      var t := Do(s, CommStep);
      assert StepsLeft(t.comm) < StepsLeft(s.comm) && t.wakeups == s.wakeups;
      var rest := RestOfPost(t);
      AlsoLegal(s, CommStep, rest);
      steps := [CommStep] + rest;
    }
  }

  /**
   The comm thread never waits: in at most three steps of its own it is ready for the next command;
   and a worker that has a command or has just cleared Busy can go on.
   */
  lemma NobodyWaits(s: State) returns (steps: seq<Step>)
    ensures |steps| <= 3 && Legal(s, steps) && forall k :: 0 <= k < |steps| ==> steps[k] == CommStep
    ensures Enabled(After(s, steps), Post)
    ensures Enabled(After(s, steps), WakeUp) <==> s.wakeups > 0
    ensures (Enabled(s, Complete) <==> s.inFlight != []) && (Enabled(s, Check) <==> s.checking > 0)
  {
    steps := RestOfPost(s);
  }

  /**
   Commands are dispatched in the order of arrival exactly if no post ever popped a null
   with commands queued behind it.
   */
  lemma OrderIsKeptExactly(steps: seq<Step>)
    requires Legal(INIT, steps)
    ensures var s := After(INIT, steps);
      Chosen(s) + Waiting(s) == UpTo(s.arrived) <==> !s.overtook
  {
    InitInv();
    RunKeeps(INIT, steps);
    var s := After(INIT, steps);
    assert Chosen(s) <= Chosen(s) + Waiting(s);
  }

  /** Every 'P' is read while no command holds Busy. */
  predicate WakeUpsFindBusyClear(s: State, steps: seq<Step>)
    requires Legal(s, steps)
    decreases |steps|
  {
    steps == [] || ((steps[0].WakeUp? ==> !s.busy) && WakeUpsFindBusyClear(Do(s, steps[0]), steps[1..]))
  }

  predicate NoNulls(s: State) {
    && (forall i :: 0 <= i < |s.pending| ==> s.pending[i].Some?)
    && (s.comm.Queueing? ==> s.comm.arg.Some?)
    && !s.overtook
  }

  lemma {:induction false} NoNullsKept(s: State, steps: seq<Step>)
    requires NoNulls(s) && Legal(s, steps) && WakeUpsFindBusyClear(s, steps)
    ensures NoNulls(After(s, steps))
    decreases |steps|
  {
    if steps != [] {
      NoNullsKept(Do(s, steps[0]), steps[1..]);
    }
  }

  /** Under that condition dispatched ++ pending is the order of arrival. */
  lemma InOrderIfWakeUpsFindBusyClear(steps: seq<Step>)
    requires Legal(INIT, steps) && WakeUpsFindBusyClear(INIT, steps)
    ensures var s := After(INIT, steps);
      Chosen(s) + Waiting(s) == UpTo(s.arrived)
  {
    NoNullsKept(INIT, steps);
    OrderIsKeptExactly(steps);
  }

  // ---------------------------------------------------------------- runs that fail the condition

  lemma {:induction false} RunOn(s: State, steps: seq<Step>, more: seq<Step>)
    requires Legal(s, steps) && Legal(After(s, steps), more)
    ensures Legal(s, steps + more) && After(s, steps + more) == After(After(s, steps), more)
    decreases |steps|
  {
    if steps == [] {
      assert steps + more == more;
    } else {
      assert (steps + more)[1..] == steps[1..] + more;
      RunOn(Do(s, steps[0]), steps[1..], more);
    }
  }

  const ONE_WAITS := State(Idle, false, [Some(1)], [], 0, 1, 2, [0], {0}, false)
  const NULL_WAITS := State(Idle, true, [Some(2), None], [1], 0, 0, 3, [0, 1], {0}, false)

  lemma OneWaits()
    ensures Legal(INIT, [Post, CommStep, CommStep, Post, CommStep, Complete, Check])
    ensures After(INIT, [Post, CommStep, CommStep, Post, CommStep, Complete, Check]) == ONE_WAITS
  {
  }

  /** A wake-up that finds the next command dispatched already leaves a null in the list. */
  lemma NullWaits()
    ensures Legal(ONE_WAITS, [Post, CommStep, CommStep, CommStep, WakeUp, CommStep])
    ensures After(ONE_WAITS, [Post, CommStep, CommStep, CommStep, WakeUp, CommStep]) == NULL_WAITS
  {
  }

  const THREE_WAITS := State(Idle, false, [None, Some(3)], [], 1, 1, 4, [0, 1, 2], {0, 1, 2}, false)

  lemma ThreeWaits()
    ensures Legal(NULL_WAITS, [Complete, Check, Post, CommStep, CommStep, CommStep, Complete])
    ensures After(NULL_WAITS, [Complete, Check, Post, CommStep, CommStep, CommStep, Complete]) == THREE_WAITS
  {
  }

  lemma FourOvertakesThree()
    ensures Legal(THREE_WAITS, [Post, CommStep, CommStep])
    ensures After(THREE_WAITS, [Post, CommStep, CommStep]).dispatched == [0, 1, 2, 4]
  {
  }

  /** The fourth command overtakes the third. */
  lemma CommandsCanOvertake() returns (steps: seq<Step>)
    ensures Legal(INIT, steps) && After(INIT, steps).dispatched == [0, 1, 2, 4]
  {
    hide Legal, After;
    OneWaits();
    NullWaits();
    ThreeWaits();
    FourOvertakesThree();
    steps := [Post, CommStep, CommStep, Post, CommStep, Complete, Check];
    RunOn(INIT, steps, [Post, CommStep, CommStep, CommStep, WakeUp, CommStep]);
    steps := steps + [Post, CommStep, CommStep, CommStep, WakeUp, CommStep];
    RunOn(INIT, steps, [Complete, Check, Post, CommStep, CommStep, CommStep, Complete]);
    steps := steps + [Complete, Check, Post, CommStep, CommStep, CommStep, Complete];
    RunOn(INIT, steps, [Post, CommStep, CommStep]);
    steps := steps + [Post, CommStep, CommStep];
  }

  // ---------------------------------------------------------------- commands without a wake-up

  /** Commands wait, Busy is clear, and no wake-up is on its way. */
  predicate Stranded(s: State) {
    && s.comm.Idle? && !s.busy && s.checking == 0 && s.wakeups == 0
    && Commands(s.pending) != []
  }

  /**
   The two steps that strand commands, with no worker still to look at the list and no
   wake-up unread: to queue a command that failed to take Busy after Busy was cleared, and to
   give Busy back after popping a null with commands behind it.
   */
  predicate Strands(s: State, step: Step) {
    && step.CommStep? && s.checking == 0 && s.wakeups == 0
    && ((s.comm.Queueing? && s.comm.arg.Some? && !s.busy) || (s.comm.Yielding? && Commands(s.pending) != []))
  }

  /** Busy was cleared since a failed try: the worker is still to look, or has seen what waits. */
  ghost predicate QueueInv(s: State) {
    s.comm.Queueing? && !s.busy ==> s.checking > 0 || s.wakeups > 0 || s.pending == []
  }

  lemma QueueKeeps(s: State, step: Step)
    requires QueueInv(s) && Enabled(s, step)
    ensures QueueInv(Do(s, step))
  {
    hide Commands;
  }

  lemma StrandedByStep(s: State, step: Step)
    requires BusyInv(s) && QueueInv(s) && Enabled(s, step)
    ensures Stranded(Do(s, step)) <==> Strands(s, step)
  {
    if step.CommStep? && s.comm.Queueing? {
      CommandsAppend(s.pending, s.comm.arg);
    } else {
      assert s.pending == [] ==> Commands(s.pending) == [];
    }
    hide Commands;
  }

  lemma {:induction false} LastStep(s: State, steps: seq<Step>)
    requires Legal(s, steps) && steps != []
    ensures var n := |steps| - 1;
      && Legal(s, steps[..n]) && Enabled(After(s, steps[..n]), steps[n])
      && After(s, steps) == Do(After(s, steps[..n]), steps[n])
    decreases |steps|
  {
    hide Do, Enabled;
    var n := |steps| - 1;
    if n == 0 {
      assert steps[..n] == [];
      assert steps[1..] == [];
    } else {
      LastStep(Do(s, steps[0]), steps[1..]);
      assert steps[1..][..n - 1] == steps[..n][1..];
    }
  }

  lemma {:induction false} RunKeepsQueue(s: State, steps: seq<Step>)
    requires QueueInv(s) && Legal(s, steps)
    ensures QueueInv(After(s, steps))
    decreases |steps|
  {
    hide QueueInv, Do, Enabled;
    if steps != [] {
      QueueKeeps(s, steps[0]);
      RunKeepsQueue(Do(s, steps[0]), steps[1..]);
    }
  }

  lemma StuckIfStranded(s: State)
    requires BusyInv(s)
    ensures Stranded(s) <==> Waiting(s) != [] && forall step :: Enabled(s, step) ==> step == Post
  {
    hide Commands;
    if forall step :: Enabled(s, step) ==> step == Post {
      assert !Enabled(s, WakeUp) && !Enabled(s, CommStep) && !Enabled(s, Complete) && !Enabled(s, Check);
    }
  }

  /** Stranded is just this: commands wait and nothing moves until another one arrives. */
  lemma StrandedIsStuck(steps: seq<Step>)
    requires Legal(INIT, steps)
    ensures var s := After(INIT, steps);
      Stranded(s) <==> Waiting(s) != [] && forall step :: Enabled(s, step) ==> step == Post
  {
    InitInv();
    RunKeeps(INIT, steps);
    hide Legal, After, Stranded, Enabled, Waiting, BusyInv;
    StuckIfStranded(After(INIT, steps));
  }

  /** A run ends with commands stranded exactly if its last step is one of the two that strand. */
  lemma StrandedExactly(steps: seq<Step>)
    requires Legal(INIT, steps)
    ensures Stranded(After(INIT, steps)) <==>
      steps != [] && Legal(INIT, steps[..|steps| - 1]) && Strands(After(INIT, steps[..|steps| - 1]), steps[|steps| - 1])
  {
    if steps != [] {
      LastStep(INIT, steps);
      var before := steps[..|steps| - 1];
      InitInv();
      RunKeeps(INIT, before);
      RunKeepsQueue(INIT, before);
      StrandedByStep(After(INIT, before), steps[|steps| - 1]);
    }
  }

  /** The first way: command 1 is queued after the worker has cleared Busy and looked. */
  lemma QueuedTooLate()
    ensures Legal(INIT, [Post, CommStep, CommStep, Post, Complete, Check, CommStep])
    ensures var s := After(INIT, [Post, CommStep, CommStep, Post, Complete, Check, CommStep]);
      Stranded(s) && Waiting(s) == [1]
  {
  }

  const NULL_LEFT := State(Idle, true, [None], [2], 0, 0, 3, [0, 1, 2], {0, 1}, false)

  lemma NullLeft()
    ensures Legal(NULL_WAITS, [Complete, Check, WakeUp, CommStep, CommStep, CommStep])
    ensures After(NULL_WAITS, [Complete, Check, WakeUp, CommStep, CommStep, CommStep]) == NULL_LEFT
  {
  }

  lemma WakeUpSpent()
    ensures Legal(NULL_LEFT, [Post, CommStep, Complete, Check, WakeUp, CommStep, CommStep])
    ensures var s := After(NULL_LEFT, [Post, CommStep, Complete, Check, WakeUp, CommStep, CommStep]);
      Stranded(s) && Waiting(s) == [3]
  {
  }

  /** The second way: command 3 was queued in time, but its wake-up is spent on a null in front of it. */
  lemma WakeUpSpentOnNull() returns (steps: seq<Step>)
    ensures Legal(INIT, steps) && Stranded(After(INIT, steps)) && Waiting(After(INIT, steps)) == [3]
  {
    hide Legal, After;
    OneWaits();
    NullWaits();
    NullLeft();
    WakeUpSpent();
    steps := [Post, CommStep, CommStep, Post, CommStep, Complete, Check];
    RunOn(INIT, steps, [Post, CommStep, CommStep, CommStep, WakeUp, CommStep]);
    steps := steps + [Post, CommStep, CommStep, CommStep, WakeUp, CommStep];
    RunOn(INIT, steps, [Complete, Check, WakeUp, CommStep, CommStep, CommStep]);
    steps := steps + [Complete, Check, WakeUp, CommStep, CommStep, CommStep];
    RunOn(INIT, steps, [Post, CommStep, Complete, Check, WakeUp, CommStep, CommStep]);
    steps := steps + [Post, CommStep, Complete, Check, WakeUp, CommStep, CommStep];
  }
}
