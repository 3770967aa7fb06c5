/**
 The pool of message objects: a free list and a busy list (acacheSGA.cpp,
 adapt/adaptQ.cpp, adapt/adaptSharedQ.cpp, adapt/adaptFBSharedQ.cpp).

 Allocating moves an object from the free to the busy list, releasing moves it back, each in
 two separately locked steps, so that in between the object is only in the hands of the
 thread. Every thread of the server shares the pool, and an object is usually released by
 another thread than the one that allocated it.
 */
module Pool {
  /** An address: 0 is the null pointer, and `new` hands out 1, 2, 3 and so on. */
  type Ptr = nat

  const NULL: Ptr := 0

  /** How many messages the pool starts with, and by how many it grows. */
  const INIT_COUNT_GLOBAL_MSG: nat := 8000

  /** The two lists, and how many objects were created so far. */
  datatype Lists = Lists(free: seq<Ptr>, busy: seq<Ptr>, made: nat)

  /** list::remove: every element equal to p goes, the others keep their order. */
  function Without(q: seq<Ptr>, p: Ptr): (r: seq<Ptr>)
    ensures multiset(r) == multiset(q)[p := 0]
  {
    if q == [] then []
    else
      assert q == [q[0]] + q[1..];
      if q[0] == p then Without(q[1..], p) else [q[0]] + Without(q[1..], p)
  }

  /** The objects created after the first `made`, in the order of their creation. */
  function NewOnes(made: nat, count: nat): seq<Ptr> {
    seq(count, i => made + 1 + i)
  }

  // ---------------------------------------------------------------- the threads and their steps

  datatype Pc =
    | Outside
    | Got(p: Ptr)             // took the front of the free list, or null
    | Growing(left: nat)      // found the free list empty; `left` objects to create
    | Created(left: nat, p: Ptr)
    | Releasing(p: Ptr)       // before the removal from the busy list
    | Dropped(p: Ptr)         // removed from the busy list

  /** What only the thread itself knows about. */
  function Hand(pc: Pc): Ptr {
    match pc
    case Got(p) => p
    case Created(_, p) => p
    case Dropped(p) => p
    case _ => NULL
  }

  function Releases(pc: Pc): Ptr {
    if pc.Releasing? then pc.p else NULL
  }

  /** How many objects of its growth the thread has not yet created. */
  function Owes(pc: Pc): nat {
    match pc
    case Growing(left) => left
    case Created(left, _) => left
    case _ => 0
  }

  function Hands(pcs: seq<Pc>): seq<Ptr> {
    seq(|pcs|, t requires 0 <= t < |pcs| => Hand(pcs[t]))
  }

  function Releasers(pcs: seq<Pc>): seq<Ptr> {
    seq(|pcs|, t requires 0 <= t < |pcs| => Releases(pcs[t]))
  }

  function Owed(pcs: seq<Pc>): nat {
    if pcs == [] then 0 else Owes(pcs[0]) + Owed(pcs[1..])
  }

  /** `held` has one copy of p for each caller that was given p and has not released it. */
  datatype State = State(lists: Lists, held: multiset<Ptr>, pcs: seq<Pc>)

  datatype Step =
    | Allocate(t: nat)
    | Release(t: nat, p: Ptr)
    | Advance(t: nat)

  predicate Enabled(s: State, step: Step) {
    && step.t < |s.pcs|
    && (if step.Advance? then !s.pcs[step.t].Outside? else s.pcs[step.t].Outside?)
  }

  /** The pop of an allocation: the front of the free list, or null. */
  function Pop(s: State, t: nat): State
    requires t < |s.pcs|
  {
    if s.lists.free == [] then s.(pcs := s.pcs[t := Got(NULL)])
    else s.(lists := s.lists.(free := s.lists.free[1..]), pcs := s.pcs[t := Got(s.lists.free[0])])
  }

  function Do(s: State, step: Step): State
    requires Enabled(s, step)
  {
    var t := step.t;
    match step
    case Allocate(_) => Pop(s, t)
    case Release(_, p) => s.(held := s.held - multiset{p}, pcs := s.pcs[t := Releasing(p)])
    case Advance(_) =>
      match s.pcs[t]
      case Got(p) =>
        var u := s.(lists := s.lists.(busy := s.lists.busy + [p]));
        if p != NULL then u.(held := s.held + multiset{p}, pcs := s.pcs[t := Outside])
        else u.(pcs := s.pcs[t := Growing(INIT_COUNT_GLOBAL_MSG)])
      case Growing(left) =>
        if left == 0 then Pop(s, t)
        else
          s.(lists := s.lists.(made := s.lists.made + 1), pcs := s.pcs[t := Created(left - 1, s.lists.made + 1)])
      case Created(left, p) =>
        s.(lists := s.lists.(free := s.lists.free + [p]), pcs := s.pcs[t := Growing(left)])
      case Releasing(p) =>
        s.(lists := s.lists.(busy := Without(s.lists.busy, p)), pcs := s.pcs[t := Dropped(p)])
      case Dropped(p) =>
        s.(lists := s.lists.(free := s.lists.free + [p]), pcs := s.pcs[t := Outside])
  }

  /** Each held object is released once: a caller only releases what some caller holds. */
  predicate Disciplined(s: State, step: Step) {
    step.Release? ==> step.p in s.held
  }

  ghost predicate Legal(s: State, steps: seq<Step>)
    decreases |steps|
  {
    steps == [] || (Enabled(s, steps[0]) && Disciplined(s, steps[0]) && Legal(Do(s, steps[0]), steps[1..]))
  }

  ghost function After(s: State, steps: seq<Step>): State
    requires Legal(s, steps)
    decreases |steps|
  {
    if steps == [] then s else After(Do(s, steps[0]), steps[1..])
  }

  /** The constructor creates the first objects and puts them on the free list. */
  function Init(threads: nat): State {
    State(Lists(NewOnes(0, INIT_COUNT_GLOBAL_MSG), [], INIT_COUNT_GLOBAL_MSG), multiset{}, seq(threads, _ => Outside))
  }

  // ---------------------------------------------------------------- what callers hold

  /** What the allocations of a run return. */
  ghost function GivenOut(s: State, steps: seq<Step>): multiset<Ptr>
    requires Legal(s, steps)
    decreases |steps|
  {
    if steps == [] then multiset{}
    else
      var pc := s.pcs[steps[0].t];
      (if steps[0].Advance? && pc.Got? && pc.p != NULL then multiset{pc.p} else multiset{})
      + GivenOut(Do(s, steps[0]), steps[1..])
  }

  /** And what its releases are given. */
  function GivenBack(steps: seq<Step>): multiset<Ptr> {
    if steps == [] then multiset{}
    else (if steps[0].Release? then multiset{steps[0].p} else multiset{}) + GivenBack(steps[1..])
  }

  lemma HeldOnce(s: State, step: Step)
    requires Enabled(s, step) && Disciplined(s, step)
    ensures var pc := s.pcs[step.t];
      s.held + (if step.Advance? && pc.Got? && pc.p != NULL then multiset{pc.p} else multiset{})
      == Do(s, step).held + (if step.Release? then multiset{step.p} else multiset{})
  {
    hide Without;
  }

  lemma SumUp(h: multiset<Ptr>, x: multiset<Ptr>, more: multiset<Ptr>,
              t: multiset<Ptr>, y: multiset<Ptr>, back: multiset<Ptr>, e: multiset<Ptr>)
    requires h + x == t + y && t + more == e + back
    ensures h + (x + more) == e + (y + back)
  {
    forall p: Ptr ensures (h + (x + more))[p] == (e + (y + back))[p] {
      assert (h + x)[p] == (t + y)[p] && (t + more)[p] == (e + back)[p];
    }
  }

  lemma {:induction false} HeldInRun(s: State, steps: seq<Step>)
    requires Legal(s, steps)
    ensures s.held + GivenOut(s, steps) == After(s, steps).held + GivenBack(steps)
    decreases |steps|
  {
    if steps != [] {
      HeldOnce(s, steps[0]);
      var t, step, pc := Do(s, steps[0]), steps[0], s.pcs[steps[0].t];
      HeldInRun(t, steps[1..]);
      SumUp(s.held, if step.Advance? && pc.Got? && pc.p != NULL then multiset{pc.p} else multiset{}, GivenOut(t, steps[1..]),
            t.held, if step.Release? then multiset{step.p} else multiset{}, GivenBack(steps[1..]), After(t, steps[1..]).held);
      hide Do, Enabled;
    }
  }

  /** Callers hold what allocations have returned less what has been released. */
  lemma HeldIsReturnedNotReleased(threads: nat, steps: seq<Step>)
    requires Legal(Init(threads), steps)
    ensures GivenOut(Init(threads), steps) == After(Init(threads), steps).held + GivenBack(steps)
  {
    HeldInRun(Init(threads), steps);
    assert multiset{} + GivenOut(Init(threads), steps) == GivenOut(Init(threads), steps);
  }

  // ---------------------------------------------------------------- what every step keeps

  /** In how many places p is: free list, busy list, or a thread's hands. */
  function Places(s: State, p: Ptr): nat {
    multiset(s.lists.free)[p] + multiset(s.lists.busy)[p] + multiset(Hands(s.pcs))[p]
  }

  predicate Exists(s: State, p: Ptr) {
    NULL < p <= s.lists.made
  }

  /** p is in one place; and the busy list holds exactly what callers hold or are about to give back. */
  ghost predicate PtrInv(s: State, p: Ptr) {
    && Places(s, p) == One(Exists(s, p))
    && multiset(s.lists.busy)[p] == s.held[p] + multiset(Releasers(s.pcs))[p]
  }

  ghost predicate NullFree(s: State) {
    && NULL !in s.lists.free && NULL !in s.held
    && forall t :: 0 <= t < |s.pcs| ==> (s.pcs[t].Created? || s.pcs[t].Releasing? || s.pcs[t].Dropped?) ==> s.pcs[t].p != NULL
  }

  ghost predicate Inv(s: State) {
    NullFree(s) && forall p: Ptr :: p != NULL ==> PtrInv(s, p)
  }

  function One(b: bool): nat {
    if b then 1 else 0
  }

  lemma CountAfter(q: seq<Ptr>, t: nat, x: Ptr, p: Ptr)
    requires t < |q|
    ensures multiset(q[t := x])[p] == multiset(q)[p] - One(q[t] == p) + One(x == p)
  {
  }

  /** One thread moves: at most two pointers change their count. */
  lemma HandsAfter(pcs: seq<Pc>, t: nat, pc: Pc, p: Ptr)
    requires t < |pcs|
    ensures multiset(Hands(pcs[t := pc]))[p] == multiset(Hands(pcs))[p] - One(Hand(pcs[t]) == p) + One(Hand(pc) == p)
    ensures multiset(Releasers(pcs[t := pc]))[p]
         == multiset(Releasers(pcs))[p] - One(Releases(pcs[t]) == p) + One(Releases(pc) == p)
  {
    hide Hand, Releases, One;
    assert Hands(pcs[t := pc]) == Hands(pcs)[t := Hand(pc)] && Hands(pcs)[t] == Hand(pcs[t]);
    assert Releasers(pcs[t := pc]) == Releasers(pcs)[t := Releases(pc)] && Releasers(pcs)[t] == Releases(pcs[t]);
    hide Hands, Releasers;
    CountAfter(Hands(pcs), t, Hand(pc), p);
    CountAfter(Releasers(pcs), t, Releases(pc), p);
  }

  lemma PopKeeps(s: State, t: nat)
    requires Inv(s) && t < |s.pcs| && Hand(s.pcs[t]) == NULL && Releases(s.pcs[t]) == NULL
    ensures Inv(Pop(s, t))
  {
    hide Hands, Releasers;
    var u := Pop(s, t);
    if s.lists.free != [] {
      assert s.lists.free == [s.lists.free[0]] + u.lists.free;
    }
    forall p: Ptr | p != NULL ensures PtrInv(u, p) {
      assert PtrInv(s, p);
      HandsAfter(s.pcs, t, u.pcs[t], p);
    }
  }

  lemma PutBusyKeeps(s: State, t: nat)
    requires Inv(s) && t < |s.pcs| && s.pcs[t].Got? && s.pcs[t].p != NULL
    ensures Inv(Do(s, Advance(t)))
  {
    hide Hands, Releasers;
    var u := Do(s, Advance(t));
    forall p: Ptr | p != NULL ensures PtrInv(u, p) {
      assert PtrInv(s, p);
      HandsAfter(s.pcs, t, Outside, p);
    }
  }

  lemma PutNullBusyKeeps(s: State, t: nat)
    requires Inv(s) && t < |s.pcs| && s.pcs[t] == Got(NULL)
    ensures Inv(Do(s, Advance(t)))
  {
    hide Hands, Releasers;
    var u := Do(s, Advance(t));
    forall p: Ptr | p != NULL ensures PtrInv(u, p) {
      assert PtrInv(s, p);
      HandsAfter(s.pcs, t, u.pcs[t], p);
    }
  }

  lemma CreateKeeps(s: State, t: nat)
    requires Inv(s) && t < |s.pcs| && s.pcs[t].Growing? && s.pcs[t].left > 0
    ensures Inv(Do(s, Advance(t)))
  {
    hide Hands, Releasers;
    var u := Do(s, Advance(t));
    forall p: Ptr | p != NULL ensures PtrInv(u, p) {
      assert PtrInv(s, p);
      HandsAfter(s.pcs, t, u.pcs[t], p);
    }
  }

  lemma PutFreeKeeps(s: State, t: nat)
    requires Inv(s) && t < |s.pcs| && (s.pcs[t].Created? || s.pcs[t].Dropped?)
    ensures Inv(Do(s, Advance(t)))
  {
    hide Hands, Releasers;
    var u := Do(s, Advance(t));
    forall p: Ptr | p != NULL ensures PtrInv(u, p) {
      assert PtrInv(s, p);
      HandsAfter(s.pcs, t, u.pcs[t], p);
    }
  }

  /** What a thread is about to give back is on the busy list, once. */
  lemma ReleasedIsBusy(s: State, t: nat)
    requires Inv(s) && t < |s.pcs| && s.pcs[t].Releasing?
    ensures s.pcs[t].p != NULL && multiset(s.lists.busy)[s.pcs[t].p] == 1
  {
    assert Releasers(s.pcs)[t] == s.pcs[t].p;
    assert PtrInv(s, s.pcs[t].p);
  }

  lemma RemoveKeeps(s: State, t: nat)
    requires Inv(s) && t < |s.pcs| && s.pcs[t].Releasing?
    ensures Inv(Do(s, Advance(t)))
  {
    ReleasedIsBusy(s, t);
    hide Hands, Releasers;
    var u := Do(s, Advance(t));
    forall p: Ptr | p != NULL ensures PtrInv(u, p) {
      assert PtrInv(s, p);
      HandsAfter(s.pcs, t, u.pcs[t], p);
    }
  }

  lemma ReleaseKeeps(s: State, t: nat, p: Ptr)
    requires Inv(s) && t < |s.pcs| && s.pcs[t].Outside? && p in s.held
    ensures Inv(Do(s, Release(t, p)))
  {
    hide Hands, Releasers;
    var u := Do(s, Release(t, p));
    forall q: Ptr | q != NULL ensures PtrInv(u, q) {
      assert PtrInv(s, q);
      HandsAfter(s.pcs, t, Releasing(p), q);
    }
  }

  lemma StepKeeps(s: State, step: Step)
    requires Inv(s) && Enabled(s, step) && Disciplined(s, step)
    ensures Inv(Do(s, step))
  {
    hide Inv;
    var t := step.t;
    match step
    case Allocate(_) => PopKeeps(s, t);
    case Release(_, p) => ReleaseKeeps(s, t, p);
    case Advance(_) =>
      match s.pcs[t]
      case Got(p) => if p == NULL { PutNullBusyKeeps(s, t); } else { PutBusyKeeps(s, t); }
      case Growing(left) => if left == 0 { PopKeeps(s, t); } else { CreateKeeps(s, t); }
      case Created(_, _) => PutFreeKeeps(s, t);
      case Releasing(_) => RemoveKeeps(s, t);
      case Dropped(_) => PutFreeKeeps(s, t);
  }

  lemma {:induction false} RunKeeps(s: State, steps: seq<Step>)
    requires Inv(s) && Legal(s, steps)
    ensures Inv(After(s, steps))
    decreases |steps|
  {
    hide Inv, Do, Enabled, Disciplined;
    if steps != [] {
      StepKeeps(s, steps[0]);
      RunKeeps(Do(s, steps[0]), steps[1..]);
    }
  }

  lemma InitInv(threads: nat)
    ensures Inv(Init(threads))
  {
    var s := Init(threads);
    assert forall t :: 0 <= t < threads ==> Hands(s.pcs)[t] == NULL && Releasers(s.pcs)[t] == NULL;
    NewOnesAre(0, INIT_COUNT_GLOBAL_MSG);
  }

  lemma {:induction false} NewOnesAre(made: nat, count: nat)
    ensures forall p: Ptr :: multiset(NewOnes(made, count))[p] == One(made < p <= made + count)
  {
    if count > 0 {
      NewOnesAre(made, count - 1);
      assert NewOnes(made, count) == NewOnes(made, count - 1) + [made + count];
    } else {
      assert NewOnes(made, count) == [];
    }
  }

  // ---------------------------------------------------------------- conservation

  /**
   However the two-step allocations and releases interleave, every object is in exactly one
   place, no object has two owners, and what a caller holds is on the busy list alone.
   */
  lemma PoolIsConserved(threads: nat, steps: seq<Step>)
    requires Legal(Init(threads), steps)
    ensures var s := After(Init(threads), steps);
      && (forall p :: Exists(s, p) ==> Places(s, p) == 1)
      && (forall p :: p in s.held ==> s.held[p] == 1 && Exists(s, p) && multiset(s.lists.busy)[p] == 1
                                      && p !in s.lists.free && p !in Hands(s.pcs))
      && (forall t :: 0 <= t < |s.pcs| && s.pcs[t].Releasing? ==> s.pcs[t].p !in s.held)
      && NULL !in s.held && NULL !in s.lists.free
  {
    InitInv(threads);
    RunKeeps(Init(threads), steps);
    var s := After(Init(threads), steps);
    forall p | Exists(s, p)
      ensures Places(s, p) == 1
    {
      assert PtrInv(s, p);
    }
    forall p | p in s.held
      ensures s.held[p] == 1 && Exists(s, p) && multiset(s.lists.busy)[p] == 1
      ensures p !in s.lists.free && p !in Hands(s.pcs) && p !in Releasers(s.pcs)
    {
      assert PtrInv(s, p);
    }
    forall t | 0 <= t < |s.pcs| && s.pcs[t].Releasing?
      ensures s.pcs[t].p !in s.held
    {
      assert Releasers(s.pcs)[t] == s.pcs[t].p;
    }
  }

  /**
   An allocation returns an object that exists, that nobody holds, and that no other thread
   has in its hands or is about to give back.
   */
  lemma AllocationIsFresh(threads: nat, steps: seq<Step>, t: nat)
    requires Legal(Init(threads), steps)
    requires var s := After(Init(threads), steps); t < |s.pcs| && s.pcs[t].Got? && s.pcs[t].p != NULL
    ensures var s := After(Init(threads), steps);
      var p, u := s.pcs[t].p, Do(s, Advance(t));
      && Exists(s, p) && p !in s.held && u.pcs[t].Outside? && u.held == s.held + multiset{p}
      && forall l :: 0 <= l < |s.pcs| && l != t ==> Hand(s.pcs[l]) != p && Releases(s.pcs[l]) != p
  {
    InitInv(threads);
    RunKeeps(Init(threads), steps);
    var s := After(Init(threads), steps);
    var p := s.pcs[t].p;
    OnceInHands(s, t);
    forall l | 0 <= l < |s.pcs| && l != t
      ensures Hand(s.pcs[l]) != p && Releases(s.pcs[l]) != p
    {
      assert Releasers(s.pcs)[l] == Releases(s.pcs[l]) && Hands(s.pcs)[l] == Hand(s.pcs[l]);
    }
  }

  lemma OnceInHands(s: State, t: nat)
    requires Inv(s) && t < |s.pcs| && Hand(s.pcs[t]) != NULL
    ensures var p := Hand(s.pcs[t]);
      Exists(s, p) && p !in s.lists.free && p !in s.held && p !in Releasers(s.pcs)
    ensures forall l :: 0 <= l < |s.pcs| && l != t ==> Hands(s.pcs)[l] != Hand(s.pcs[t])
  {
    var p, hands := Hand(s.pcs[t]), Hands(s.pcs);
    assert hands[t] == p;
    assert PtrInv(s, p);
    assert multiset(hands)[p] >= 1;
    assert hands == hands[..t] + [p] + hands[t + 1..];
    assert p !in hands[..t] && p !in hands[t + 1..];
    forall l | 0 <= l < |hands| && l != t
      ensures hands[l] != p
    {
      assert if l < t then hands[l] in hands[..t] else hands[l] == hands[t + 1..][l - t - 1];
    }
  }

  /**
   Releasing each held object once is exactly what the pool needs: run alone, a release keeps
   the invariant if and only if some caller holds the object. A second release of the same
   object, of null, or of an address the pool never made leaves it broken.
   */
  lemma ReleaseIsExact(s: State, t: nat, p: Ptr)
    requires Inv(s) && t < |s.pcs| && s.pcs[t].Outside?
    ensures var u := Do(Do(Do(s, Release(t, p)), Advance(t)), Advance(t));
      && u.lists == Released(s.lists, p) && u.pcs == s.pcs
      && (Inv(u) <==> p in s.held)
  {
    var a := Do(s, Release(t, p));
    var b := Do(a, Advance(t));
    var u := Do(b, Advance(t));
    assert u == State(Released(s.lists, p), s.held - multiset{p}, s.pcs) by {
      assert u.pcs == s.pcs;
    }
    hide Do, Inv;
    if p in s.held {
      ReleaseKeeps(s, t, p);
      RemoveKeeps(a, t);
      PutFreeKeeps(b, t);
    } else {
      StrayReleaseBreaks(s, p);
      assert s.held - multiset{p} == s.held;
    }
  }

  lemma StrayReleaseBreaks(s: State, p: Ptr)
    requires Inv(s) && p !in s.held
    ensures !Inv(s.(lists := Released(s.lists, p)))
  {
    hide Hands, Releasers, Without;
    var u := s.(lists := Released(s.lists, p));
    assert u.lists.free[|s.lists.free|] == p;
    if p != NULL {
      assert PtrInv(s, p);
      assert Places(u, p) == Places(s, p) + 1 - multiset(s.lists.busy)[p];
      assert !PtrInv(u, p);
    }
  }

  // ---------------------------------------------------------------- run alone

  /** aSGARelease: off the busy list and onto the end of the free one. */
  function Released(l: Lists, p: Ptr): Lists {
    l.(busy := Without(l.busy, p), free := l.free + [p])
  }

  /** aMsgAllocate: the oldest free message, or the first of a new batch if there is none. */
  function Allocated(l: Lists): (Lists, Ptr) {
    if l.free != [] then (l.(free := l.free[1..], busy := l.busy + [l.free[0]]), l.free[0])
    else
      (Lists(NewOnes(l.made + 1, INIT_COUNT_GLOBAL_MSG - 1), l.busy + [NULL, l.made + 1], l.made + INIT_COUNT_GLOBAL_MSG),
       l.made + 1)
  }

  function Advances(t: nat, count: nat): seq<Step> {
    if count == 0 then [] else [Advance(t)] + Advances(t, count - 1)
  }

  lemma OneMore(s: State, step: Step, rest: seq<Step>)
    requires Enabled(s, step) && Disciplined(s, step)
    ensures Legal(s, [step] + rest) == Legal(Do(s, step), rest)
    ensures Legal(s, [step] + rest) ==> After(s, [step] + rest) == After(Do(s, step), rest)
  {
    assert ([step] + rest)[1..] == rest;
  }

  /** The thread creates a message and puts it on the free list. */
  lemma GrowsByOne(s: State, t: nat, left: nat)
    requires t < |s.pcs| && s.pcs[t] == Growing(left) && left > 0
    ensures var v := Do(Do(s, Advance(t)), Advance(t));
      v == s.(lists := Lists(s.lists.free + [s.lists.made + 1], s.lists.busy, s.lists.made + 1), pcs := s.pcs[t := Growing(left - 1)])
  {
  }

  /** With something on the free list, the thread takes the front object. */
  lemma TakesFront(s: State, t: nat, first: Step)
    requires Enabled(s, first) && first.t == t && (first.Allocate? || (first.Advance? && s.pcs[t] == Growing(0)))
    requires s.lists.free != [] && s.lists.free[0] != NULL
    ensures var p := s.lists.free[0];
      Do(Do(s, first), Advance(t)) ==
      State(s.lists.(free := s.lists.free[1..], busy := s.lists.busy + [p]), s.held + multiset{p}, s.pcs[t := Outside])
  {
  }

  /** The pool once the growth is over and the thread has taken the front object. */
  function Grown(s: State, t: nat, left: nat): State
    requires t < |s.pcs| && s.lists.free + NewOnes(s.lists.made, left) != []
  {
    var free := s.lists.free + NewOnes(s.lists.made, left);
    State(Lists(free[1..], s.lists.busy + [free[0]], s.lists.made + left), s.held + multiset{free[0]}, s.pcs[t := Outside])
  }

  lemma TwoMore(s: State, t: nat, rest: seq<Step>)
    requires Enabled(s, Advance(t)) && Enabled(Do(s, Advance(t)), Advance(t))
    ensures var v := Do(Do(s, Advance(t)), Advance(t));
      Legal(v, rest) ==> Legal(s, [Advance(t)] + ([Advance(t)] + rest)) && After(s, [Advance(t)] + ([Advance(t)] + rest)) == After(v, rest)
  {
    hide Do;
    OneMore(s, Advance(t), [Advance(t)] + rest);
    OneMore(Do(s, Advance(t)), Advance(t), rest);
  }

  lemma GrownAfterOne(s: State, t: nat, left: nat)
    requires t < |s.pcs| && s.pcs[t] == Growing(left) && left > 0
    ensures var v := Do(Do(s, Advance(t)), Advance(t));
      && v.pcs == s.pcs[t := Growing(left - 1)]
      && v.lists.free + NewOnes(v.lists.made, left - 1) == s.lists.free + NewOnes(s.lists.made, left) != []
      && Grown(v, t, left - 1) == Grown(s, t, left)
  {
    GrowsByOne(s, t, left);
    var v := Do(Do(s, Advance(t)), Advance(t));
    assert NewOnes(s.lists.made, left) == [s.lists.made + 1] + NewOnes(s.lists.made + 1, left - 1);
    assert v.lists.free + NewOnes(v.lists.made, left - 1) == s.lists.free + NewOnes(s.lists.made, left);
  }

  /** From inside the growth, the thread alone creates the rest and takes the front object. */
  lemma {:induction false} GrowthEnds(s: State, t: nat, left: nat)
    requires t < |s.pcs| && s.pcs[t] == Growing(left)
    requires var free := s.lists.free + NewOnes(s.lists.made, left); free != [] && free[0] != NULL
    ensures Legal(s, Advances(t, 2 * left + 2)) && After(s, Advances(t, 2 * left + 2)) == Grown(s, t, left)
    decreases left
  {
    var rest := Advances(t, 2 * left);
    assert Advances(t, 2 * left + 2) == [Advance(t)] + Advances(t, 2 * left + 1);
    assert Advances(t, 2 * left + 1) == [Advance(t)] + rest;
    TwoMore(s, t, rest);
    if left == 0 {
      assert s.lists.free + NewOnes(s.lists.made, left) == s.lists.free;
      TakesFront(s, t, Advance(t));
    } else {
      GrownAfterOne(s, t, left);
      hide Do, Enabled, Legal, After, Grown, NewOnes;
      GrowthEnds(Do(Do(s, Advance(t)), Advance(t)), t, left - 1);
    }
  }

  /** What a thread does between calling aMsgAllocate and its return, if no other thread moves. */
  function AllocateAlone(s: State, t: nat): seq<Step> {
    [Allocate(t)] + Advances(t, if s.lists.free != [] then 1 else 2 * INIT_COUNT_GLOBAL_MSG + 3)
  }

  /** Run alone, aMsgAllocate returns, never null, after one growth or none at all. */
  lemma AloneReturns(s: State, t: nat)
    requires Inv(s) && t < |s.pcs| && s.pcs[t].Outside?
    ensures Legal(s, AllocateAlone(s, t))
    ensures var (lists, p) := Allocated(s.lists);
      p != NULL && After(s, AllocateAlone(s, t)) == State(lists, s.held + multiset{p}, s.pcs)
  {
    var u := Do(s, Allocate(t));
    var v := Do(u, Advance(t));
    if s.lists.free != [] {
      assert Advances(t, 1) == [Advance(t)] + Advances(t, 0);
      OneMore(s, Allocate(t), Advances(t, 1));
      OneMore(u, Advance(t), Advances(t, 0));
      TakesFront(s, t, Allocate(t));
      assert s.pcs[t := Outside] == s.pcs;
    } else {
      GrowsAlone(s, t);
    }
  }

  lemma GrowsAlone(s: State, t: nat)
    requires Inv(s) && t < |s.pcs| && s.pcs[t].Outside? && s.lists.free == []
    ensures Legal(s, AllocateAlone(s, t))
    ensures var (lists, p) := Allocated(s.lists);
      p != NULL && After(s, AllocateAlone(s, t)) == State(lists, s.held + multiset{p}, s.pcs)
  {
    FindsNone(s, t);
    var v := Do(Do(s, Allocate(t)), Advance(t));
    GrowthEnds(v, t, INIT_COUNT_GLOBAL_MSG);
    StartsToGrow(s, t, Advances(t, 2 * INIT_COUNT_GLOBAL_MSG + 2));
  }

  lemma FindsNone(s: State, t: nat)
    requires t < |s.pcs| && s.pcs[t].Outside? && s.lists.free == []
    ensures var v := Do(Do(s, Allocate(t)), Advance(t));
      && v.pcs == s.pcs[t := Growing(INIT_COUNT_GLOBAL_MSG)]
      && v.lists.free + NewOnes(v.lists.made, INIT_COUNT_GLOBAL_MSG) == NewOnes(s.lists.made, INIT_COUNT_GLOBAL_MSG)
      && var (lists, p) := Allocated(s.lists);
         Grown(v, t, INIT_COUNT_GLOBAL_MSG) == State(lists, s.held + multiset{p}, s.pcs)
  {
    var v := Do(Do(s, Allocate(t)), Advance(t));
    var n, first := INIT_COUNT_GLOBAL_MSG, s.lists.made + 1;
    assert v == s.(lists := s.lists.(busy := s.lists.busy + [NULL]), pcs := s.pcs[t := Growing(n)]);
    assert NewOnes(s.lists.made, n) == [first] + NewOnes(first, n - 1);
    assert v.lists.free + NewOnes(s.lists.made, n) == [first] + NewOnes(first, n - 1);
    assert v.pcs[t := Outside] == s.pcs;
    assert s.lists.busy + [NULL] + [first] == s.lists.busy + [NULL, first];
  }

  lemma StartsToGrow(s: State, t: nat, rest: seq<Step>)
    requires t < |s.pcs| && s.pcs[t].Outside? && s.lists.free == []
    requires rest == Advances(t, 2 * INIT_COUNT_GLOBAL_MSG + 2)
    ensures var v := Do(Do(s, Allocate(t)), Advance(t));
      Legal(v, rest) ==> Legal(s, AllocateAlone(s, t)) && After(s, AllocateAlone(s, t)) == After(v, rest)
  {
    assert Advances(t, 2 * INIT_COUNT_GLOBAL_MSG + 3) == [Advance(t)] + rest;
    hide Advances;
    OneMore(s, Allocate(t), [Advance(t)] + rest);
    OneMore(Do(s, Allocate(t)), Advance(t), rest);
  }

  /** A release puts back what the allocation took, at the other end of the free list. */
  lemma ReleaseAfterAllocate(l: Lists)
    requires l.free != [] && l.free[0] !in l.busy
    ensures var (m, p) := Allocated(l); Released(m, p) == l.(free := l.free[1..] + [l.free[0]])
  {
    WithoutAbsent(l.busy, l.free[0]);
  }

  lemma {:induction false} WithoutAbsent(q: seq<Ptr>, p: Ptr)
    requires p !in q
    ensures Without(q, p) == q && Without(q + [p], p) == q
  {
    if q != [] {
      assert p !in q[1..];
      assert (q + [p])[0] == q[0] && (q + [p])[1..] == q[1..] + [p];
      WithoutAbsent(q[1..], p);
    } else {
      assert [p][1..] == [];
    }
  }

  // ---------------------------------------------------------------- nulls on the busy list

  lemma {:induction false} OwedAfter(pcs: seq<Pc>, t: nat, pc: Pc)
    requires t < |pcs|
    ensures Owed(pcs[t := pc]) == Owed(pcs) - Owes(pcs[t]) + Owes(pc)
  {
    if t == 0 {
      assert pcs[t := pc][1..] == pcs[1..];
    } else {
      assert pcs[t := pc][1..] == pcs[1..][t - 1 := pc];
      OwedAfter(pcs[1..], t - 1, pc);
    }
  }

  /** The nulls on the busy list count the growths that were begun. */
  predicate NullsCountGrowths(s: State) {
    s.lists.made + Owed(s.pcs) == INIT_COUNT_GLOBAL_MSG * (1 + multiset(s.lists.busy)[NULL])
  }

  lemma NullsAfter(s: State, step: Step)
    requires NullFree(s) && Enabled(s, step) && Disciplined(s, step)
    ensures multiset(Do(s, step).lists.busy)[NULL]
         == multiset(s.lists.busy)[NULL] + One(step.Advance? && s.pcs[step.t] == Got(NULL))
  {
  }

  /** A thread that moves creates what it no longer owes, or begins a growth. */
  ghost predicate MadeAsOwed(s: State, u: State, t: nat, grows: bool) {
    && t < |s.pcs| && |u.pcs| == |s.pcs| && u.pcs == s.pcs[t := u.pcs[t]]
    && u.lists.made + Owes(u.pcs[t]) == s.lists.made + Owes(s.pcs[t]) + if grows then INIT_COUNT_GLOBAL_MSG else 0
  }

  lemma MadeAfterCall(s: State, step: Step)
    requires Enabled(s, step) && !step.Advance?
    ensures MadeAsOwed(s, Do(s, step), step.t, false)
  {
  }

  lemma MadeAfterAdvance(s: State, t: nat)
    requires Enabled(s, Advance(t))
    ensures MadeAsOwed(s, Do(s, Advance(t)), t, s.pcs[t] == Got(NULL))
  {
    hide Without;
  }

  lemma StepCounts(s: State, step: Step)
    requires Inv(s) && NullsCountGrowths(s) && Enabled(s, step) && Disciplined(s, step)
    ensures NullsCountGrowths(Do(s, step))
  {
    NullsAfter(s, step);
    if step.Advance? {
      MadeAfterAdvance(s, step.t);
    } else {
      MadeAfterCall(s, step);
    }
    hide Owed, PtrInv, NullFree, Do, Owes;
    OwedAfter(s.pcs, step.t, Do(s, step).pcs[step.t]);
  }

  lemma {:induction false} RunCounts(s: State, steps: seq<Step>)
    requires Inv(s) && NullsCountGrowths(s) && Legal(s, steps)
    ensures NullsCountGrowths(After(s, steps))
    decreases |steps|
  {
    hide Inv, Do, Enabled, Disciplined, NullsCountGrowths;
    if steps != [] {
      StepKeeps(s, steps[0]);
      StepCounts(s, steps[0]);
      RunCounts(Do(s, steps[0]), steps[1..]);
    }
  }

  lemma {:induction false} NoneOwe(threads: nat)
    ensures Owed(Init(threads).pcs) == 0
  {
    if threads > 0 {
      assert Init(threads).pcs[1..] == Init(threads - 1).pcs;
      NoneOwe(threads - 1);
    }
  }

  /**
   An allocation that finds the free list empty leaves a null on the busy list, and no
   release ever takes one away: there is one for each growth begun.
   */
  lemma NullsStayOnTheBusyList(threads: nat, steps: seq<Step>)
    requires Legal(Init(threads), steps)
    ensures NullsCountGrowths(After(Init(threads), steps))
  {
    InitInv(threads);
    NoneOwe(threads);
    RunCounts(Init(threads), steps);
  }

  // ---------------------------------------------------------------- the classes

  /** adaptQ, and adaptSharedQ, which takes its mutex around each of these methods. */
  class Queue {
    var list: seq<Ptr>

    constructor ()
      ensures list == []
    {
      list := [];
    }

    method Put(p: Ptr)
      modifies this
      ensures list == old(list) + [p]
    {
      list := list + [p];
    }

    method Get() returns (p: Ptr)
      modifies this
      ensures old(list) == [] ==> p == NULL && list == []
      ensures old(list) != [] ==> old(list) == [p] + list
    {
      p := NULL;
      if list != [] {
        p := list[0];
        list := list[1..];
      }
    }

    method Remove(p: Ptr)
      modifies this
      ensures list == Without(old(list), p)
    {
      list := Without(list, p);
    }

    method Empty() returns (e: bool)
      ensures e <==> forall p :: p !in list
    {
      e := list == [];
      assert !e ==> list[0] in list;
    }

    /** The first element the test accepts, or null. */
    method FindPtr(test: (Ptr, int) -> bool, x: int) returns (p: Ptr)
      ensures (p == NULL && forall k :: 0 <= k < |list| ==> !test(list[k], x))
           || (exists k :: 0 <= k < |list| && list[k] == p && test(p, x) && forall l :: 0 <= l < k ==> !test(list[l], x))
    {
      for i := 0 to |list|
        invariant forall k :: 0 <= k < i ==> !test(list[k], x)
      {
        p := list[i];
        if test(p, x) {
          return p;
        }
      }
      p := NULL;
    }
  }

  /** adaptFBSharedQ of the messages, and the methods of acacheSGA that move them. */
  class MessagePool {
    const FreeQ: Queue
    const BusyQ: Queue
    /** How many messages `new` has handed out. */
    var made: nat

    ghost predicate Valid()
      reads this, FreeQ, BusyQ
    {
      FreeQ != BusyQ && NULL !in FreeQ.list
    }

    ghost function View(): Lists
      reads this, FreeQ, BusyQ
    {
      Lists(FreeQ.list, BusyQ.list, made)
    }

    constructor ()
      ensures Valid() && fresh(FreeQ) && fresh(BusyQ)
      ensures View() == Init(0).lists
    {
      FreeQ := new Queue();
      BusyQ := new Queue();
      made := 0;
      new;
      Grow();
      assert [] + NewOnes(0, INIT_COUNT_GLOBAL_MSG) == NewOnes(0, INIT_COUNT_GLOBAL_MSG);
    }

    /** The loop that creates a batch of messages and puts each on the free list. */
    method Grow()
      requires Valid()
      modifies this`made, FreeQ
      ensures Valid()
      ensures View() == Lists(old(FreeQ.list) + NewOnes(old(made), INIT_COUNT_GLOBAL_MSG), old(BusyQ.list),
                              old(made) + INIT_COUNT_GLOBAL_MSG)
    {
      for i := 0 to INIT_COUNT_GLOBAL_MSG
        invariant Valid() && made == old(made) + i
        invariant FreeQ.list == old(FreeQ.list) + NewOnes(old(made), i)
      {
        made := made + 1;
        FreeQ.Put(made);
        assert NewOnes(old(made), i + 1) == NewOnes(old(made), i) + [old(made) + 1 + i];
      }
    }

    /** aSGAAllocate: what it pops, null included, goes onto the busy list. */
    method Allocate() returns (p: Ptr)
      requires Valid()
      modifies FreeQ, BusyQ
      ensures Valid() && BusyQ.list == old(BusyQ.list) + [p]
      ensures old(FreeQ.list) == (if p == NULL then [] else [p]) + FreeQ.list
      ensures p == NULL ==> FreeQ.list == []
    {
      p := FreeQ.Get();
      BusyQ.Put(p);
    }

    /** aSGARelease */
    method Release(p: Ptr)
      requires Valid()
      modifies FreeQ, BusyQ
      ensures View() == Released(old(View()), p)
      ensures p != NULL ==> Valid()
    {
      BusyQ.Remove(p);
      FreeQ.Put(p);
    }

    /** aMsgAllocate: it tries again after a growth, and the second try never fails. */
    method MsgAllocate() returns (p: Ptr)
      requires Valid()
      modifies this`made, FreeQ, BusyQ
      ensures Valid() && p != NULL && (View(), p) == Allocated(old(View()))
    {
      p := Allocate();
      while p == NULL
        invariant Valid()
        invariant p != NULL ==> (View(), p) == Allocated(old(View()))
        invariant p == NULL ==> old(FreeQ.list) == [] && View() == old(View()).(busy := old(BusyQ.list) + [NULL])
        decreases p == NULL
      {
        Grow();
        ghost var batch := FreeQ.list;
        assert batch == NewOnes(old(made), INIT_COUNT_GLOBAL_MSG);
        assert batch[1..] == NewOnes(old(made) + 1, INIT_COUNT_GLOBAL_MSG - 1);
        p := Allocate();
        assert p == batch[0] == old(made) + 1 && FreeQ.list == batch[1..];
        assert old(BusyQ.list) + [NULL] + [p] == old(BusyQ.list) + [NULL, p];
      }
    }
  }
}
