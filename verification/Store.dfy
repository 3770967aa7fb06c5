/**
 The sharded store as a machine of atomic steps: comm threads post commands to two worker
 queues, each worker takes a command, reads the bucket head without a lock, takes the lock
 of the bucket's stripe, walks and changes the chain, unlocks, and after a successful get
 writes the reply's line end into the node it found.

 A run is a sequence of steps; every interleaving is one. Which worker a command goes to is
 a parameter, so that what the routing must do for the unlocked read to be safe is a theorem.
 */
module Store {
  import opened Bytes
  import opened Chain

  const HASH_POWER: nat := 16
  const HASH_SIZE: nat := 0x1_0000
  const NUM_CORES: nat := 2

  // The table is built with the power of the intended lock ratio, 7, as its ratio, so it
  // has 2^(16 - 2) locks.
  const LOCK_POWER: nat := 14

  function BucketOf(hashval: nat): (b: nat)
    ensures b == hashval % HASH_SIZE < HASH_SIZE
  {
    MaskIsRemainder(hashval, HASH_POWER);
    HashSizeIsPower();
    BitAnd(hashval, HASH_SIZE - 1)
  }

  lemma HashSizeIsPower()
    ensures HASH_SIZE == Pow2(HASH_POWER)
  {
    assert Pow2(4) == 16;
    assert Pow2(8) == 256;
    assert Pow2(12) == 4096;
  }

  function LockOf(bucket: nat): nat {
    BitAnd(bucket, Pow2(LOCK_POWER) - 1)
  }

  /** The worker queue that every routing site picks for a hash value. */
  function Route(hashval: nat): nat {
    if BucketOf(hashval) <= HASH_SIZE / NUM_CORES then 0 else 1
  }

  datatype Config = Config(hash: seq<byte> -> nat, route: nat -> nat) {
    function Bucket(k: seq<byte>): nat {
      BucketOf(hash(k))
    }

    function Worker(k: seq<byte>): nat {
      route(hash(k)) % NUM_CORES
    }

    function Buckets(): seq<byte> -> nat {
      k => Bucket(k)
    }

    /** Commands on one bucket all go to one worker. */
    ghost predicate OneOwner() {
      forall j, k :: Bucket(j) == Bucket(k) ==> Worker(j) == Worker(k)
    }

    ghost function Owner(b: nat): nat {
      if exists k :: Bucket(k) == b && Worker(k) == 1 then 1 else 0
    }
  }

  /** A node and the address that tells it from every other. */
  datatype Cell = Cell(id: nat, entry: Entry)

  datatype Pc =
    | Idle
    | Fetched(op: Op)
    | HeadRead(op: Op, head: Option<nat>)
    | Locked(op: Op, head: Option<nat>)
    | Replying(op: Op, node: nat)

  /** posted and served are the commands sent to this worker and those it is done with. */
  datatype Worker = Worker(posted: seq<Op>, queue: seq<Op>, pc: Pc, served: seq<Op>, answers: seq<Option<seq<byte>>>)

  /** wild: some worker has followed a pointer to a freed node. */
  datatype State = State(table: seq<seq<Cell>>, workers: seq<Worker>, nextId: nat, wild: bool)

  datatype Step =
    | Post(op: Op)
    | Fetch(w: nat)
    | ReadHead(w: nat)
    | Lock(w: nat)
    | Access(w: nat)
    | Reply(w: nat)

  predicate Shaped(s: State) {
    |s.table| == HASH_SIZE && |s.workers| == NUM_CORES
  }

  function Init(): (s: State)
    ensures Shaped(s)
  {
    State(seq(HASH_SIZE, _ => []), [Worker([], [], Idle, [], []), Worker([], [], Idle, [], [])], 0, false)
  }

  function Entries(cells: seq<Cell>): (e: seq<Entry>)
    ensures |e| == |cells| && forall i :: 0 <= i < |e| ==> e[i] == cells[i].entry
  {
    seq(|cells|, i requires 0 <= i < |cells| => cells[i].entry)
  }

  function Head(cells: seq<Cell>): Option<nat> {
    if cells == [] then None else Some(cells[0].id)
  }

  /** A stripe's lock admits one writer or any number of readers. */
  predicate LockFree(c: Config, s: State, w: nat, op: Op)
    requires Shaped(s)
  {
    forall v | 0 <= v < NUM_CORES && v != w && s.workers[v].pc.Locked? ::
      LockOf(c.Bucket(s.workers[v].pc.op.key)) == LockOf(c.Bucket(op.key)) ==> s.workers[v].pc.op.Get? && op.Get?
  }

  predicate Enabled(c: Config, s: State, step: Step)
    requires Shaped(s)
  {
    match step
    case Post(op) => true
    case Fetch(w) => w < NUM_CORES && s.workers[w].pc.Idle? && s.workers[w].queue != []
    case ReadHead(w) => w < NUM_CORES && s.workers[w].pc.Fetched?
    case Lock(w) => w < NUM_CORES && s.workers[w].pc.HeadRead? && LockFree(c, s, w, s.workers[w].pc.op)
    case Access(w) => w < NUM_CORES && s.workers[w].pc.Locked?
    case Reply(w) => w < NUM_CORES && s.workers[w].pc.Replying?
  }

  /** A worker that is done with the command in its hands. */
  function Finish(w: Worker, op: Op): Worker {
    w.(pc := Idle, served := w.served + [op])
  }

  /** The walk over the nodes seen, and what it does. */
  function AccessFrom(c: Config, s: State, w: nat, seen: seq<Cell>): (t: State)
    requires Shaped(s) && w < NUM_CORES && s.workers[w].pc.Locked?
    ensures Shaped(t)
  {
    var me := s.workers[w];
    var op := me.pc.op;
    var m := FirstMatch(Entries(seen), op.key);
    match op
    case Set(k, v) =>
      var cell := Cell(s.nextId, Entry(k, v, false));
      var after := if m < |seen| then seen[m := cell] else seen + [cell];
      s.(table := s.table[c.Bucket(k) := after],
         nextId := s.nextId + 1,
         workers := s.workers[w := Finish(me, op).(answers := me.answers + [None])])
    case Get(k) =>
      if m < |seen| then
        s.(workers := s.workers[w := me.(pc := Replying(op, seen[m].id), answers := me.answers + [Some(seen[m].entry.value)])])
      else
        s.(workers := s.workers[w := Finish(me, op).(answers := me.answers + [None])])
  }

  /**
   The access starts from the head that was read earlier. With a head of null a set installs
   its node as the whole chain, whatever the bucket holds by now. A head that is no longer
   the bucket's first node has been freed.
   */
  function DoAccess(c: Config, s: State, w: nat): (t: State)
    requires Shaped(s) && w < NUM_CORES && s.workers[w].pc.Locked?
    ensures Shaped(t)
  {
    var me := s.workers[w];
    var op, head := me.pc.op, me.pc.head;
    var cells := s.table[c.Bucket(op.key)];
    if head == None then AccessFrom(c, s, w, [])
    else if head == Head(cells) then AccessFrom(c, s, w, cells)
    else s.(wild := true, workers := s.workers[w := Finish(me, op).(answers := me.answers + [None])])
  }

  /** The place of a node in a chain, or the chain's length. */
  function Find(cells: seq<Cell>, id: nat): (i: nat)
    ensures i <= |cells| && (i < |cells| ==> cells[i].id == id)
    ensures forall j :: 0 <= j < i ==> cells[j].id != id
  {
    if cells == [] || cells[0].id == id then 0 else 1 + Find(cells[1..], id)
  }

  function DoReply(c: Config, s: State, w: nat): (t: State)
    requires Shaped(s) && w < NUM_CORES && s.workers[w].pc.Replying?
    ensures Shaped(t)
  {
    var me := s.workers[w];
    var b := c.Bucket(me.pc.op.key);
    var cells := s.table[b];
    var i := Find(cells, me.pc.node);
    var done := s.workers[w := Finish(me, me.pc.op)];
    if i == |cells| then
      s.(wild := true, workers := done)
    else
      s.(table := s.table[b := cells[i := cells[i].(entry := cells[i].entry.(crlf := true))]], workers := done)
  }

  function Do(c: Config, s: State, step: Step): (t: State)
    requires Shaped(s) && Enabled(c, s, step)
    ensures Shaped(t)
  {
    match step
    case Post(op) =>
      var w := c.Worker(op.key);
      var it := s.workers[w];
      s.(workers := s.workers[w := it.(posted := it.posted + [op], queue := it.queue + [op])])
    case Fetch(w) =>
      var me := s.workers[w];
      s.(workers := s.workers[w := me.(pc := Fetched(me.queue[0]), queue := me.queue[1..])])
    case ReadHead(w) =>
      var me := s.workers[w];
      s.(workers := s.workers[w := me.(pc := HeadRead(me.pc.op, Head(s.table[c.Bucket(me.pc.op.key)])))])
    case Lock(w) =>
      var me := s.workers[w];
      s.(workers := s.workers[w := me.(pc := Locked(me.pc.op, me.pc.head))])
    case Access(w) => DoAccess(c, s, w)
    case Reply(w) => DoReply(c, s, w)
  }

  /** The states that a run goes through, none if a step is not enabled. */
  predicate Legal(c: Config, s: State, steps: seq<Step>)
    requires Shaped(s)
    decreases |steps|
  {
    steps == [] || (Enabled(c, s, steps[0]) && Legal(c, Do(c, s, steps[0]), steps[1..]))
  }

  function After(c: Config, s: State, steps: seq<Step>): (t: State)
    requires Shaped(s) && Legal(c, s, steps)
    ensures Shaped(t)
    decreases |steps|
  {
    if steps == [] then s else After(c, Do(c, s, steps[0]), steps[1..])
  }

  // ---------------------------------------------------------------- the invariant

  /** The command in a worker's hands. */
  function InHand(pc: Pc): seq<Op> {
    if pc.Idle? then [] else [pc.op]
  }

  /** The head that a worker read is still the head of its bucket. */
  ghost predicate Fresh(c: Config, s: State, w: nat)
    requires Shaped(s) && w < NUM_CORES
  {
    var pc := s.workers[w].pc;
    pc.HeadRead? || pc.Locked? ==> pc.head == Head(s.table[c.Bucket(pc.op.key)])
  }

  /** What the chain of a bucket would answer after serving the commands before the i-th. */
  ghost function Sequential(c: Config, posted: seq<Op>, i: nat): Option<seq<byte>> {
    if i < |posted| && posted[i].Get? then
      Lookup(RunOps(OpsIn(posted[..i], c.Buckets(), c.Bucket(posted[i].key))), posted[i].key)
    else
      None
  }

  ghost predicate WorkerInv(c: Config, s: State, w: nat)
    requires Shaped(s) && w < NUM_CORES
  {
    var me := s.workers[w];
    && me.posted == me.served + InHand(me.pc) + me.queue
    && (forall i :: 0 <= i < |me.posted| ==> c.Worker(me.posted[i].key) == w)
    && |me.answers| == |me.served| + (if me.pc.Replying? then 1 else 0)
    && (forall i :: 0 <= i < |me.answers| ==> me.answers[i] == Sequential(c, me.posted, i))
    && Fresh(c, s, w)
    && (me.pc.Replying? ==>
          var cells := s.table[c.Bucket(me.pc.op.key)];
          var m := FirstMatch(Entries(cells), me.pc.op.key);
          me.pc.op.Get? && m < |cells| && cells[m].id == me.pc.node)
  }

  ghost predicate BucketInv(c: Config, s: State, b: nat)
    requires Shaped(s) && b < HASH_SIZE
  {
    var cells := s.table[b];
    && Entries(cells) == RunOps(OpsIn(s.workers[c.Owner(b)].served, c.Buckets(), b))
    && (forall i :: 0 <= i < |cells| ==> cells[i].id < s.nextId)
    && (forall i, j :: 0 <= i < j < |cells| ==> cells[i].id != cells[j].id)
  }

  ghost predicate Inv(c: Config, s: State) {
    && Shaped(s) && !s.wild
    && (forall w :: 0 <= w < NUM_CORES ==> WorkerInv(c, s, w))
    && (forall b :: 0 <= b < HASH_SIZE ==> BucketInv(c, s, b))
  }

  // ---------------------------------------------------------------- every step keeps it

  lemma OwnerIsWorker(c: Config, k: seq<byte>)
    requires c.OneOwner()
    ensures c.Owner(c.Bucket(k)) == c.Worker(k)
  {
  }

  lemma PostKeeps(c: Config, s: State, op: Op)
    requires Inv(c, s)
    ensures Inv(c, Do(c, s, Post(op)))
  {
    hide Sequential, BucketOf, OpsIn, RunOps, FirstMatch;
    var t := Do(c, s, Post(op));
    var w := c.Worker(op.key);
    var me, me' := s.workers[w], t.workers[w];
    assert WorkerInv(c, s, w);
    forall i | 0 <= i < |me'.answers| ensures me'.answers[i] == Sequential(c, me'.posted, i) {
      SequentialPrefix(c, me.posted, me'.posted, i);
    }
    assert WorkerInv(c, t, w);
    assert forall v :: 0 <= v < NUM_CORES && v != w ==> WorkerInv(c, s, v) ==> WorkerInv(c, t, v);
    assert forall b :: 0 <= b < HASH_SIZE ==> BucketInv(c, s, b) ==> BucketInv(c, t, b);
  }

  lemma SequentialPrefix(c: Config, some: seq<Op>, all: seq<Op>, i: nat)
    requires some <= all && i < |some|
    ensures Sequential(c, some, i) == Sequential(c, all, i)
  {
    assert some[..i] == all[..i];
  }

  /** A step after which one worker is elsewhere in the code, with the same commands before it. */
  lemma PcKeeps(c: Config, s: State, w: nat, me': Worker)
    requires Inv(c, s) && w < NUM_CORES && !me'.pc.Replying? && !s.workers[w].pc.Replying?
    requires var me := s.workers[w];
      && me' == me.(pc := me'.pc, queue := me'.queue)
      && InHand(me'.pc) + me'.queue == InHand(me.pc) + me.queue
    requires Fresh(c, s.(workers := s.workers[w := me']), w)
    ensures Inv(c, s.(workers := s.workers[w := me']))
  {
    hide Sequential, BucketOf, OpsIn, RunOps, FirstMatch, Head, Entries;
    var me, t := s.workers[w], s.(workers := s.workers[w := me']);
    forall v | 0 <= v < NUM_CORES ensures WorkerInv(c, t, v) {
      assert WorkerInv(c, s, v);
      assert me.served + InHand(me.pc) + me.queue == me.served + (InHand(me.pc) + me.queue);
      assert me.served + InHand(me'.pc) + me'.queue == me.served + (InHand(me'.pc) + me'.queue);
    }
    forall b | 0 <= b < HASH_SIZE ensures BucketInv(c, t, b) {
      assert BucketInv(c, s, b);
    }
  }

  /** Taking a command, reading the head and taking the lock change nothing but the worker's pc. */
  lemma PrepareKeeps(c: Config, s: State, step: Step)
    requires Inv(c, s) && Enabled(c, s, step) && (step.Fetch? || step.ReadHead? || step.Lock?)
    ensures Inv(c, Do(c, s, step))
  {
    assert WorkerInv(c, s, step.w);
    hide Inv, WorkerInv, BucketOf, LockFree;
    PcKeeps(c, s, step.w, Do(c, s, step).workers[step.w]);
  }

  /**
   A step that changes one bucket and finishes one command: what is left to show is that the
   bucket's new chain is the old one with the command applied.
   */
  lemma ServedKeeps(c: Config, s: State, t: State, w: nat, op: Op)
    requires c.OneOwner() && Inv(c, s) && Shaped(t) && !t.wild && w < NUM_CORES
    requires InHand(s.workers[w].pc) == [op]
    requires var b := c.Bucket(op.key);
      && t.table == s.table[b := t.table[b]] && t.nextId >= s.nextId
      && Entries(t.table[b]) == Apply(Entries(s.table[b]), op)
      && (forall i :: 0 <= i < |t.table[b]| ==> t.table[b][i].id < t.nextId)
      && (forall i, j :: 0 <= i < j < |t.table[b]| ==> t.table[b][i].id != t.table[b][j].id)
    requires t.workers == s.workers[w := t.workers[w]]
    requires var me, me' := s.workers[w], t.workers[w];
      && me' == Finish(me, op).(answers := me'.answers)
      && |me'.answers| == |me.served| + 1
      && forall i :: 0 <= i < |me'.answers| ==> me'.answers[i] == Sequential(c, me.posted, i)
    ensures Inv(c, t)
  {
    hide Sequential, BucketOf, OpsIn, RunOps, FirstMatch, Apply;
    var b := c.Bucket(op.key);
    assert WorkerInv(c, s, w);
    assert s.workers[w].posted[|s.workers[w].served|] == op;
    OwnerIsWorker(c, op.key);
    forall v | 0 <= v < NUM_CORES
      ensures WorkerInv(c, t, v)
    {
      assert WorkerInv(c, s, v);
      if v != w && !s.workers[v].pc.Idle? {
        var k := s.workers[v].pc.op.key;
        assert s.workers[v].posted[|s.workers[v].served|].key == k;
        assert c.Bucket(k) != b;
      }
    }
    forall a | 0 <= a < HASH_SIZE
      ensures BucketInv(c, t, a)
    {
      assert BucketInv(c, s, a);
      RunOneMore(s.workers[w].served, op, c.Buckets(), a);
    }
  }

  /** With a fresh head the walk sees the bucket's chain. */
  lemma FreshAccess(c: Config, s: State, w: nat)
    requires Inv(c, s) && Enabled(c, s, Access(w))
    ensures Do(c, s, Access(w)) == AccessFrom(c, s, w, s.table[c.Bucket(s.workers[w].pc.op.key)])
  {
    assert WorkerInv(c, s, w);
  }

  lemma SetKeeps(c: Config, s: State, w: nat, k: seq<byte>, v: seq<byte>)
    requires c.OneOwner() && Inv(c, s) && Enabled(c, s, Access(w)) && s.workers[w].pc.op == Set(k, v)
    ensures Inv(c, Do(c, s, Access(w)))
  {
    hide BucketOf, OpsIn, RunOps, FirstMatch, Do, Head;
    var t := Do(c, s, Access(w));
    var me := s.workers[w];
    FreshAccess(c, s, w);
    assert WorkerInv(c, s, w) && BucketInv(c, s, c.Bucket(k));
    assert me.posted[|me.served|] == me.pc.op;
    assert Sequential(c, me.posted, |me.served|) == None;
    assert Entries(t.table[c.Bucket(k)]) == Put(Entries(s.table[c.Bucket(k)]), Entry(k, v, false));
    hide Sequential, Entries;
    ServedKeeps(c, s, t, w, me.pc.op);
  }

  /** What a get is about to answer is what the chain would after the commands served so far. */
  lemma GetIsSequential(c: Config, s: State, w: nat, k: seq<byte>)
    requires c.OneOwner() && Inv(c, s) && Enabled(c, s, Access(w)) && s.workers[w].pc.op == Get(k)
    ensures var me := s.workers[w];
      && |me.answers| == |me.served| < |me.posted| && me.posted[|me.served|] == Get(k)
      && Sequential(c, me.posted, |me.served|) == Lookup(Entries(s.table[c.Bucket(k)]), k)
  {
    var me := s.workers[w];
    assert WorkerInv(c, s, w) && BucketInv(c, s, c.Bucket(k));
    assert me.posted[|me.served|] == me.pc.op && me.posted[..|me.served|] == me.served;
    OwnerIsWorker(c, k);
  }

  /** The worker after a get that found the node at m. */
  function Answered(me: Worker, k: seq<byte>, found: Cell): Worker {
    me.(pc := Replying(Get(k), found.id), answers := me.answers + [Some(found.entry.value)])
  }

  lemma GetHitKeeps(c: Config, s: State, w: nat, k: seq<byte>)
    requires c.OneOwner() && Inv(c, s) && Enabled(c, s, Access(w)) && s.workers[w].pc.op == Get(k)
    requires FirstMatch(Entries(s.table[c.Bucket(k)]), k) < |s.table[c.Bucket(k)]|
    ensures Inv(c, Do(c, s, Access(w)))
  {
    GetIsSequential(c, s, w, k);
    FreshAccess(c, s, w);
    hide FirstMatch, BucketInv, WorkerInv, Do, Sequential;
    AnsweredKeeps(c, s, w, k, FirstMatch(Entries(s.table[c.Bucket(k)]), k));
  }

  lemma AnsweredKeeps(c: Config, s: State, w: nat, k: seq<byte>, m: nat)
    requires Inv(c, s) && w < NUM_CORES && s.workers[w].pc.Locked? && s.workers[w].pc.op == Get(k)
    requires m == FirstMatch(Entries(s.table[c.Bucket(k)]), k) < |s.table[c.Bucket(k)]|
    requires Sequential(c, s.workers[w].posted, |s.workers[w].answers|) == Some(s.table[c.Bucket(k)][m].entry.value)
    ensures Inv(c, s.(workers := s.workers[w := Answered(s.workers[w], k, s.table[c.Bucket(k)][m])]))
  {
    hide BucketOf, OpsIn, RunOps, FirstMatch, Head, Sequential, Entries;
    var t := s.(workers := s.workers[w := Answered(s.workers[w], k, s.table[c.Bucket(k)][m])]);
    forall v | 0 <= v < NUM_CORES ensures WorkerInv(c, t, v) {
      assert WorkerInv(c, s, v);
    }
    forall a | 0 <= a < HASH_SIZE ensures BucketInv(c, t, a) {
      assert BucketInv(c, s, a);
    }
  }

  lemma GetMissKeeps(c: Config, s: State, w: nat, k: seq<byte>)
    requires c.OneOwner() && Inv(c, s) && Enabled(c, s, Access(w)) && s.workers[w].pc.op == Get(k)
    requires FirstMatch(Entries(s.table[c.Bucket(k)]), k) == |s.table[c.Bucket(k)]|
    ensures Inv(c, Do(c, s, Access(w)))
  {
    GetIsSequential(c, s, w, k);
    FreshAccess(c, s, w);
    hide FirstMatch, BucketInv, WorkerInv, Do, Sequential;
    MissedKeeps(c, s, w, k);
  }

  /** The state after a get that found nothing. */
  function Missed(s: State, w: nat, k: seq<byte>): (t: State)
    requires Shaped(s) && w < NUM_CORES
    ensures Shaped(t)
  {
    var me := s.workers[w];
    s.(workers := s.workers[w := Finish(me, Get(k)).(answers := me.answers + [None])])
  }

  ghost predicate Misses(c: Config, s: State, w: nat, k: seq<byte>) {
    && Inv(c, s) && w < NUM_CORES && s.workers[w].pc.Locked? && s.workers[w].pc.op == Get(k)
    && FirstMatch(Entries(s.table[c.Bucket(k)]), k) == |s.table[c.Bucket(k)]|
    && Sequential(c, s.workers[w].posted, |s.workers[w].answers|) == None
  }

  lemma MissedKeepsWorker(c: Config, s: State, w: nat, k: seq<byte>, v: nat)
    requires Misses(c, s, w, k) && v < NUM_CORES
    ensures WorkerInv(c, Missed(s, w, k), v)
  {
    hide BucketOf, FirstMatch, Head, Sequential, Entries, BucketInv;
    assert WorkerInv(c, s, v) && WorkerInv(c, s, w);
    assert s.workers[w].posted[|s.workers[w].served|] == Get(k);
  }

  lemma MissChangesNothing(chain: seq<Entry>, k: seq<byte>)
    requires FirstMatch(chain, k) == |chain|
    ensures Apply(chain, Get(k)) == chain
  {
  }

  lemma MissedKeepsBucket(c: Config, s: State, w: nat, k: seq<byte>, b: nat)
    requires c.OneOwner() && Misses(c, s, w, k) && b < HASH_SIZE
    ensures BucketInv(c, Missed(s, w, k), b)
  {
    var me := s.workers[w];
    MissChangesNothing(Entries(s.table[c.Bucket(k)]), k);
    hide BucketOf, OpsIn, RunOps, FirstMatch, Head, Sequential, Entries, Apply;
    assert WorkerInv(c, s, w) && BucketInv(c, s, b);
    assert me.posted[|me.served|] == Get(k);
    hide Inv, WorkerInv;
    OwnerIsWorker(c, k);
    RunOneMore(me.served, Get(k), c.Buckets(), b);
  }

  lemma MissedKeeps(c: Config, s: State, w: nat, k: seq<byte>)
    requires c.OneOwner() && Misses(c, s, w, k)
    ensures Inv(c, Missed(s, w, k))
  {
    hide WorkerInv, BucketInv;
    forall v | 0 <= v < NUM_CORES ensures WorkerInv(c, Missed(s, w, k), v) {
      MissedKeepsWorker(c, s, w, k, v);
    }
    forall b | 0 <= b < HASH_SIZE ensures BucketInv(c, Missed(s, w, k), b) {
      MissedKeepsBucket(c, s, w, k, b);
    }
  }

  lemma ReplyKeeps(c: Config, s: State, w: nat)
    requires c.OneOwner() && Inv(c, s) && Enabled(c, s, Reply(w))
    ensures Inv(c, Do(c, s, Reply(w)))
  {
    hide BucketOf, OpsIn, RunOps, FirstMatch;
    var t := Do(c, s, Reply(w));
    var me := s.workers[w];
    var op := me.pc.op;
    var b := c.Bucket(op.key);
    assert WorkerInv(c, s, w) && BucketInv(c, s, b);
    assert Entries(t.table[b]) == MarkReplied(Entries(s.table[b]), op.key);
    ServedKeeps(c, s, t, w, op);
  }

  lemma StepKeeps(c: Config, s: State, step: Step)
    requires c.OneOwner() && Inv(c, s) && Enabled(c, s, step)
    ensures Inv(c, Do(c, s, step))
  {
    match step
    case Post(op) => PostKeeps(c, s, op);
    case Access(w) =>
      match s.workers[w].pc.op {
        case Set(k, v) => SetKeeps(c, s, w, k, v);
        case Get(k) =>
          if FirstMatch(Entries(s.table[c.Bucket(k)]), k) < |s.table[c.Bucket(k)]| {
            GetHitKeeps(c, s, w, k);
          } else {
            GetMissKeeps(c, s, w, k);
          }
      }
    case Reply(w) => ReplyKeeps(c, s, w);
    case _ => PrepareKeeps(c, s, step);
  }

  lemma InitInv(c: Config)
    ensures Inv(c, Init())
  {
  }

  lemma {:induction false} RunKeeps(c: Config, s: State, steps: seq<Step>)
    requires c.OneOwner() && Shaped(s) && Inv(c, s) && Legal(c, s, steps)
    ensures Inv(c, After(c, s, steps))
    decreases |steps|
  {
    hide Inv, Enabled, Do;
    if steps != [] {
      StepKeeps(c, s, steps[0]);
      RunKeeps(c, Do(c, s, steps[0]), steps[1..]);
    }
  }

  // ---------------------------------------------------------------- results over all runs

  /** The commands that the posts of a run send to a worker, in order. */
  function Sent(c: Config, steps: seq<Step>, w: nat): seq<Op> {
    if steps == [] then []
    else
      (if steps[0].Post? && c.Worker(steps[0].op.key) == w then [steps[0].op] else []) + Sent(c, steps[1..], w)
  }

  /** A worker is sent what is posted to it, and nothing else. */
  lemma {:induction false} PostedIsSent(c: Config, s: State, steps: seq<Step>, w: nat)
    requires Shaped(s) && Legal(c, s, steps) && w < NUM_CORES
    ensures After(c, s, steps).workers[w].posted == s.workers[w].posted + Sent(c, steps, w)
    decreases |steps|
  {
    hide BucketOf, FirstMatch;
    if steps != [] {
      PostedIsSent(c, Do(c, s, steps[0]), steps[1..], w);
      PostedOnce(c, s, steps[0], w);
    }
  }

  lemma PostedOnce(c: Config, s: State, step: Step, w: nat)
    requires Shaped(s) && Enabled(c, s, step) && w < NUM_CORES
    ensures Do(c, s, step).workers[w].posted
         == s.workers[w].posted + if step.Post? && c.Worker(step.op.key) == w then [step.op] else []
  {
    hide BucketOf, FirstMatch, Find;
  }

  lemma AnswerIsLastSet(c: Config, s: State, w: nat, i: nat)
    requires Shaped(s) && w < NUM_CORES && WorkerInv(c, s, w)
    ensures var me := s.workers[w];
      && |me.answers| <= |me.posted|
      && (i < |me.answers| && me.posted[i].Get? && Suitable(me.posted[..i + 1], c.Buckets()) ==>
            me.answers[i] == LastSet(me.posted[..i], me.posted[i].key))
  {
    var me := s.workers[w];
    if i < |me.answers| && me.posted[i].Get? && Suitable(me.posted[..i + 1], c.Buckets()) {
      SuitablePrefix(me.posted[..i + 1], i, c.Buckets());
      assert me.posted[..i + 1][..i] == me.posted[..i];
      BucketRefinesMap(me.posted[..i], c.Buckets(), me.posted[i].key);
    }
  }

  /**
   In every interleaving of posts and worker steps, the i-th command sent to a worker, if it
   is a get and has been answered, was answered with the value of the last set of its key
   sent to that worker before it; and no worker ever follows a pointer to a freed node.
   */
  lemma StoreLinearizes(c: Config, steps: seq<Step>, w: nat, i: nat)
    requires c.OneOwner() && Legal(c, Init(), steps) && w < NUM_CORES
    ensures !After(c, Init(), steps).wild
    ensures var answers, sent := After(c, Init(), steps).workers[w].answers, Sent(c, steps, w);
      && |answers| <= |sent|
      && (i < |answers| && sent[i].Get? && Suitable(sent[..i + 1], c.Buckets()) ==>
            answers[i] == LastSet(sent[..i], sent[i].key))
  {
    InitInv(c);
    RunKeeps(c, Init(), steps);
    PostedIsSent(c, Init(), steps, w);
    var s := After(c, Init(), steps);
    hide Legal, After, Sent, WorkerInv, BucketInv, LastSet, Suitable;
    assert s.workers[w].posted == Sent(c, steps, w);
    AnswerIsLastSet(c, s, w, i);
  }

  /** Nothing is lost, repeated or reordered between what a worker is sent and what it has served. */
  lemma CommandsAreServedInOrder(c: Config, steps: seq<Step>, w: nat)
    requires c.OneOwner() && Legal(c, Init(), steps) && w < NUM_CORES
    ensures var me := After(c, Init(), steps).workers[w];
      Sent(c, steps, w) == me.served + InHand(me.pc) + me.queue
  {
    InitInv(c);
    RunKeeps(c, Init(), steps);
    PostedIsSent(c, Init(), steps, w);
    assert WorkerInv(c, After(c, Init(), steps), w);
  }

  // ---------------------------------------------------------------- the locks

  /** No two workers are in one stripe at once, unless both only read. */
  predicate Exclusive(c: Config, s: State)
    requires Shaped(s)
  {
    forall v, w | 0 <= v < NUM_CORES && 0 <= w < NUM_CORES && v != w && s.workers[v].pc.Locked? && s.workers[w].pc.Locked? ::
      LockOf(c.Bucket(s.workers[v].pc.op.key)) == LockOf(c.Bucket(s.workers[w].pc.op.key)) ==>
        s.workers[v].pc.op.Get? && s.workers[w].pc.op.Get?
  }

  function WithLock(s: State, w: nat): State
    requires Shaped(s) && w < NUM_CORES && s.workers[w].pc.HeadRead?
  {
    var me := s.workers[w];
    s.(workers := s.workers[w := me.(pc := Locked(me.pc.op, me.pc.head))])
  }

  /** A lock is granted exactly when that keeps the workers apart. */
  lemma LockGrantedExactly(c: Config, s: State, w: nat)
    requires Shaped(s) && Exclusive(c, s) && w < NUM_CORES && s.workers[w].pc.HeadRead?
    ensures Enabled(c, s, Lock(w)) <==> Exclusive(c, WithLock(s, w))
  {
    hide BucketOf, LockOf;
    if Enabled(c, s, Lock(w)) {
      assert forall v :: 0 <= v < NUM_CORES && v != w ==> WithLock(s, w).workers[v] == s.workers[v];
    } else {
      var v :| 0 <= v < NUM_CORES && v != w && s.workers[v].pc.Locked?
        && LockOf(c.Bucket(s.workers[v].pc.op.key)) == LockOf(c.Bucket(s.workers[w].pc.op.key))
        && !(s.workers[v].pc.op.Get? && s.workers[w].pc.op.Get?);
      assert WithLock(s, w).workers[v] == s.workers[v] && WithLock(s, w).workers[w].pc.Locked?;
    }
  }

  lemma {:induction false} StripesExclude(c: Config, s: State, steps: seq<Step>)
    requires Shaped(s) && Exclusive(c, s) && Legal(c, s, steps)
    ensures Exclusive(c, After(c, s, steps))
    decreases |steps|
  {
    if steps != [] {
      StepExcludes(c, s, steps[0]);
      hide Exclusive, Enabled, Do;
      StripesExclude(c, Do(c, s, steps[0]), steps[1..]);
    }
  }

  lemma StepExcludes(c: Config, s: State, step: Step)
    requires Shaped(s) && Exclusive(c, s) && Enabled(c, s, step)
    ensures Exclusive(c, Do(c, s, step))
  {
    hide BucketOf, LockOf, FirstMatch, Find;
    var t := Do(c, s, step);
    if step.Lock? {
      LockGrantedExactly(c, s, step.w);
    } else {
      assert forall v :: 0 <= v < NUM_CORES && t.workers[v].pc.Locked? ==> s.workers[v].pc == t.workers[v].pc;
    }
  }

  /** Each lock is shared by the four buckets that leave one remainder. */
  lemma StripesOfFour(a: nat, b: nat)
    requires a < HASH_SIZE && b < HASH_SIZE
    ensures LockOf(a) == LockOf(b) <==> a % (HASH_SIZE / 4) == b % (HASH_SIZE / 4)
  {
    MaskIsRemainder(a, LOCK_POWER);
    MaskIsRemainder(b, LOCK_POWER);
    assert Pow2(4) == 16;
    assert Pow2(8) == 256;
    assert Pow2(12) == 4096;
    assert Pow2(14) == 16384;
  }

  // ---------------------------------------------------------------- every command can be served

  /** How many steps a worker is from having nothing to do. */
  function Ahead(me: Worker): nat {
    5 * |me.queue| + match me.pc
                     case Idle => 0
                     case Fetched(_) => 4
                     case HeadRead(_, _) => 3
                     case Locked(_, _) => 2
                     case Replying(_, _) => 1
  }

  /** The next step of a worker that has something to do and does not wait for a lock. */
  function Next(s: State, w: nat): Step
    requires Shaped(s) && w < NUM_CORES
  {
    match s.workers[w].pc
    case Idle => Fetch(w)
    case Fetched(_) => ReadHead(w)
    case HeadRead(_, _) => Lock(w)
    case Locked(_, _) => Access(w)
    case Replying(_, _) => Reply(w)
  }

  lemma NextIsNearer(c: Config, s: State, w: nat)
    requires Shaped(s) && w < NUM_CORES && Enabled(c, s, Next(s, w))
    ensures var t := Do(c, s, Next(s, w));
      Ahead(t.workers[w]) < Ahead(s.workers[w]) && t.workers == s.workers[w := t.workers[w]]
  {
    hide BucketOf, FirstMatch, LockOf;
    match s.workers[w].pc
    case Locked(_, _) => AccessIsNearer(c, s, w);
    case Replying(_, _) =>
      hide Find;
      assert DoReply(c, s, w).workers[w].pc.Idle?;
    case _ => hide DoAccess, DoReply;
  }

  lemma AccessIsNearer(c: Config, s: State, w: nat)
    requires Shaped(s) && w < NUM_CORES && s.workers[w].pc.Locked?
    ensures var t := DoAccess(c, s, w);
      && t.workers == s.workers[w := t.workers[w]] && t.workers[w].queue == s.workers[w].queue
      && (t.workers[w].pc.Idle? || t.workers[w].pc.Replying?)
  {
    hide BucketOf, FirstMatch, Entries;
  }

  /** Of workers with something to do one can always go on: the holder of a lock never waits. */
  lemma SomeoneGoesOn(c: Config, s: State) returns (w: nat)
    requires Shaped(s) && (Ahead(s.workers[0]) > 0 || Ahead(s.workers[1]) > 0)
    ensures w < NUM_CORES && Enabled(c, s, Next(s, w))
  {
    hide BucketOf, LockOf;
    w := if Ahead(s.workers[0]) == 0 || s.workers[1].pc.Locked? then 1 else 0;
  }

  /** Only a worker that is about to lock ever waits; and commands can be posted at any time. */
  lemma OnlyLocksBlock(c: Config, s: State, w: nat, op: Op)
    requires Shaped(s) && w < NUM_CORES
    ensures Enabled(c, s, Post(op))
    ensures Ahead(s.workers[w]) > 0 && !s.workers[w].pc.HeadRead? ==> Enabled(c, s, Next(s, w))
  {
  }

  /** Left alone, the workers serve everything that they have been sent. */
  lemma WorkersFinish(c: Config, s: State) returns (rest: seq<Step>)
    requires Shaped(s)
    ensures Legal(c, s, rest) && forall k :: 0 <= k < |rest| ==> !rest[k].Post?
    ensures forall w :: 0 <= w < NUM_CORES ==> Ahead(After(c, s, rest).workers[w]) == 0
    decreases Ahead(s.workers[0]) + Ahead(s.workers[1])
  {
    if Ahead(s.workers[0]) == 0 && Ahead(s.workers[1]) == 0 {
      rest := [];
    } else {
      var w := SomeoneGoesOn(c, s);
      NextIsNearer(c, s, w);
      hide Enabled, Do, Ahead;
      var more := WorkersFinish(c, Do(c, s, Next(s, w)));
      LegalCons(c, s, Next(s, w), more);
      rest := [Next(s, w)] + more;
    }
  }

  lemma {:induction false} LegalOn(c: Config, s: State, steps: seq<Step>, more: seq<Step>)
    requires Shaped(s) && Legal(c, s, steps) && Legal(c, After(c, s, steps), more)
    ensures Legal(c, s, steps + more) && After(c, s, steps + more) == After(c, After(c, s, steps), more)
    decreases |steps|
  {
    hide Enabled, Do;
    if steps == [] {
      assert steps + more == more;
    } else {
      assert (steps + more)[1..] == steps[1..] + more;
      LegalOn(c, Do(c, s, steps[0]), steps[1..], more);
    }
  }

  lemma {:induction false} NothingSent(c: Config, steps: seq<Step>, more: seq<Step>, w: nat)
    requires forall k :: 0 <= k < |more| ==> !more[k].Post?
    ensures Sent(c, steps + more, w) == Sent(c, steps, w)
    decreases |steps| + |more|
  {
    if steps != [] {
      assert (steps + more)[1..] == steps[1..] + more;
      NothingSent(c, steps[1..], more, w);
    } else if more != [] {
      assert steps + more == more && [] + more[1..] == more[1..];
      NothingSent(c, [], more[1..], w);
    }
  }

  /** From every reachable state the workers can finish, having served exactly what they were sent, in order. */
  lemma AllCanBeServed(c: Config, steps: seq<Step>) returns (rest: seq<Step>)
    requires c.OneOwner() && Legal(c, Init(), steps)
    ensures Legal(c, Init(), steps + rest) && forall k :: 0 <= k < |rest| ==> !rest[k].Post?
    ensures forall w :: 0 <= w < NUM_CORES ==> After(c, Init(), steps + rest).workers[w].served == Sent(c, steps, w)
  {
    rest := WorkersFinish(c, After(c, Init(), steps));
    LegalOn(c, Init(), steps, rest);
    forall w | 0 <= w < NUM_CORES
      ensures After(c, Init(), steps + rest).workers[w].served == Sent(c, steps, w)
    {
      CommandsAreServedInOrder(c, steps + rest, w);
      NothingSent(c, steps, rest, w);
    }
  }

  ghost predicate NeverStale(c: Config) {
    forall steps :: Legal(c, Init(), steps) ==>
      Fresh(c, After(c, Init(), steps), 0) && Fresh(c, After(c, Init(), steps), 1)
  }

  /** One owner per bucket is exactly what the unlocked read of the head needs. */
  lemma OneOwnerIsExact(c: Config)
    ensures NeverStale(c) <==> c.OneOwner()
  {
    if c.OneOwner() {
      forall steps | Legal(c, Init(), steps)
        ensures Fresh(c, After(c, Init(), steps), 0) && Fresh(c, After(c, Init(), steps), 1)
      {
        InitInv(c);
        RunKeeps(c, Init(), steps);
        assert WorkerInv(c, After(c, Init(), steps), 0) && WorkerInv(c, After(c, Init(), steps), 1);
      }
    } else {
      var j, k :| c.Bucket(j) == c.Bucket(k) && c.Worker(j) != c.Worker(k);
      var steps := StaleRun(c, j, k);
    }
  }

  lemma LegalCons(c: Config, s: State, step: Step, rest: seq<Step>)
    requires Shaped(s) && Enabled(c, s, step) && Legal(c, Do(c, s, step), rest)
    ensures Legal(c, s, [step] + rest) && After(c, s, [step] + rest) == After(c, Do(c, s, step), rest)
  {
    assert ([step] + rest)[1..] == rest;
  }

  /** A key matches a node that stores it, whatever bytes it has. */
  lemma {:induction false} PrefixCompares(q: seq<byte>, t: seq<byte>)
    requires q <= t && 0 in t
    ensures StrncmpEqual(q, t, |q|)
  {
    if q != [] && q[0] != 0 {
      assert 0 in t[1..];
      assert q[1..] <= t[1..];
      PrefixCompares(q[1..], t[1..]);
    }
  }

  /** The chain after a set of k to no value, with a new node. */
  function Installed(cells: seq<Cell>, k: seq<byte>, id: nat): seq<Cell> {
    var m, cell := FirstMatch(Entries(cells), k), Cell(id, Entry(k, [], false));
    if m < |cells| then cells[m := cell] else cells + [cell]
  }

  lemma NoSteps(c: Config, s: State)
    requires Shaped(s)
    ensures Legal(c, s, []) && After(c, s, []) == s
  {
  }

  /** A worker is sent a set, and reads the head of its bucket. */
  lemma HeadTaken(c: Config, s: State, k: seq<byte>) returns (steps: seq<Step>)
    requires Shaped(s) && s.workers[c.Worker(k)].pc.Idle? && s.workers[c.Worker(k)].queue == []
    ensures Legal(c, s, steps)
    ensures var t, y := After(c, s, steps), c.Worker(k);
      && t.table == s.table && t.nextId == s.nextId && t.workers == s.workers[y := t.workers[y]]
      && t.workers[y].pc == HeadRead(Set(k, []), Head(s.table[c.Bucket(k)])) && t.workers[y].queue == []
  {
    hide BucketOf, Legal, After;
    var y := c.Worker(k);
    var s1 := Do(c, s, Post(Set(k, [])));
    var s2 := Do(c, s1, Fetch(y));
    var s3 := Do(c, s2, ReadHead(y));
    NoSteps(c, s3);
    LegalCons(c, s2, ReadHead(y), []);
    steps := [ReadHead(y)] + [];
    LegalCons(c, s1, Fetch(y), steps);
    steps := [Fetch(y)] + steps;
    LegalCons(c, s, Post(Set(k, [])), steps);
    steps := [Post(Set(k, []))] + steps;
  }

  /** With the lock free and the head current, the set is served. */
  lemma SetAccess(c: Config, s: State, k: seq<byte>) returns (steps: seq<Step>)
    requires Shaped(s) && !s.workers[0].pc.Locked? && !s.workers[1].pc.Locked?
    requires s.workers[c.Worker(k)].pc == HeadRead(Set(k, []), Head(s.table[c.Bucket(k)]))
    ensures Legal(c, s, steps)
    ensures var t, b, x := After(c, s, steps), c.Bucket(k), c.Worker(k);
      && t.table == s.table[b := Installed(s.table[b], k, s.nextId)] && t.nextId == s.nextId + 1
      && t.workers == s.workers[x := t.workers[x]] && t.workers[x].pc.Idle? && t.workers[x].queue == s.workers[x].queue
  {
    hide BucketOf, FirstMatch, LockOf, Legal, After, Entries;
    var x := c.Worker(k);
    var s1 := Do(c, s, Lock(x));
    var s2 := Do(c, s1, Access(x));
    NoSteps(c, s2);
    LegalCons(c, s1, Access(x), []);
    steps := [Access(x)] + [];
    LegalCons(c, s, Lock(x), steps);
    steps := [Lock(x)] + steps;
  }

  /** A worker is sent a set and serves it, while the other one holds no lock. */
  lemma SetServed(c: Config, s: State, k: seq<byte>) returns (steps: seq<Step>)
    requires Shaped(s) && !s.workers[0].pc.Locked? && !s.workers[1].pc.Locked?
    requires s.workers[c.Worker(k)].pc.Idle? && s.workers[c.Worker(k)].queue == []
    ensures Legal(c, s, steps)
    ensures var t, b, x := After(c, s, steps), c.Bucket(k), c.Worker(k);
      && t.table == s.table[b := Installed(s.table[b], k, s.nextId)] && t.nextId == s.nextId + 1
      && t.workers == s.workers[x := t.workers[x]] && t.workers[x].pc.Idle? && t.workers[x].queue == []
  {
    hide BucketOf, Legal, After, Installed;
    steps := HeadTaken(c, s, k);
    var more := SetAccess(c, After(c, s, steps), k);
    LegalOn(c, s, steps, more);
    steps := steps + more;
  }

  /** With a head that is no longer the bucket's, the access that follows goes to a freed node. */
  lemma StaleAccess(c: Config, s: State, y: nat) returns (steps: seq<Step>)
    requires Shaped(s) && y < NUM_CORES && !s.workers[0].pc.Locked? && !s.workers[1].pc.Locked?
    requires s.workers[y].pc.HeadRead? && s.workers[y].pc.head.Some?
    requires s.workers[y].pc.head != Head(s.table[c.Bucket(s.workers[y].pc.op.key)])
    ensures Legal(c, s, steps) && After(c, s, steps).wild
  {
    hide BucketOf, Legal, After;
    var s1 := Do(c, s, Lock(y));
    var s2 := Do(c, s1, Access(y));
    NoSteps(c, s2);
    LegalCons(c, s1, Access(y), []);
    steps := [Access(y)] + [];
    LegalCons(c, s, Lock(y), steps);
    steps := [Lock(y)] + steps;
  }

  /** The failing run: a worker reads the head of an empty bucket, and another one sets a key of that bucket. */
  lemma StaleRun(c: Config, j: seq<byte>, k: seq<byte>) returns (steps: seq<Step>)
    requires c.Bucket(j) == c.Bucket(k) && c.Worker(j) != c.Worker(k)
    ensures Legal(c, Init(), steps) && !Fresh(c, After(c, Init(), steps), c.Worker(k))
  {
    assert Installed([], j, 0) == [Cell(0, Entry(j, [], false))];
    hide BucketOf, FirstMatch, LockOf, Legal, After, Installed;
    steps := HeadTaken(c, Init(), k);
    var s := After(c, Init(), steps);
    var more := SetServed(c, s, j);
    LegalOn(c, Init(), steps, more);
    steps := steps + more;
  }

  /** The step goes to a node that a worker has found or read the address of, and that is not there any more. */
  predicate FollowsFreed(c: Config, s: State, step: Step)
    requires Shaped(s) && Enabled(c, s, step)
  {
    (step.Access? || step.Reply?) &&
    var pc := s.workers[step.w].pc;
    var cells := s.table[c.Bucket(pc.op.key)];
    if step.Access? then pc.head.Some? && (cells == [] || cells[0].id != pc.head.value)
    else forall i :: 0 <= i < |cells| ==> cells[i].id != pc.node
  }

  /** What wild records is exactly that. */
  lemma WildIsFollowingFreed(c: Config, s: State, step: Step)
    requires Shaped(s) && Enabled(c, s, step)
    ensures Do(c, s, step).wild <==> s.wild || FollowsFreed(c, s, step)
  {
    hide BucketOf, FirstMatch, Entries;
  }

  /** Setting the only key of a bucket again replaces its node. */
  lemma OnlyCellReplaced(j: seq<byte>)
    ensures var e := Entry(j, [], false);
      Installed([], j, 0) == [Cell(0, e)] && Installed([Cell(0, e)], j, 1) == [Cell(1, e)]
  {
    var e := Entry(j, [], false);
    assert StoredBytes(e)[..|j|] == j;
    PrefixCompares(j, StoredBytes(e));
    assert Entries([Cell(0, e)]) == [e];
  }

  /** From a bucket of one node: the other worker reads its address, the node is replaced and freed, and then accessed. */
  lemma HeadReplaced(c: Config, s: State, j: seq<byte>, k: seq<byte>) returns (steps: seq<Step>)
    requires Shaped(s) && s.nextId == 1 && c.Bucket(j) == c.Bucket(k) && c.Worker(j) != c.Worker(k)
    requires forall w :: 0 <= w < NUM_CORES ==> s.workers[w].pc.Idle? && s.workers[w].queue == []
    requires s.table[c.Bucket(k)] == [Cell(0, Entry(j, [], false))]
    ensures Legal(c, s, steps) && After(c, s, steps).wild
  {
    OnlyCellReplaced(j);
    hide BucketOf, FirstMatch, LockOf, Legal, After, Installed, Do;
    var taken := HeadTaken(c, s, k);
    var s1 := After(c, s, taken);
    var replaced := SetServed(c, s1, j);
    var s2 := After(c, s1, replaced);
    var access := StaleAccess(c, s2, c.Worker(k));
    LegalOn(c, s1, replaced, access);
    LegalOn(c, s, taken, replaced + access);
    steps := taken + (replaced + access);
  }

  /** The other failing run: the node whose address a worker has read is replaced and freed before it gets the lock. */
  lemma WildRun(c: Config, j: seq<byte>, k: seq<byte>) returns (steps: seq<Step>)
    requires c.Bucket(j) == c.Bucket(k) && c.Worker(j) != c.Worker(k)
    ensures Legal(c, Init(), steps) && After(c, Init(), steps).wild
  {
    OnlyCellReplaced(j);
    hide BucketOf, FirstMatch, LockOf, Legal, After, Installed, Do;
    steps := SetServed(c, Init(), j);
    var more := HeadReplaced(c, After(c, Init(), steps), j, k);
    LegalOn(c, Init(), steps, more);
    steps := steps + more;
  }

  /** And it is exactly what keeps the workers off freed nodes. */
  lemma NeverWildExactly(c: Config)
    ensures (forall steps :: Legal(c, Init(), steps) ==> !After(c, Init(), steps).wild) <==> c.OneOwner()
  {
    if c.OneOwner() {
      forall steps | Legal(c, Init(), steps) ensures !After(c, Init(), steps).wild {
        InitInv(c);
        RunKeeps(c, Init(), steps);
      }
    } else {
      var j, k :| c.Bucket(j) == c.Bucket(k) && c.Worker(j) != c.Worker(k);
      var steps := WildRun(c, j, k);
    }
  }

  /** The routing of acached gives every bucket one owner, whatever the hash function. */
  lemma RouteGivesOneOwner(hash: seq<byte> -> nat)
    ensures Config(hash, Route).OneOwner()
  {
  }

  /** Which buckets that routing gives to which worker: it splits the table after the middle bucket. */
  lemma RouteSplitsTable(hashval: nat)
    ensures Route(hashval) < NUM_CORES && (Route(hashval) == 0 <==> hashval % HASH_SIZE <= 32768)
  {
  }

  /** Stripes are no substitute: buckets of different workers can share a lock. */
  lemma WorkersShareLocks()
    ensures Route(0) != Route(49152) && BucketOf(49152) == 49152 && LockOf(0) == LockOf(49152)
  {
    MaskIsRemainder(0, LOCK_POWER);
    MaskIsRemainder(49152, LOCK_POWER);
    assert Pow2(4) == 16;
    assert Pow2(8) == 256;
    assert Pow2(12) == 4096;
    assert Pow2(14) == 16384;
  }
}
