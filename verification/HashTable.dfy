/**
 The bucket array of ahashtable.cpp and its doubly linked chains, updated in place. Every
 method is proved against the chain functions of module Chain.
 */
module HashTable {
  import opened Bytes
  import opened Chain

  /** (int) floor(log(x) / log(2)), taken over the reals. */
  function FloorLog2(x: nat): (p: nat)
    requires x > 0
    ensures Pow2(p) <= x < 2 * Pow2(p)
  {
    if x == 1 then 0 else 1 + FloorLog2(x / 2)
  }

  /** A stored pair: the C struct and the bytes that its allocation holds past it. */
  class KVdata {
    var next: KVdata?
    var prev: KVdata?
    const keylen: nat
    const vallen: nat
    var data: seq<byte>
    ghost var entry: Entry   // what data holds
    ghost var home: nat      // the bucket and the position of a node that is in a table
    ghost var pos: nat

    ghost predicate Formed()
      reads this`data, this`entry
    {
      && |entry.key| == keylen && |entry.value| == vallen
      && data == StoredBytes(entry)
    }

    /** The node that a set command builds: zeroed memory, then key and value copied in. */
    constructor (key: seq<byte>, value: seq<byte>)
      ensures Formed() && entry == Entry(key, value, false) && next == null && prev == null
    {
      keylen, vallen := |key|, |value|;
      next, prev := null, null;
      data := key + value + [0, 0] + PADDING;
      entry := Entry(key, value, false);
    }

    /** The bytes that strncmp looks at. */
    method Key() returns (k: seq<byte>)
      requires Formed()
      ensures k == entry.key
    {
      k := data[..keylen];
    }

    /** The bytes that a reply takes from valptr. */
    method Value() returns (v: seq<byte>)
      requires Formed()
      ensures v == entry.value
    {
      v := data[keylen..keylen + vallen];
    }

    /** memcpy(valptr + vallen, "\r\n", 2), as a reply does before it queues the value. */
    method TerminateValue()
      requires Formed()
      modifies this`data, this`entry
      ensures Formed() && entry == old(entry).(crlf := true)
    {
      data := data[..keylen + vallen] + [CR, LF] + data[keylen + vallen + 2..];
      entry := entry.(crlf := true);
    }
  }

  class Table {
    const hashsize: nat
    const hashmask: nat
    const hashLockCount: nat
    const hashLockMask: nat
    const buckets: array<KVdata?>
    ghost var chains: seq<seq<KVdata>>
    ghost var nodes: set<KVdata>

    /** Node i of chain b, and its two links. */
    ghost predicate LinkedAt(b: nat, i: nat)
      requires b < |chains| && i < |chains[b]|
      reads this, nodes
    {
      var c := chains[b];
      var n := c[i];
      && n in nodes && n.home == b && n.pos == i && n.Formed()
      && n.prev == (if i == 0 then null else c[i - 1])
      && n.next == (if i + 1 < |c| then c[i + 1] else null)
    }

    /** The chain of bucket b runs from the head through next, and back through prev. */
    ghost predicate Linked(b: nat)
      requires b < buckets.Length && b < |chains|
      reads this, buckets, nodes
    {
      && buckets[b] == (if chains[b] == [] then null else chains[b][0])
      && forall i :: 0 <= i < |chains[b]| ==> LinkedAt(b, i)
    }

    ghost predicate Valid()
      reads this, buckets, nodes
    {
      && |chains| == buckets.Length == hashsize > 0
      && hashmask == hashsize - 1
      && (forall b :: 0 <= b < |chains| ==> Linked(b))
      && forall n :: n in nodes ==> n.home < |chains| && n.pos < |chains[n.home]| && chains[n.home][n.pos] == n
    }

    /** The contents of bucket b, in chain order. */
    ghost function Contents(b: nat): (s: seq<Entry>)
      requires Valid() && b < hashsize
      reads this, buckets, nodes
    {
      ChainInNodes(b);
      Views(chains[b])
    }

    lemma ChainInNodes(b: nat)
      requires Valid() && b < hashsize
      ensures forall n :: n in chains[b] ==> n in nodes
    {
      forall n | n in chains[b]
        ensures n in nodes
      {
        var i :| 0 <= i < |chains[b]| && chains[b][i] == n;
        assert Linked(b) && LinkedAt(b, i);
      }
    }

    /** The bucket of a hash value. */
    function BucketOf(hashval: nat): (b: nat)
      ensures b == BitAnd(hashval, hashmask)
    {
      BitAnd(hashval, hashmask)
    }

    lemma BucketInRange(hashval: nat)
      requires Valid()
      ensures BucketOf(hashval) < hashsize
      ensures hashsize == Pow2(FloorLog2(hashsize)) ==> BucketOf(hashval) == hashval % hashsize
    {
      MaskBound(hashval, hashmask);
      MaskIsRemainder(hashval, FloorLog2(hashsize));
    }

    constructor (hashsize: nat, hashLockRatio: nat)
      requires hashsize > 0 && 0 < hashLockRatio && FloorLog2(hashLockRatio) <= FloorLog2(hashsize)
      ensures Valid() && nodes == {} && this.hashsize == hashsize && fresh(buckets)
      ensures forall b :: 0 <= b < hashsize ==> Contents(b) == []
      ensures hashLockCount == Pow2(FloorLog2(hashsize) - FloorLog2(hashLockRatio))
      ensures hashLockMask == hashLockCount - 1
    {
      this.hashsize := hashsize;
      hashmask := hashsize - 1;
      hashLockCount := Pow2(FloorLog2(hashsize) - FloorLog2(hashLockRatio));
      hashLockMask := Pow2(FloorLog2(hashsize) - FloorLog2(hashLockRatio)) - 1;
      buckets := new KVdata?[hashsize](_ => null);
      chains := seq(hashsize, _ => []);
      nodes := {};
    }

    /** The position in chain b of the first node that the key matches. */
    ghost function Position(b: nat, key: seq<byte>): nat
      requires Valid() && b < hashsize
      reads this, buckets, nodes
    {
      FirstMatch(Contents(b), key)
    }

    /** The walk along a chain that set and get share: the node found and the one before it. */
    method Walk(bucket: nat, key: seq<byte>) returns (tmphead: KVdata?, prevhead: KVdata?, ghost m: nat)
      requires Valid() && bucket < hashsize
      ensures m == Position(bucket, key) <= |chains[bucket]|
      ensures m < |chains[bucket]| ==> tmphead == chains[bucket][m]
      ensures m == |chains[bucket]| ==> tmphead == null
      ensures m > 0 ==> prevhead == chains[bucket][m - 1]
    {
      hide StrncmpEqual, StoredBytes, FirstMatch;
      ghost var c := chains[bucket];
      assert Linked(bucket);
      tmphead, prevhead, m := buckets[bucket], null, 0;
      while tmphead != null
        invariant m <= |c|
        invariant m < |c| ==> tmphead == c[m]
        invariant m == |c| ==> tmphead == null
        invariant m > 0 ==> prevhead == c[m - 1]
        invariant forall i :: 0 <= i < m ==> !Matches(key, Contents(bucket)[i])
        decreases |c| - m
      {
        assert LinkedAt(bucket, m);
        assert 0 in StoredBytes(c[m].entry);
        if StrncmpEqual(key, tmphead.data, |key|) {
          FirstMatchIs(Contents(bucket), key, m);
          return;
        }
        assert c[m].next == if m + 1 < |c| then c[m + 1] else null;
        prevhead, tmphead, m := tmphead, tmphead.next, m + 1;
      }
      FirstMatchIs(Contents(bucket), key, m);
    }

    method Set(hashval: nat, kv: KVdata) returns (ghost b: nat, ghost m: nat)
      requires Valid() && kv !in nodes && kv.Formed()
      modifies this`chains, this`nodes, buckets, nodes, kv
      ensures Valid() && b == BucketOf(hashval) < hashsize
      ensures Contents(b) == Put(old(Contents(b)), old(kv.entry))
      ensures forall a :: 0 <= a < hashsize && a != b ==> Contents(a) == old(Contents(a))
      ensures m == old(Position(b, kv.entry.key))
      ensures chains == old(chains)[b := if m < |old(chains[b])| then old(chains[b])[m := kv] else old(chains[b]) + [kv]]
      ensures nodes == old(nodes) + {kv} - (if m < |old(chains[b])| then {old(chains[b][m])} else {})
    {
      BucketInRange(hashval);
      var bucket := BucketOf(hashval);
      b := bucket;
      hide StoredBytes, FirstMatch, StrncmpEqual, Views, FloorLog2, Pow2, BitAnd;
      var key := kv.Key();
      var head := buckets[bucket];
      var tmphead, prevhead;
      tmphead, prevhead, m := Walk(bucket, key);
      if tmphead != null {
        Splice(bucket, head, kv, tmphead, m);
      } else {
        assert Linked(bucket);
        Append(bucket, head, prevhead, kv);
      }
    }

    method Splice(bucket: nat, head: KVdata?, tmp1: KVdata, tmp2: KVdata, ghost m: nat)
      requires Valid() && tmp1 !in nodes && tmp1.Formed() && bucket < hashsize && head == buckets[bucket]
      requires m < |chains[bucket]| && tmp2 == chains[bucket][m]
      modifies this`chains, this`nodes, buckets, nodes, tmp1
      ensures Valid() && nodes == old(nodes) + {tmp1} - {tmp2}
      ensures chains == old(chains)[bucket := old(chains[bucket])[m := tmp1]]
      ensures Contents(bucket) == old(Contents(bucket))[m := old(tmp1.entry)]
      ensures forall a :: 0 <= a < hashsize && a != bucket ==> Contents(a) == old(Contents(a))
    {
      hide StoredBytes, FirstMatch, Views, FloorLog2, Pow2, KVdata.Formed;
      ghost var c := chains[bucket];
      assert Linked(bucket);
      assert LinkedAt(bucket, m) && LinkedAt(bucket, 0);
      assert m > 0 ==> LinkedAt(bucket, m - 1);
      assert m + 1 < |c| ==> LinkedAt(bucket, m + 1);
      forall n | n in nodes
        ensures n == tmp2.prev <==> n.home == bucket && n.pos + 1 == m
        ensures n == tmp2.next <==> n.home == bucket && n.pos == m + 1
      {
        assert Linked(n.home) && LinkedAt(n.home, n.pos);
      }
      Relink(bucket, head, tmp1, tmp2);
      tmp1.home, tmp1.pos := bucket, m;
      chains := chains[bucket := c[m := tmp1]];
      nodes := nodes + {tmp1} - {tmp2};
      AfterSplice(bucket, tmp1, m);
    }

    /** The pointer updates of a splice. */
    method Relink(bucket: nat, head: KVdata?, tmp1: KVdata, tmp2: KVdata)
      requires tmp1 !in nodes && tmp2 in nodes && bucket < buckets.Length
      requires tmp2.prev != null ==> tmp2.prev in nodes
      requires tmp2.next != null ==> tmp2.next in nodes
      modifies buckets, nodes, tmp1
      ensures forall n :: n in nodes ==> n.next == if n == old(tmp2.prev) then tmp1 else old(n.next)
      ensures forall n :: n in nodes ==> n.prev == if n == old(tmp2.next) then tmp1 else old(n.prev)
      ensures forall n :: n in nodes + {tmp1} ==>
        n.home == old(n.home) && n.pos == old(n.pos) && n.data == old(n.data) && n.entry == old(n.entry)
      ensures tmp1.prev == old(tmp2.prev) && tmp1.next == old(tmp2.next)
      ensures forall a :: 0 <= a < buckets.Length ==>
        buckets[a] == if a == bucket && tmp2 == head then tmp1 else old(buckets[a])
    {
      tmp1.prev := tmp2.prev;
      tmp1.next := tmp2.next;
      if tmp1.prev != null {
        tmp1.prev.next := tmp1;
      }
      if tmp1.next != null {
        tmp1.next.prev := tmp1;
      }
      if tmp2 == head {
        buckets[bucket] := tmp1;
      }
    }

    /** An old node has only had a link to the node at m redirected to tmp1. */
    twostate predicate Relinked(n: KVdata, bucket: nat, m: nat, tmp1: KVdata)
      reads n
    {
      && n.home == old(n.home) && n.pos == old(n.pos) && n.data == old(n.data) && n.entry == old(n.entry)
      && n.next == (if old(n.home) == bucket && old(n.pos) + 1 == m then tmp1 else old(n.next))
      && n.prev == (if old(n.home) == bucket && old(n.pos) == m + 1 then tmp1 else old(n.prev))
    }

    /** The splice, as the difference it makes to the heap. */
    twostate predicate SplicedTo(bucket: nat, tmp1: KVdata, m: nat, before: set<KVdata>)
      requires old(Valid()) && bucket < hashsize && m < |old(chains[bucket])|
      reads this, buckets, tmp1, before
    {
      && chains == old(chains)[bucket := old(chains[bucket])[m := tmp1]]
      && before == old(nodes) && nodes == before + {tmp1} - {old(chains[bucket][m])}
      && (forall a :: 0 <= a < hashsize && a != bucket ==> buckets[a] == old(buckets[a]))
      && buckets[bucket] == (if m == 0 then tmp1 else old(buckets[bucket]))
      && tmp1.Formed() && tmp1.home == bucket && tmp1.pos == m
      && tmp1.prev == old(chains[bucket][m].prev) && tmp1.next == old(chains[bucket][m].next)
      && forall n :: n in before ==> Relinked(n, bucket, m, tmp1)
    }

    twostate lemma AfterSplice(new bucket: nat, tmp1: KVdata, new m: nat)
      requires old(Valid()) && tmp1 !in old(nodes) && bucket < hashsize && m < |old(chains[bucket])|
      requires SplicedTo(bucket, tmp1, m, old(nodes))
      ensures Valid()
      ensures Contents(bucket) == old(Contents(bucket))[m := tmp1.entry]
      ensures forall a :: 0 <= a < hashsize && a != bucket ==> Contents(a) == old(Contents(a))
    {
      hide StoredBytes, FirstMatch;
      forall a | 0 <= a < hashsize
        ensures Linked(a)
      {
        assert old(Linked(a)) && old(Linked(bucket));
        forall i | 0 <= i < |chains[a]|
          ensures LinkedAt(a, i)
        {
          assert old(LinkedAt(a, i)) && old(LinkedAt(bucket, m));
        }
      }
      forall a | 0 <= a < hashsize && a != bucket
        ensures Contents(a) == old(Contents(a))
      {
        assert old(Linked(a));
        forall i | 0 <= i < |chains[a]|
          ensures chains[a][i].entry == old(chains[a][i].entry)
        {
          assert old(LinkedAt(a, i));
        }
      }
      assert old(Linked(bucket));
      forall i | 0 <= i < |chains[bucket]| && i != m
        ensures chains[bucket][i].entry == old(chains[bucket][i].entry)
      {
        assert old(LinkedAt(bucket, i));
      }
    }

    method Append(bucket: nat, head: KVdata?, prevhead: KVdata?, kv: KVdata)
      requires Valid() && kv !in nodes && kv.Formed() && bucket < hashsize && head == buckets[bucket]
      requires head != null ==> chains[bucket] != [] && prevhead == chains[bucket][|chains[bucket]| - 1]
      modifies this`chains, this`nodes, buckets, nodes, kv
      ensures Valid() && nodes == old(nodes) + {kv}
      ensures chains == old(chains)[bucket := old(chains[bucket]) + [kv]]
      ensures Contents(bucket) == old(Contents(bucket)) + [old(kv.entry)]
      ensures forall a :: 0 <= a < hashsize && a != bucket ==> Contents(a) == old(Contents(a))
    {
      hide StoredBytes, FirstMatch;
      ghost var c := chains[bucket];
      assert Linked(bucket);
      if head != null {
        assert LinkedAt(bucket, |c| - 1);
        prevhead.next := kv;
        kv.prev := prevhead;
        kv.next := null;
      } else {
        buckets[bucket] := kv;
        kv.next := null;
        kv.prev := null;
      }
      kv.home, kv.pos := bucket, |c|;
      chains := chains[bucket := c + [kv]];
      nodes := nodes + {kv};
      forall n | n in old(nodes) ensures Relinked(n, bucket, |c|, kv) {
        assert old(Linked(n.home)) && old(LinkedAt(n.home, n.pos));
      }
      AfterAppend(bucket, kv);
    }

    twostate predicate AppendedTo(bucket: nat, kv: KVdata, before: set<KVdata>)
      requires old(Valid()) && bucket < hashsize
      reads this, buckets, kv, before
    {
      var c := old(chains[bucket]);
      && chains == old(chains)[bucket := c + [kv]]
      && before == old(nodes) && nodes == before + {kv}
      && (forall a :: 0 <= a < hashsize && a != bucket ==> buckets[a] == old(buckets[a]))
      && buckets[bucket] == (if c == [] then kv else old(buckets[bucket]))
      && kv.Formed() && kv.home == bucket && kv.pos == |c|
      && kv.prev == (if c == [] then null else c[|c| - 1]) && kv.next == null
      && forall n :: n in before ==> Relinked(n, bucket, |c|, kv)
    }

    twostate lemma AfterAppend(new bucket: nat, kv: KVdata)
      requires old(Valid()) && kv !in old(nodes) && bucket < hashsize
      requires AppendedTo(bucket, kv, old(nodes))
      ensures Valid()
      ensures Contents(bucket) == old(Contents(bucket)) + [kv.entry]
      ensures forall a :: 0 <= a < hashsize && a != bucket ==> Contents(a) == old(Contents(a))
    {
      hide StoredBytes, FirstMatch;
      forall a | 0 <= a < hashsize
        ensures Linked(a)
        ensures a != bucket ==> Views(chains[a]) == old(Views(chains[a]))
      {
        assert old(Linked(a));
        forall i | 0 <= i < |chains[a]|
          ensures LinkedAt(a, i)
        {
          assert i < |old(chains[a])| ==> old(LinkedAt(a, i));
        }
        forall i | 0 <= i < |old(chains[a])|
          ensures chains[a][i].entry == old(chains[a][i].entry)
        {
          assert old(LinkedAt(a, i));
        }
      }
      assert old(Linked(bucket));
      forall i | 0 <= i < |old(chains[bucket])|
        ensures chains[bucket][i].entry == old(chains[bucket][i].entry)
      {
        assert old(LinkedAt(bucket, i));
      }
    }

    method Get(hashval: nat, key: seq<byte>) returns (found: KVdata?)
      requires Valid()
      ensures BucketOf(hashval) < hashsize
      ensures found == null <==> Lookup(Contents(BucketOf(hashval)), key) == None
      ensures found != null ==>
        var b := BucketOf(hashval);
        var m := Position(b, key);
        m < |chains[b]| && found == chains[b][m] && found in nodes && found.Formed() &&
        Lookup(Contents(b), key) == Some(found.entry.value)
    {
      BucketInRange(hashval);
      var bucket := BucketOf(hashval);
      assert Linked(bucket);
      ghost var m;
      var prevhead;
      found, prevhead, m := Walk(bucket, key);
      assert found != null ==> LinkedAt(bucket, m);
    }

    /** Whatever the table holds, a get right after a set of its key returns the very node that was set. */
    method GetAfterSet(hashval: nat, kv: KVdata) returns (found: KVdata?)
      requires Valid() && kv !in nodes && kv.Formed() && NulFree(kv.entry.key) && !kv.entry.crlf
      modifies this`chains, this`nodes, buckets, nodes, kv
      ensures Valid() && found == kv && kv in nodes
    {
      hide FirstMatch, StrncmpEqual, StoredBytes, Views, FloorLog2, Pow2, Linked, LinkedAt, Put, BitAnd, Lookup;
      hide NulFree, Matches, Contents, KVdata.Formed;
      var key := kv.Key();
      ghost var e := kv.entry;
      ghost var b, m := Set(hashval, kv);
      ReadYourWrite(old(Contents(BucketOf(hashval))), e.key, e.value);
      assert e == Entry(e.key, e.value, false);
      assert Position(b, key) == m;
      found := Get(hashval, key);
    }

    /** A reply writes its line end into the node that a get has just found. */
    method Replied(ghost b: nat, ghost key: seq<byte>, found: KVdata)
      requires Valid() && b < hashsize && found.Formed()
      requires Position(b, key) < |chains[b]| && found == chains[b][Position(b, key)]
      modifies found`data, found`entry
      ensures Valid() && chains == old(chains) && nodes == old(nodes)
      ensures Contents(b) == MarkReplied(old(Contents(b)), key)
      ensures forall a :: 0 <= a < hashsize && a != b ==> Contents(a) == old(Contents(a))
    {
      hide FirstMatch, StrncmpEqual;
      assert Linked(b) && LinkedAt(b, Position(b, key));
      found.TerminateValue();
      AfterReply(b, found.pos, found);
      assert Contents(b) == MarkReplied(old(Contents(b)), key);
    }

    twostate lemma AfterReply(new b: nat, new m: nat, found: KVdata)
      requires old(Valid()) && b < hashsize && m < |old(chains[b])| && found == old(chains[b][m])
      requires chains == old(chains) && nodes == old(nodes) && buckets[..] == old(buckets[..])
      requires found.Formed() && found.entry == old(found.entry).(crlf := true)
      requires found.next == old(found.next) && found.prev == old(found.prev)
      requires found.home == old(found.home) && found.pos == old(found.pos)
      requires forall n :: n in nodes && n != found ==> unchanged(n)
      ensures Valid()
      ensures Contents(b) == old(Contents(b))[m := found.entry]
      ensures forall a :: 0 <= a < hashsize && a != b ==> Contents(a) == old(Contents(a))
    {
      hide StoredBytes, Views, FloorLog2, Pow2;
      assert old(Linked(b)) && old(LinkedAt(b, m));
      forall a | 0 <= a < hashsize
        ensures Linked(a)
        ensures a != b ==> Views(chains[a]) == old(Views(chains[a]))
      {
        assert buckets[a] == buckets[..][a] == old(buckets[..][a]);
        assert old(Linked(a));
        forall i | 0 <= i < |chains[a]|
          ensures LinkedAt(a, i)
          ensures !(a == b && i == m) ==> chains[a][i].entry == old(chains[a][i].entry)
        {
          assert old(LinkedAt(a, i));
        }
      }
      forall i | 0 <= i < |chains[b]| && i != m
        ensures chains[b][i].entry == old(chains[b][i].entry)
      {
        assert old(LinkedAt(b, i));
      }
    }

    /** One command, as a worker carries it out. */
    method Serve(hashval: nat, op: Op) returns (answer: Option<seq<byte>>)
      requires Valid()
      modifies this`chains, this`nodes, buckets, nodes
      ensures Valid() && fresh(nodes - old(nodes))
      ensures BucketOf(hashval) < hashsize
      ensures Contents(BucketOf(hashval)) == Apply(old(Contents(BucketOf(hashval))), op)
      ensures forall a :: 0 <= a < hashsize && a != BucketOf(hashval) ==> Contents(a) == old(Contents(a))
      ensures answer == if op.Get? then old(Lookup(Contents(BucketOf(hashval)), op.key)) else None
    {
      hide FirstMatch, StrncmpEqual, StoredBytes, Views, FloorLog2, Pow2, Linked;
      BucketInRange(hashval);
      answer := None;
      match op {
        case Set(k, v) =>
          var kv := new KVdata(k, v);
          ghost var b, m := Set(hashval, kv);
        case Get(k) =>
          var found := Get(hashval, k);
          if found != null {
            var v := found.Value();
            answer := Some(v);
            Replied(BucketOf(hashval), k, found);
          }
      }
    }

    /**
     A whole history of commands, run on an empty table: each get answers with the value of
     the last set of its key, if the keys of each bucket are prefix-free.
     */
    method Execute(hash: seq<byte> -> nat, ops: seq<Op>) returns (answers: seq<Option<seq<byte>>>)
      requires Valid() && nodes == {} && forall b :: 0 <= b < hashsize ==> Contents(b) == []
      modifies this`chains, this`nodes, buckets
      ensures Valid() && |answers| == |ops|
      ensures var bucketOf := k => BitAnd(hash(k), hashmask);
        && (forall b :: 0 <= b < hashsize ==> Contents(b) == RunOps(OpsIn(ops, bucketOf, b)))
        && (Suitable(ops, bucketOf) ==>
              forall i :: 0 <= i < |ops| && ops[i].Get? ==> answers[i] == LastSet(ops[..i], ops[i].key))
    {
      hide FirstMatch, StrncmpEqual, StoredBytes, LastSet, OpsIn, Apply, RunOps, Lookup, Suitable, Views;
      hide Linked, BitAnd, BucketOf, NulFree, Put, MarkReplied, Matches;
      answers := [];
      ghost var bucketOf := k => BitAnd(hash(k), hashmask);
      RunOfNothing(bucketOf);
      for i := 0 to |ops|
        invariant Valid() && |answers| == i && fresh(nodes)
        invariant forall b :: 0 <= b < hashsize ==> Contents(b) == RunOps(OpsIn(ops[..i], bucketOf, b))
        invariant Suitable(ops, bucketOf) ==>
          forall j :: 0 <= j < i && ops[j].Get? ==> answers[j] == LastSet(ops[..j], ops[j].key)
      {
        var key := ops[i].key;
        assert ops[..i + 1] == ops[..i] + [ops[i]];
        forall a | 0 <= a < hashsize
          ensures RunOps(OpsIn(ops[..i + 1], bucketOf, a))
               == if a == bucketOf(key) then Apply(RunOps(OpsIn(ops[..i], bucketOf, a)), ops[i])
                  else RunOps(OpsIn(ops[..i], bucketOf, a))
        {
          RunOneMore(ops[..i], ops[i], bucketOf, a);
        }
        if Suitable(ops, bucketOf) && ops[i].Get? {
          SuitablePrefix(ops, i, bucketOf);
          BucketRefinesMap(ops[..i], bucketOf, key);
        }
        var answer := Serve(hash(key), ops[i]);
        answers := answers + [answer];
      }
      assert ops[..|ops|] == ops;
    }
  }

  ghost function Views(c: seq<KVdata>): (s: seq<Entry>)
    reads c
    ensures |s| == |c| && forall i :: 0 <= i < |c| ==> s[i] == c[i].entry
  {
    if c == [] then [] else [c[0].entry] + Views(c[1..])
  }
}
