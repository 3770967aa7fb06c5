/**
 One bucket chain of ahashtable.cpp, as the sequence of its nodes' contents, and what any
 history of commands does to it. Keys are compared by strncmp over the length of the key
 asked for against the stored bytes, which are the stored key followed by its value; that
 is a prefix test, and what it costs is settled by PrefixFreeIsExact.
 */
module Chain {
  import opened Bytes

  /** crlf: a reply has written "\r\n" over the two bytes after the value. */
  datatype Entry = Entry(key: seq<byte>, value: seq<byte>, crlf: bool)

  // The allocation holds two more bytes than key and value, and the header's own data
  // field and padding add eight; all of it is zeroed.
  const PADDING: seq<byte> := [0, 0, 0, 0, 0, 0, 0, 0]

  function Trailer(crlf: bool): seq<byte> {
    if crlf then [CR, LF] else [0, 0]
  }

  /** The bytes of a node from its data field to the end of its allocation. */
  function StoredBytes(e: Entry): (s: seq<byte>)
    ensures 0 in s
  {
    assert PADDING[0] in PADDING;
    e.key + e.value + Trailer(e.crlf) + PADDING
  }

  /** strncmp(s, t, n) == 0 */
  predicate StrncmpEqual(s: seq<byte>, t: seq<byte>, n: nat)
    requires n <= |s| && 0 in t
  {
    n == 0 || (s[0] == t[0] && (s[0] == 0 || StrncmpEqual(s[1..], t[1..], n - 1)))
  }

  lemma {:induction false} StrncmpIsPrefixTest(s: seq<byte>, t: seq<byte>)
    requires NulFree(s) && 0 in t
    ensures StrncmpEqual(s, t, |s|) <==> s <= t
  {
    if s != [] && s[0] == t[0] {
      assert 0 in t[1..];
      StrncmpIsPrefixTest(s[1..], t[1..]);
      assert s == [s[0]] + s[1..] && t == [t[0]] + t[1..];
    }
  }

  predicate Matches(q: seq<byte>, e: Entry) {
    StrncmpEqual(q, StoredBytes(e), |q|)
  }

  /** The position of the first node that the key matches, or the length of the chain. */
  function FirstMatch(c: seq<Entry>, q: seq<byte>): (m: nat)
    ensures m <= |c|
    ensures m < |c| ==> Matches(q, c[m])
    ensures forall i :: 0 <= i < m ==> !Matches(q, c[i])
  {
    if c == [] || Matches(q, c[0]) then 0 else 1 + FirstMatch(c[1..], q)
  }

  /** ahashtable::set: splice over the first match, or append. */
  function Put(c: seq<Entry>, e: Entry): seq<Entry> {
    var m := FirstMatch(c, e.key);
    if m < |c| then c[m := e] else c + [e]
  }

  /** ahashtable::get: the value of the first match. */
  function Lookup(c: seq<Entry>, q: seq<byte>): Option<seq<byte>> {
    var m := FirstMatch(c, q);
    if m < |c| then Some(c[m].value) else None
  }

  /** What replying to a get leaves behind in the node it found. */
  function MarkReplied(c: seq<Entry>, q: seq<byte>): seq<Entry> {
    var m := FirstMatch(c, q);
    if m < |c| then c[m := c[m].(crlf := true)] else c
  }

  datatype Op = Set(key: seq<byte>, val: seq<byte>) | Get(key: seq<byte>)

  function Apply(c: seq<Entry>, op: Op): seq<Entry> {
    match op
    case Set(k, v) => Put(c, Entry(k, v, false))
    case Get(k) => MarkReplied(c, k)
  }

  /** The chain after a history of commands on its bucket. */
  function RunOps(ops: seq<Op>): seq<Entry> {
    if ops == [] then [] else Apply(RunOps(ops[..|ops| - 1]), ops[|ops| - 1])
  }

  // ---------------------------------------------------------------- the abstract map

  /** The value of the last set of k, as any client of a map expects to get it. */
  function LastSet(ops: seq<Op>, k: seq<byte>): Option<seq<byte>> {
    if ops == [] then None
    else
      var last := ops[|ops| - 1];
      if last.Set? && last.key == k then Some(last.val) else LastSet(ops[..|ops| - 1], k)
  }

  predicate Over(ops: seq<Op>, keys: set<seq<byte>>) {
    forall i :: 0 <= i < |ops| ==> ops[i].key in keys
  }

  predicate KeySet(keys: set<seq<byte>>) {
    forall k :: k in keys ==> NulFree(k)
  }

  /** No key of the set is a prefix of another. */
  predicate PrefixFree(keys: set<seq<byte>>) {
    forall a, b :: a in keys && b in keys && a <= b ==> a == b
  }

  /** Every key is stored once, and the chain holds the abstract map. */
  ghost predicate Represents(c: seq<Entry>, ops: seq<Op>, keys: set<seq<byte>>) {
    && (forall i :: 0 <= i < |c| ==> c[i].key in keys)
    && (forall i, j :: 0 <= i < j < |c| ==> c[i].key != c[j].key)
    && (forall i :: 0 <= i < |c| ==> LastSet(ops, c[i].key) == Some(c[i].value))
    && (forall k :: k in keys && LastSet(ops, k).Some? ==> exists i :: 0 <= i < |c| && c[i].key == k)
  }

  /** Two keys of which neither is a prefix of the other never match each other's nodes. */
  lemma MatchIsEquality(q: seq<byte>, e: Entry, keys: set<seq<byte>>)
    requires KeySet(keys) && PrefixFree(keys) && q in keys && e.key in keys
    ensures Matches(q, e) <==> q == e.key
  {
    var t := StoredBytes(e);
    StrncmpIsPrefixTest(q, t);
    assert t[..|e.key|] == e.key;
    if q <= t {
      assert |q| <= |e.key| ==> q == e.key[..|q|];
      assert |e.key| <= |q| ==> e.key == q[..|e.key|];
    }
  }

  lemma LookupIsLastSet(c: seq<Entry>, ops: seq<Op>, keys: set<seq<byte>>, k: seq<byte>)
    requires KeySet(keys) && PrefixFree(keys) && Represents(c, ops, keys) && k in keys
    ensures Lookup(c, k) == LastSet(ops, k)
    ensures FirstMatch(c, k) == |c| || c[FirstMatch(c, k)].key == k
    ensures forall i :: 0 <= i < |c| && c[i].key == k ==> FirstMatch(c, k) == i
  {
    forall i | 0 <= i < |c| ensures Matches(k, c[i]) <==> k == c[i].key {
      MatchIsEquality(k, c[i], keys);
    }
  }

  lemma LastSetExtends(ops: seq<Op>, op: Op)
    ensures forall x :: LastSet(ops + [op], x) == if op.Set? && x == op.key then Some(op.val) else LastSet(ops, x)
  {
    assert (ops + [op])[..|ops + [op]| - 1] == ops;
  }

  lemma SpliceRepresents(c: seq<Entry>, ops: seq<Op>, keys: set<seq<byte>>, m: nat, v: seq<byte>)
    requires Represents(c, ops, keys) && m < |c|
    ensures Represents(c[m := Entry(c[m].key, v, false)], ops + [Set(c[m].key, v)], keys)
  {
    hide LastSet;
    var c', ops' := c[m := Entry(c[m].key, v, false)], ops + [Set(c[m].key, v)];
    LastSetExtends(ops, Set(c[m].key, v));
    assert forall i :: 0 <= i < |c| ==> c'[i].key == c[i].key;
    forall x | x in keys && LastSet(ops', x).Some?
      ensures exists i :: 0 <= i < |c'| && c'[i].key == x
    {
      if x == c[m].key {
        assert c'[m].key == x;
      } else {
        var i :| 0 <= i < |c| && c[i].key == x;
        assert c'[i].key == x;
      }
    }
  }

  lemma AppendRepresents(c: seq<Entry>, ops: seq<Op>, keys: set<seq<byte>>, k: seq<byte>, v: seq<byte>)
    requires Represents(c, ops, keys) && k in keys && forall i :: 0 <= i < |c| ==> c[i].key != k
    ensures Represents(c + [Entry(k, v, false)], ops + [Set(k, v)], keys)
  {
    hide LastSet;
    var c', ops' := c + [Entry(k, v, false)], ops + [Set(k, v)];
    LastSetExtends(ops, Set(k, v));
    assert c'[|c|].key == k;
    forall x | x in keys && LastSet(ops', x).Some?
      ensures exists i :: 0 <= i < |c'| && c'[i].key == x
    {
      if x != k {
        var i :| 0 <= i < |c| && c[i].key == x;
        assert c'[i].key == x;
      }
    }
  }

  lemma SetRepresents(c: seq<Entry>, ops: seq<Op>, keys: set<seq<byte>>, k: seq<byte>, v: seq<byte>)
    requires KeySet(keys) && PrefixFree(keys) && Represents(c, ops, keys) && k in keys
    ensures Represents(Put(c, Entry(k, v, false)), ops + [Set(k, v)], keys)
  {
    LookupIsLastSet(c, ops, keys, k);
    hide Represents, Matches;
    var m := FirstMatch(c, k);
    if m < |c| {
      SpliceRepresents(c, ops, keys, m, v);
    } else {
      AppendRepresents(c, ops, keys, k, v);
    }
  }

  lemma GetRepresents(c: seq<Entry>, ops: seq<Op>, keys: set<seq<byte>>, k: seq<byte>)
    requires KeySet(keys) && PrefixFree(keys) && Represents(c, ops, keys) && k in keys
    ensures Represents(MarkReplied(c, k), ops + [Get(k)], keys)
  {
    hide Matches, PrefixFree, KeySet, FirstMatch, LastSet;
    var ops' := ops + [Get(k)];
    LastSetExtends(ops, Get(k));
    var c' := MarkReplied(c, k);
    forall x | x in keys && LastSet(ops', x).Some?
      ensures exists i :: 0 <= i < |c'| && c'[i].key == x
    {
      var i :| 0 <= i < |c| && c[i].key == x;
      assert c'[i].key == x;
    }
  }

  lemma {:induction false} RunRepresents(ops: seq<Op>, keys: set<seq<byte>>)
    requires KeySet(keys) && PrefixFree(keys) && Over(ops, keys)
    ensures Represents(RunOps(ops), ops, keys)
  {
    if ops != [] {
      var before, op := ops[..|ops| - 1], ops[|ops| - 1];
      RunRepresents(before, keys);
      assert ops == before + [op];
      match op
      case Set(k, v) => SetRepresents(RunOps(before), before, keys, k, v);
      case Get(k) => GetRepresents(RunOps(before), before, keys, k);
    }
  }

  /** On prefix-free keys the chain is the abstract map, after every history. */
  lemma ChainRefinesMap(ops: seq<Op>, keys: set<seq<byte>>, k: seq<byte>)
    requires KeySet(keys) && PrefixFree(keys) && Over(ops, keys) && k in keys
    ensures Lookup(RunOps(ops), k) == LastSet(ops, k)
  {
    RunRepresents(ops, keys);
    LookupIsLastSet(RunOps(ops), ops, keys, k);
  }

  /** What a client is promised of a bucket whose keys are those of the set. */
  ghost predicate BehavesAsMap(keys: set<seq<byte>>) {
    forall ops: seq<Op>, k :: Over(ops, keys) && k in keys ==> Lookup(RunOps(ops), k) == LastSet(ops, k)
  }

  /** Prefix-freedom is exactly what the comparison by prefix asks of the keys of a bucket. */
  lemma PrefixFreeIsExact(keys: set<seq<byte>>)
    requires KeySet(keys)
    ensures BehavesAsMap(keys) <==> PrefixFree(keys)
  {
    if PrefixFree(keys) {
      forall ops: seq<Op>, k | Over(ops, keys) && k in keys
        ensures Lookup(RunOps(ops), k) == LastSet(ops, k)
      {
        ChainRefinesMap(ops, keys, k);
      }
    } else {
      var a, b :| a in keys && b in keys && a <= b && a != b;
      PrefixConfuses(a, b);
      var ops := [Set(a, b[|a|..])];
      assert Over(ops, keys);
    }
  }

  /** The failing case: key a is a proper prefix of b, and a's value begins with the rest of b. */
  lemma PrefixConfuses(a: seq<byte>, b: seq<byte>)
    requires a <= b && a != b && NulFree(b)
    ensures var ops := [Set(a, b[|a|..])];
            Lookup(RunOps(ops), b) == Some(b[|a|..]) && LastSet(ops, b) == None
  {
    var ops := [Set(a, b[|a|..])];
    var e := Entry(a, b[|a|..], false);
    assert ops[..0] == [];
    assert RunOps(ops) == [e];
    StrncmpIsPrefixTest(b, StoredBytes(e));
    assert StoredBytes(e) == b + (Trailer(false) + PADDING);
    assert LastSet(ops, b) == LastSet([], b);
  }

  /** A get leaves "\r\n" in memory behind the value that it found, and every other byte of the chain alone. */
  lemma GetEndsLine(c: seq<Entry>, k: seq<byte>)
    ensures var c', m := Apply(c, Get(k)), FirstMatch(c, k);
      && |c'| == |c|
      && (m < |c| ==> StoredBytes(c'[m]) == c[m].key + c[m].value + [CR, LF] + PADDING)
      && forall i :: 0 <= i < |c| && i != m ==> StoredBytes(c'[i]) == StoredBytes(c[i])
  {
  }

  /** A set leaves the key, the value and zeros, whatever a reply wrote into the node before. */
  lemma SetStoresBytes(c: seq<Entry>, k: seq<byte>, v: seq<byte>)
    ensures var c', m := Apply(c, Set(k, v)), FirstMatch(c, k);
      && m < |c'| && StoredBytes(c'[m]) == k + v + [0, 0] + PADDING
      && forall i :: 0 <= i < |c| && i != m ==> StoredBytes(c'[i]) == StoredBytes(c[i])
  {
  }

  /**
   Whatever the chain and the keys in it, a get of k right after a set of k finds the node
   just set: both take the first node that k matches. Position and length say that the
   splice keeps every other node where it was.
   */
  lemma ReadYourWrite(c: seq<Entry>, k: seq<byte>, v: seq<byte>)
    requires NulFree(k)
    ensures var c' := Put(c, Entry(k, v, false));
      && FirstMatch(c', k) == FirstMatch(c, k) < |c'|
      && Lookup(c', k) == Some(v)
      && (forall i :: 0 <= i < |c| && i != FirstMatch(c, k) ==> c'[i] == c[i])
  {
    hide StrncmpEqual, FirstMatch;
    var e := Entry(k, v, false);
    StrncmpIsPrefixTest(k, StoredBytes(e));
    assert StoredBytes(e)[..|k|] == k;
    FirstMatchIs(Put(c, e), k, FirstMatch(c, k));
  }

  lemma FirstMatchIs(c: seq<Entry>, q: seq<byte>, m: nat)
    requires m <= |c| && (m < |c| ==> Matches(q, c[m])) && forall i :: 0 <= i < m ==> !Matches(q, c[i])
    ensures FirstMatch(c, q) == m
  {
  }

  // ---------------------------------------------------------------- many buckets

  /** The commands of a history whose keys fall in bucket b. */
  function OpsIn(ops: seq<Op>, bucketOf: seq<byte> -> nat, b: nat): (r: seq<Op>)
    ensures forall i :: 0 <= i < |r| ==> r[i] in ops && bucketOf(r[i].key) == b
  {
    if ops == [] then []
    else
      var before, last := OpsIn(ops[..|ops| - 1], bucketOf, b), ops[|ops| - 1];
      if bucketOf(last.key) == b then before + [last] else before
  }

  /** The keys of a history suit the comparison: no NUL, and prefix-free within a bucket. */
  ghost predicate Suitable(ops: seq<Op>, bucketOf: seq<byte> -> nat) {
    && (forall i :: 0 <= i < |ops| ==> NulFree(ops[i].key))
    && forall i, j | 0 <= i < |ops| && 0 <= j < |ops| && bucketOf(ops[i].key) == bucketOf(ops[j].key) ::
         ops[i].key <= ops[j].key ==> ops[i].key == ops[j].key
  }

  /** Any history on prefix-free keys without NULs suits, however the keys fall into buckets. */
  lemma PrefixFreeSuits(ops: seq<Op>, bucketOf: seq<byte> -> nat, keys: set<seq<byte>>)
    requires KeySet(keys) && PrefixFree(keys) && Over(ops, keys)
    ensures Suitable(ops, bucketOf)
  {
  }

  lemma OpsInExtend(ops: seq<Op>, op: Op, bucketOf: seq<byte> -> nat, b: nat)
    ensures OpsIn(ops + [op], bucketOf, b)
         == if bucketOf(op.key) == b then OpsIn(ops, bucketOf, b) + [op] else OpsIn(ops, bucketOf, b)
  {
    assert (ops + [op])[..|ops + [op]| - 1] == ops;
  }

  lemma {:induction false} LastSetInBucket(ops: seq<Op>, bucketOf: seq<byte> -> nat, k: seq<byte>)
    ensures LastSet(OpsIn(ops, bucketOf, bucketOf(k)), k) == LastSet(ops, k)
  {
    if ops != [] {
      var before, last := ops[..|ops| - 1], ops[|ops| - 1];
      LastSetInBucket(before, bucketOf, k);
      var r := OpsIn(before, bucketOf, bucketOf(k));
      assert (r + [last])[..|r + [last]| - 1] == r;
    }
  }

  lemma RunOneMore(ops: seq<Op>, op: Op, bucketOf: seq<byte> -> nat, b: nat)
    ensures RunOps(OpsIn(ops + [op], bucketOf, b))
         == if b == bucketOf(op.key) then Apply(RunOps(OpsIn(ops, bucketOf, b)), op)
            else RunOps(OpsIn(ops, bucketOf, b))
  {
    OpsInExtend(ops, op, bucketOf, b);
    var mine := OpsIn(ops, bucketOf, b);
    assert (mine + [op])[..|mine + [op]| - 1] == mine;
  }

  lemma RunOfNothing(bucketOf: seq<byte> -> nat)
    ensures forall b :: RunOps(OpsIn([], bucketOf, b)) == []
  {
  }

  lemma SuitablePrefix(ops: seq<Op>, i: nat, bucketOf: seq<byte> -> nat)
    requires Suitable(ops, bucketOf) && i < |ops|
    ensures Suitable(ops[..i] + [Get(ops[i].key)], bucketOf)
  {
    var some := ops[..i] + [Get(ops[i].key)];
    assert forall j :: 0 <= j < |some| ==> some[j].key == ops[j].key;
  }

  /** With suitable keys a bucket answers like the map of the whole history. */
  lemma BucketRefinesMap(ops: seq<Op>, bucketOf: seq<byte> -> nat, k: seq<byte>)
    requires Suitable(ops + [Get(k)], bucketOf)
    ensures Lookup(RunOps(OpsIn(ops, bucketOf, bucketOf(k))), k) == LastSet(ops, k)
  {
    var all := ops + [Get(k)];
    var keys := set i | 0 <= i < |all| && bucketOf(all[i].key) == bucketOf(k) :: all[i].key;
    var mine := OpsIn(ops, bucketOf, bucketOf(k));
    assert all[|ops|] == Get(k);
    forall i | 0 <= i < |mine| ensures mine[i].key in keys {
      var j :| 0 <= j < |ops| && ops[j] == mine[i];
      assert all[j] == mine[i];
    }
    ChainRefinesMap(mine, keys, k);
    LastSetInBucket(ops, bucketOf, k);
  }
}
