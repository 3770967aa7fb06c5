/**
 The account of what is sent and left through the steps of Backlog up to the end of a check:
 slots reserved and filled, bytes sent, lengths read again.
 */
module BacklogSends {
  import opened Bytes
  import opened Reply
  import opened Backlog

  // ---------------------------------------------------------------- reserving

  lemma ReserveAccounts(s: State, u: State)
    requires AccountInv(s) && PrefixInv(s) && EdgeInv(s)
    requires u == s.(slots := s.slots + [[], []], written := s.written + [None, None], pcs := u.pcs)
    ensures AccountInv(u) && PrefixInv(u)
  {
    hide Cat;
    assert Kept(u) == Kept(s) + [[], []];
    assert Rest(u) == Rest(s) + [[], []];
    assert Kept(u)[..u.windexlast] == Kept(s)[..s.windexlast];
    CatAppend(Kept(s), [[], []]);
  }

  lemma ReserveKeepsRest(s: State, u: State)
    requires AccountInv(s) && EdgeInv(s) && FlushInv(s) && LostInv(s) && WireInv(s)
    requires u == s.(slots := s.slots + [[], []], written := s.written + [None, None], pcs := u.pcs)
    ensures EdgeInv(u) && LostInv(u) && WireInv(u)
  {
    hide Cat, Advanced, Kept, Rest, CheckInv;
    forall k: nat ensures MarkedAt(u, k) {
      assert MarkedAt(s, k);
    }
  }

  lemma StaleStays(s: State, u: State, start: nat, taken: nat, offered: Slots)
    requires start < s.windexlast == u.windexlast && start + |offered| <= |s.slots| <= |u.slots|
    requires StaleCheck(s, start, taken, offered)
    requires forall l: nat :: start <= l < s.windexlast ==> u.slots[l] == s.slots[l]
    ensures StaleCheck(u, start, taken, offered)
  {
  }

  lemma ReserveKeepsFlush(s: State, u: State)
    requires FlushInv(s) && |s.written| == |s.slots|
    requires u == s.(slots := s.slots + [[], []], written := s.written + [None, None], pcs := u.pcs)
    ensures FlushInv(u)
  {
    hide Cat;
    if InCheck(s) {
      var start, offered, read := s.flush.start, s.flush.offered, s.flush.read;
      forall j | 0 <= j < |offered| && s.windexlast <= start + j ensures OfferInv(u, start, offered, j) {
        assert OfferInv(s, start, offered, j);
      }
      if start < s.windexlast { StaleStays(s, u, start, s.flush.taken, offered); }
      forall j | 0 <= j < |read| ensures ReadInv(u, start, offered, read, j) {
        assert ReadInv(s, start, offered, read, j);
      }
    }
  }

  lemma ReserveKeeps(s: State, u: State)
    requires BufferInv(s)
    requires u == s.(slots := s.slots + [[], []], written := s.written + [None, None], pcs := u.pcs)
    ensures BufferInv(u)
  {
    ReserveAccounts(s, u);
    ReserveKeepsRest(s, u);
    ReserveKeepsFlush(s, u);
    hide AccountInv, PrefixInv, EdgeInv, FlushInv, LostInv, WireInv;
  }

  // ---------------------------------------------------------------- writing

  lemma AdvancedAfterWrite<T>(slots: seq<seq<T>>, rest: seq<seq<T>>, f: nat, off: nat, sent: nat, i: nat, item: seq<T>)
    requires Advanced(slots, rest, f, off, sent) && i < |rest| && slots[f + i] == []
    ensures Advanced(slots[f + i := item], rest[i := item], f, off, sent) && (i == 0 ==> off == 0)
  {
    hide Cat;
    assert slots[f + i := item][..f] == slots[..f];
  }

  ghost predicate AlikeTo<T>(a: seq<T>, b: seq<T>, n: nat) {
    n <= |a| && n <= |b| && a[..n] == b[..n]
  }

  /** What was sent is the slots passed and the first bytes of the next: nothing else matters to it. */
  lemma SentBefore<T>(slots: seq<seq<T>>, rest: seq<seq<T>>, slots': seq<seq<T>>, rest': seq<seq<T>>, f: nat, off: nat, sent: nat)
    requires Advanced(slots, rest, f, off, sent) && Advanced(slots', rest', f, off, sent) && |slots| == |slots'|
    requires slots[..f] == slots'[..f] && (off > 0 ==> f < |slots| && slots'[f] == slots[f])
    ensures AlikeTo(Cat(slots), Cat(slots'), sent)
  {
    PrefixForm(slots, rest, f, off, sent);
    PrefixForm(slots', rest', f, off, sent);
  }

  lemma PrefixStays<T>(wire: seq<T>, a: seq<T>, b: seq<T>)
    requires Starts(wire, a) && AlikeTo(a, b, |wire|)
    ensures Starts(wire, b)
  {
  }

  lemma AfterWrite<T>(kept: seq<seq<T>>, kept': seq<seq<T>>, rest: seq<seq<T>>, rest': seq<seq<T>>,
                      f: nat, off: nat, sent: nat, i: nat, item: seq<T>)
    requires Advanced(kept, rest, f, off, sent) && i < |rest| && kept[f + i] == []
    requires kept' == kept[f + i := item] && rest' == rest[i := item]
    ensures Advanced(kept', rest', f, off, sent) && AlikeTo(Cat(kept), Cat(kept'), sent)
  {
    AdvancedAfterWrite(kept, rest, f, off, sent, i, item);
    assert kept[..f] == kept'[..f];
    SentBefore(kept, rest, kept', rest', f, off, sent);
  }

  lemma KeptAfterWrite(s: State, k: nat, item: seq<byte>)
    requires AccountInv(s) && EdgeInv(s) && s.windexlast <= k < |s.slots| && s.written[k] == None
    ensures Kept(s)[k] == [] && Kept(Write(s, k, item)) == Kept(s)[k := Marked(item, k)]
    ensures Rest(Write(s, k, item)) == Rest(s)[k - s.windexlast := Marked(item, k)]
  {
    hide Cat, Advanced;
  }

  lemma WriteFrame(s: State, k: nat, item: seq<byte>)
    requires k < |s.slots| == |s.written|
    ensures var u := Write(s, k, item);
      && |u.written| == |u.slots| == |s.slots| && u.windexlast == s.windexlast && u.off == s.off && u.wire == s.wire
      && u.flush == s.flush && u.skipped == s.skipped && u.miscounted == s.miscounted
  {
  }

  lemma WriteAheadAdvances(s: State, k: nat, item: seq<byte>, sent: nat)
    requires AccountInv(s) && EdgeInv(s) && s.windexlast <= k < |s.slots|
    requires s.written[k] == None && sent == |s.wire| - Pending(s)
    ensures var kept, kept', rest' := Kept(s), Kept(Write(s, k, item)), Rest(Write(s, k, item));
      Advanced(kept', rest', s.windexlast, s.off, sent) && AlikeTo(Cat(kept), Cat(kept'), sent)
  {
    KeptAfterWrite(s, k, item);
    WriteFrame(s, k, item);
    hide Cat, Kept, Advanced, Rest, Write, EdgeInv;
    var u := Write(s, k, item);
    AfterWrite(Kept(s), Kept(u), Rest(s), Rest(u), s.windexlast, s.off, sent, k - s.windexlast, Marked(item, k));
  }

  lemma WriteAheadAccounts(s: State, k: nat, item: seq<byte>)
    requires AccountInv(s) && PrefixInv(s) && EdgeInv(s) && s.windexlast <= k < |s.slots| && s.written[k] == None
    ensures AccountInv(Write(s, k, item)) && PrefixInv(Write(s, k, item))
  {
    var u, sent := Write(s, k, item), |s.wire| - Pending(s);
    WriteAheadAdvances(s, k, item, sent);
    WriteFrame(s, k, item);
    assert Past(u) == Past(s) && |Past(s)| == sent;
    hide Cat, Kept, Advanced, Rest, Write, EdgeInv, Past, Starts, AlikeTo;
    if s.miscounted == {} {
      PrefixStays(Past(s), Cat(Kept(s)), Cat(Kept(u)));
    }
  }

  lemma WriteBehindAccounts(s: State, k: nat, item: seq<byte>)
    requires AccountInv(s) && PrefixInv(s) && EdgeInv(s) && k < s.windexlast && s.written[k] == None
    ensures AccountInv(Write(s, k, item)) && PrefixInv(Write(s, k, item))
  {
    hide Cat, Advanced;
    var u := Write(s, k, item);
    assert Kept(u) == Kept(s);
    assert Rest(u) == Rest(s);
  }

  lemma WriteKeepsRest(s: State, k: nat, item: seq<byte>)
    requires EdgeInv(s) && LostInv(s) && WireInv(s) && k < |s.slots| && s.written[k] == None && item != []
    ensures EdgeInv(Write(s, k, item)) && LostInv(Write(s, k, item)) && WireInv(Write(s, k, item))
  {
    hide Cat;
    var u := Write(s, k, item);
    forall l: nat ensures MarkedAt(u, l) {
      assert MarkedAt(s, l);
    }
  }

  /** Nothing was sent of a slot that is not written, and it was empty if it was offered. */
  lemma WriteKeepsOffer(s: State, k: nat, item: seq<byte>, start: nat, offered: Slots, j: nat)
    requires |s.written| == |s.slots| && k < |s.slots| && s.written[k] == None && WireInv(s)
    requires j < |offered| && start + |offered| <= |s.slots| && (start + j == k ==> s.slots[k] == [])
    requires OfferInv(s, start, offered, j)
    ensures OfferInv(Write(s, k, item), start, offered, j)
  {
  }

  lemma WriteKeepsRead(s: State, k: nat, item: seq<byte>, start: nat, offered: Slots, read: Slots, j: nat)
    requires |s.written| == |s.slots| && k < |s.slots| && (start + j == k ==> s.slots[k] == [])
    requires j < |read| <= |offered| && start + |offered| <= |s.slots|
    requires ReadInv(s, start, offered, read, j)
    ensures ReadInv(Write(s, k, item), start, offered, read, j)
  {
  }

  lemma WrittenElsewhere(s: State, k: nat, item: seq<byte>)
    requires k < |s.slots| == |s.written|
    ensures forall l: nat :: l < |s.slots| && l != k ==> Write(s, k, item).slots[l] == s.slots[l]
  {
  }

  lemma WriteKeepsCheck(s: State, k: nat, item: seq<byte>, start: nat, taken: nat, offered: Slots, read: Slots)
    requires CheckInv(s, start, taken, offered, read) && WireInv(s) && k < |s.slots| && s.written[k] == None
    requires if s.windexlast <= k then s.slots[k] == [] else k < start
    ensures CheckInv(Write(s, k, item), start, taken, offered, read)
  {
    WriteFrame(s, k, item);
    hide Cat, OfferInv, ReadInv, Write, WireInv;
    var u := Write(s, k, item);
    if start < s.windexlast {
      WrittenElsewhere(s, k, item);
      StaleStays(s, u, start, taken, offered);
    }
    forall j | 0 <= j < |offered| && s.windexlast <= start + j ensures OfferInv(u, start, offered, j) {
      WriteKeepsOffer(s, k, item, start, offered, j);
    }
    forall j | 0 <= j < |read| ensures ReadInv(u, start, offered, read, j) {
      WriteKeepsRead(s, k, item, start, offered, read, j);
    }
  }

  lemma WriteKeepsFlush(s: State, k: nat, item: seq<byte>)
    requires AccountInv(s) && EdgeInv(s) && FlushInv(s) && WireInv(s) && k < |s.slots| && s.written[k] == None
    requires !Overlooked(s, k)
    ensures FlushInv(Write(s, k, item))
  {
    if s.windexlast <= k {
      Ahead(s, k);
    }
    WriteFrame(s, k, item);
    hide AccountInv, EdgeInv, Write, CheckInv, WireInv;
    if InCheck(s) {
      WriteKeepsCheck(s, k, item, s.flush.start, s.flush.taken, s.flush.offered, s.flush.read);
    }
  }

  lemma WriteKeeps(s: State, k: nat, item: seq<byte>)
    requires BufferInv(s) && k < |s.slots| && s.written[k] == None && !Overlooked(s, k) && item != []
    ensures BufferInv(Write(s, k, item))
  {
    if k < s.windexlast { WriteBehindAccounts(s, k, item); } else { WriteAheadAccounts(s, k, item); }
    WriteKeepsRest(s, k, item);
    WriteKeepsFlush(s, k, item);
    hide AccountInv, PrefixInv, EdgeInv, FlushInv, LostInv, WireInv;
  }

  // ---------------------------------------------------------------- sending

  /** What is counted, and left, depends on no more than this. */
  lemma AccountsStay(s: State, u: State)
    requires AccountInv(s) && PrefixInv(s) && EdgeInv(s)
    requires u.slots == s.slots && u.written == s.written && u.windexlast == s.windexlast && u.off == s.off
    requires u.skipped == s.skipped && s.miscounted <= u.miscounted && Pending(u) <= |u.wire| && Past(u) == Past(s)
    ensures AccountInv(u) && PrefixInv(u) && EdgeInv(u)
  {
    assert |Past(s)| == |s.wire| - Pending(s) && |Past(u)| == |u.wire| - Pending(u);
    assert Kept(u) == Kept(s) && Rest(u) == Rest(s);
    forall k: nat ensures MarkedAt(u, k) {
      assert MarkedAt(s, k);
    }
    hide Cat, Advanced, Past, Kept, Rest, Pending, Starts, MarkedAt;
  }

  /** Whoever is where, and whether the flag is held without a check under way, changes nothing of the buffer. */
  lemma QuietKeeps(s: State, u: State)
    requires BufferInv(s) && !InCheck(s) && !InCheck(u)
    requires u == s.(pcs := u.pcs, totalsize := u.totalsize, flush := u.flush)
    requires u.flush.Held? && !s.flush.Held? ==> u.flush.start <= u.windexlast && u.flush.start + u.flush.count <= |u.slots|
    requires u.flush.Held? && s.flush.Held? ==> u.flush == s.flush
    ensures BufferInv(u)
  {
    AccountsStay(s, u);
    hide AccountInv, PrefixInv, EdgeInv;
  }

  /** And while a check is under way other workers only move. */
  lemma OthersKeep(s: State, u: State)
    requires BufferInv(s) && u == s.(pcs := u.pcs, totalsize := u.totalsize)
    ensures BufferInv(u)
  {
    AccountsStay(s, u);
    if InCheck(s) {
      CheckSame(s, u);
    }
    hide AccountInv, PrefixInv, EdgeInv, CheckInv;
  }

  lemma CheckSame(s: State, u: State)
    requires InCheck(s) && FlushInv(s) && u == s.(pcs := u.pcs, totalsize := u.totalsize)
    ensures FlushInv(u)
  {
    hide Cat;
    var start, offered, read := s.flush.start, s.flush.offered, s.flush.read;
    forall j | 0 <= j < |offered| && s.windexlast <= start + j ensures OfferInv(u, start, offered, j) {
      assert OfferInv(s, start, offered, j);
    }
    if start < s.windexlast { StaleStays(s, u, start, s.flush.taken, offered); }
    forall j | 0 <= j < |read| ensures ReadInv(u, start, offered, read, j) {
      assert ReadInv(s, start, offered, read, j);
    }
  }

  /** The byte has been written, and is of those ahead of windexlast that are not counted as sent. */
  predicate Unsent(s: State, x: Mark)
    requires |s.written| == |s.slots|
  {
    x.slot < |s.slots| && s.written[x.slot].Some? && x.slot >= s.windexlast && (x.slot == s.windexlast ==> x.at >= s.off)
  }

  lemma UnsentAhead(s: State, k: nat, x: Mark)
    requires AccountInv(s) && EdgeInv(s) && s.windexlast <= k < |s.slots| && x in s.slots[k]
    ensures Unsent(s, x)
  {
    Ahead(s, k);
    hide AccountInv, EdgeInv;
  }

  /** The bytes that a send takes come from slots ahead of windexlast, and from there on. */
  lemma SentAreAhead(s: State, start: nat, offered: Slots, n: nat)
    requires AccountInv(s) && EdgeInv(s) && start == s.windexlast && start + |offered| <= |s.slots|
    requires offered == s.slots[start..start + |offered|] && n <= |Cat(offered)|
    ensures |s.written| == |s.slots| && forall x :: x in Cat(offered)[..n] ==> Unsent(s, x)
  {
    assert |s.written| == |s.slots|;
    hide Cat, AccountInv, EdgeInv, Unsent;
    forall x | x in Cat(offered)[..n] ensures Unsent(s, x) {
      assert x in Cat(offered);
      InCat(offered, x);
      var j :| 0 <= j < |offered| && x in offered[j];
      UnsentAhead(s, start + j, x);
    }
  }

  /** What the send takes is of the slots from windexlast on. */
  predicate FromWindexlast(s: State, n: nat)
    requires s.flush.Held?
  {
    s.flush.start == s.windexlast || Harmless(s, n)
  }

  lemma HarmlessIsAhead(s: State, offered: Slots, n: nat)
    requires AccountInv(s) && EdgeInv(s) && Harmless(s, n)
    requires offered == s.slots[s.flush.start..s.flush.start + s.flush.count] && n <= |Cat(offered)|
    ensures |s.written| == |s.slots| && forall x :: x in Cat(offered)[..n] ==> Unsent(s, x)
  {
    var d := s.windexlast - s.flush.start;
    FirstFull(offered, d, n);
    hide Cat, AccountInv, EdgeInv, Unsent;
    forall x | x in Cat(offered)[..n] ensures Unsent(s, x) {
      assert x in offered[d] && offered[d] == s.slots[s.windexlast];
      UnsentAhead(s, s.windexlast, x);
    }
  }

  /** Sending adds bytes to the wire, all of them ahead of what is counted, and starts the check. */
  lemma SendFrame(s: State, n: nat)
    requires AccountInv(s) && EdgeInv(s) && FlushInv(s) && s.flush.Held? && FromWindexlast(s, n)
    requires 0 < n <= |Cat(s.slots[s.flush.start..s.flush.start + s.flush.count])|
    ensures var u := SendNow(s, n);
      && |s.written| == |s.slots| && u.slots == s.slots && u.written == s.written && u.windexlast == s.windexlast && u.off == s.off
      && u.miscounted == s.miscounted && u.flush.Reading? && u.flush.read == []
      && forall x :: x in u.wire ==> x in s.wire || Unsent(s, x)
  {
    var offered := s.slots[s.flush.start..s.flush.start + s.flush.count];
    if s.flush.start == s.windexlast { SentAreAhead(s, s.flush.start, offered, n); } else { HarmlessIsAhead(s, offered, n); }
    hide Cat, AccountInv, EdgeInv, Unsent;
    assert SendNow(s, n).wire == s.wire + Cat(offered)[..n];
  }

  lemma SendKeepsWire(s: State, n: nat)
    requires BufferInv(s) && s.flush.Held? && FromWindexlast(s, n)
    requires 0 < n <= |Cat(s.slots[s.flush.start..s.flush.start + s.flush.count])|
    ensures LostInv(SendNow(s, n)) && WireInv(SendNow(s, n))
  {
    SendFrame(s, n);
    hide Cat, AccountInv, PrefixInv, EdgeInv, FlushInv, SendNow;
  }

  lemma TailOfSum<T>(a: seq<T>, b: seq<T>)
    ensures (a + b)[|a|..] == b && (a + b)[..|a|] == a
  {
  }

  /** A slot that is offered now is what it is now; if it is empty, it is not written. */
  lemma OfferedNow(s: State, u: State, start: nat, offered: Slots, j: nat)
    requires AccountInv(s) && EdgeInv(s) && s.windexlast <= start + j && j < |offered| && start + |offered| <= |s.slots|
    requires offered[j] == s.slots[start + j] && u.slots == s.slots && u.written == s.written
    ensures OfferInv(u, start, offered, j)
  {
    Ahead(s, start + j);
    hide AccountInv, EdgeInv;
  }

  lemma SendOffers(s: State, n: nat, offered: Slots)
    requires AccountInv(s) && EdgeInv(s) && FlushInv(s) && s.flush.Held? && FromWindexlast(s, n)
    requires offered == s.slots[s.flush.start..s.flush.start + s.flush.count] && 0 < n <= |Cat(offered)|
    ensures s.flush.start == s.windexlast && s.off > 0 && offered != [] ==> offered[0] != []
    ensures s.flush.start < s.windexlast ==> StaleCheck(SendNow(s, n), s.flush.start, n, offered)
    ensures |s.written| == |s.slots|
    ensures forall j :: 0 <= j < |offered| && s.windexlast <= s.flush.start + j ==> OfferInv(SendNow(s, n), s.flush.start, offered, j)
  {
    hide Cat;
    var u, start := SendNow(s, n), s.flush.start;
    assert u.slots == s.slots && u.written == s.written;
    if offered != [] && start == s.windexlast {
      Ahead(s, start);
    }
    hide SendNow, OfferInv, Advanced;
    forall j | 0 <= j < |offered| && s.windexlast <= start + j ensures OfferInv(u, start, offered, j) {
      OfferedNow(s, u, start, offered, j);
    }
  }

  lemma SendKeepsFlush(s: State, n: nat)
    requires BufferInv(s) && s.flush.Held? && FromWindexlast(s, n) && n > 0
    requires n <= |Cat(s.slots[s.flush.start..s.flush.start + s.flush.count])|
    ensures FlushInv(SendNow(s, n))
  {
    assert Cat<Mark>([]) == [];
    var offered := s.slots[s.flush.start..s.flush.start + s.flush.count];
    SendOffers(s, n, offered);
    TailOfSum(s.wire, Cat(offered)[..n]);
    hide Cat, AccountInv, PrefixInv, EdgeInv, OfferInv, LostInv, WireInv;
  }

  lemma SendKeeps(s: State, n: nat)
    requires BufferInv(s) && s.flush.Held? && FromWindexlast(s, n) && n > 0
    requires n <= |Cat(s.slots[s.flush.start..s.flush.start + s.flush.count])|
    ensures BufferInv(SendNow(s, n))
  {
    SendKeepsWire(s, n);
    SendKeepsFlush(s, n);
    var u := SendNow(s, n);
    assert Past(u) == s.wire == Past(s) by {
      hide LostInv, WireInv, FlushInv, AccountInv, PrefixInv, EdgeInv, Cat;
      TailOfSum(s.wire, Cat(s.slots[s.flush.start..s.flush.start + s.flush.count])[..n]);
    }
    AccountsStay(s, u);
    hide AccountInv, PrefixInv, EdgeInv, FlushInv, LostInv, WireInv, SendNow;
  }

  // ---------------------------------------------------------------- reading the lengths

  lemma ReadAt(s: State, u: State, start: nat, offered: Slots, read: Slots, j: nat)
    requires j <= |read| < |offered| && start + |offered| <= |s.slots| && u.slots == s.slots
    requires j < |read| ==> ReadInv(s, start, offered, read, j)
    requires |s.written| == |s.slots|
    requires if s.windexlast <= start + |read| then OfferInv(s, start, offered, |read|)
             else offered[|read|] == [] && s.slots[start + |read|] == []
    requires s.miscounted <= u.miscounted
    requires offered[|read|] == [] && s.slots[start + |read|] != [] ==> start + |read| in u.miscounted
    ensures ReadInv(u, start, offered, read + [s.slots[start + |read|]], j)
  {
  }

  lemma ReadKeepsCheck(s: State)
    requires FlushInv(s) && s.flush.Reading? && |s.flush.read| < |s.flush.offered|
    ensures var f, u := s.flush, ReadOne(s);
      CheckInv(u, f.start, f.taken, f.offered, f.read + [s.slots[f.start + |f.read|]])
  {
    hide Cat;
    var Reading(w, start, taken, offered, read) := s.flush;
    var u := ReadOne(s);
    var item := s.slots[start + |read|];
    assert s.windexlast <= start + |read| ==> OfferInv(s, start, offered, |read|);
    if start < s.windexlast { StaleStays(s, u, start, taken, offered); }
    forall j | 0 <= j < |offered| && s.windexlast <= start + j ensures OfferInv(u, start, offered, j) {
      assert OfferInv(s, start, offered, j);
    }
    forall j | 0 <= j < |read + [item]| ensures ReadInv(u, start, offered, read + [item], j) {
      assert j < |read| ==> ReadInv(s, start, offered, read, j);
      ReadAt(s, u, start, offered, read, j);
    }
    hide OfferInv, ReadInv;
  }

  lemma ReadKeepsFlush(s: State)
    requires BufferInv(s) && s.flush.Reading? && |s.flush.read| < |s.flush.offered|
    ensures FlushInv(ReadOne(s))
  {
    ReadKeepsCheck(s);
    var read, item := s.flush.read, s.slots[s.flush.start + |s.flush.read|];
    CatAppend(read, [item]);
    CatOne(item);
    TailOfSum(read, [item]);
    hide Cat, AccountInv, PrefixInv, EdgeInv, LostInv, WireInv, CheckInv;
  }

  /** A slot that the check finds full, and that was not when it was offered: none of it has been sent. */
  lemma FilledSince(s: State)
    requires AccountInv(s) && EdgeInv(s) && FlushInv(s) && s.flush.Reading? && |s.flush.read| < |s.flush.offered|
    ensures var k := s.flush.start + |s.flush.read|;
      && k < |s.slots| == |s.written| && s.flush.start + |s.flush.offered| <= |s.slots|
      && (s.flush.offered[|s.flush.read|] == [] && s.slots[k] != [] ==>
            s.written[k].Some? && forall x :: x in s.wire ==> x.slot != k)
  {
    hide Cat;
    var k := s.flush.start + |s.flush.read|;
    if s.windexlast <= k {
      Ahead(s, k);
      assert OfferInv(s, s.flush.start, s.flush.offered, |s.flush.read|);
    }
    hide AccountInv, EdgeInv;
  }

  lemma ReadFrame(s: State)
    requires FlushInv(s) && s.flush.Reading? && |s.flush.read| < |s.flush.offered|
    ensures var u := ReadOne(s);
      && u.slots == s.slots && u.written == s.written && u.windexlast == s.windexlast && u.off == s.off && u.wire == s.wire
      && u.skipped == s.skipped && s.miscounted <= u.miscounted && InCheck(u) && Pending(u) == Pending(s) <= |u.wire|
      && u.flush.start == s.flush.start && |u.flush.read| == |s.flush.read| + 1
      && forall k :: k in u.miscounted && k !in s.miscounted ==>
           k == s.flush.start + |s.flush.read| && s.slots[k] != [] && s.flush.offered[|s.flush.read|] == []
  {
    hide Cat, OfferInv, ReadInv;
  }

  lemma ReadKeepsLost(s: State)
    requires BufferInv(s) && s.flush.Reading? && |s.flush.read| < |s.flush.offered|
    ensures LostInv(ReadOne(s))
  {
    FilledSince(s);
    ReadFrame(s);
    assert |Cat(s.flush.read)| < s.flush.taken;
    hide Cat, AccountInv, PrefixInv, EdgeInv, FlushInv, WireInv, ReadOne;
  }

  lemma ReadKeeps(s: State)
    requires BufferInv(s) && s.flush.Reading? && |s.flush.read| < |s.flush.offered|
    ensures BufferInv(ReadOne(s))
  {
    ReadKeepsFlush(s);
    ReadKeepsLost(s);
    ReadFrame(s);
    AccountsStay(s, ReadOne(s));
    hide AccountInv, PrefixInv, EdgeInv, FlushInv, LostInv, ReadOne;
  }
}
