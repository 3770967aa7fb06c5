/**
 The end of a check: windexlast, and the slot where the check stops, move past what was sent.
 */
module BacklogChecks {
  import opened Bytes
  import opened Reply
  import opened Backlog
  import opened BacklogSends

  // ---------------------------------------------------------------- the end of the check

  /** What is left of slots when a send stops within bytes into the j-th. */
  function LeftInside<T>(rest: seq<seq<T>>, j: nat, within: nat): seq<seq<T>>
    requires j < |rest| && within <= |rest[j]|
  {
    [rest[j][within..]] + rest[j + 1..]
  }

  /** And when it stops at the end of the j-th. */
  function LeftPast<T>(rest: seq<seq<T>>, j: nat): seq<seq<T>>
    requires j < |rest|
  {
    rest[j + 1..]
  }

  /** What is left after a send that stopped within bytes into the j-th slot. */
  ghost predicate FlushedTo<T>(rest: seq<seq<T>>, f: nat, off: nat, sent: nat, j: nat, within: nat,
                               rest': seq<seq<T>>, f': nat, off': nat, sent': nat)
  {
    && j < |rest| && 0 < within <= |rest[j]| && sent' == sent + |Cat(rest[..j])| + within
    && if within < |rest[j]| then
         f' == f + j && off' == (if j == 0 then off else 0) + within && rest' == LeftInside(rest, j, within)
       else
         f' == f + j + 1 && off' == 0 && rest' == LeftPast(rest, j)
  }

  lemma InsideAdvances<T>(kept: seq<seq<T>>, rest: seq<seq<T>>, f: nat, off: nat, sent: nat, j: nat, within: nat)
    requires Advanced(kept, rest, f, off, sent) && j < |rest| && within <= |rest[j]|
    ensures Advanced(kept, LeftInside(rest, j, within), f + j, (if j == 0 then off else 0) + within,
                     sent + |Cat(rest[..j])| + within)
  {
    hide Cat, Advanced;
    AdvancedMore(kept, rest, f, off, sent, j, |Cat(rest[..j])| + within, LeftInside(rest, j, within));
  }

  lemma EndsAtSlot<T>(rest: seq<seq<T>>, j: nat)
    requires j < |rest|
    ensures |Cat(rest[..j + 1])| == |Cat(rest[..j])| + |rest[j]|
  {
    hide Cat;
    CatGrow(rest, 0, j);
    assert rest[0..j] == rest[..j] && rest[0..j + 1] == rest[..j + 1];
  }

  /** A stop exactly at a slot's end moves past it. */
  lemma AdvancedPast<T>(slots: seq<seq<T>>, rest: seq<seq<T>>, f: nat, off: nat, sent: nat, j: nat)
    requires Advanced(slots, rest, f, off, sent) && j < |rest|
    ensures Advanced(slots, rest[j + 1..], f + j + 1, 0, sent + |Cat(rest[..j + 1])|)
  {
    AdvancedRest(slots, rest, f, off, sent);
    hide Cat;
  }

  lemma PastAdvances<T>(kept: seq<seq<T>>, rest: seq<seq<T>>, f: nat, off: nat, sent: nat, j: nat)
    requires Advanced(kept, rest, f, off, sent) && j < |rest|
    ensures Advanced(kept, LeftPast(rest, j), f + j + 1, 0, sent + |Cat(rest[..j])| + |rest[j]|)
  {
    hide Cat, Advanced;
    EndsAtSlot(rest, j);
    AdvancedPast(kept, rest, f, off, sent, j);
  }

  lemma AdvancesTo<T>(kept: seq<seq<T>>, rest: seq<seq<T>>, f: nat, off: nat, sent: nat, j: nat, within: nat,
                      rest': seq<seq<T>>, f': nat, off': nat, sent': nat)
    requires Advanced(kept, rest, f, off, sent)
    requires FlushedTo(rest, f, off, sent, j, within, rest', f', off', sent')
    ensures Advanced(kept, rest', f', off', sent')
  {
    hide Cat, Advanced, LeftInside, LeftPast;
    if within < |rest[j]| {
      InsideAdvances(kept, rest, f, off, sent, j, within);
    } else {
      PastAdvances(kept, rest, f, off, sent, j);
    }
  }

  /** A slot is the same in both, or empty in the second and none of it sent. */
  ghost predicate SameOrBlank<T>(kept: seq<seq<T>>, rest: seq<seq<T>>, kept': seq<seq<T>>, rest': seq<seq<T>>, f: nat, off: nat, k: nat)
    requires k < |rest| == |rest'| && f + k < |kept| == |kept'|
  {
    (kept'[f + k] == kept[f + k] && rest'[k] == rest[k]) || (kept'[f + k] == [] && rest'[k] == [] && !(k == 0 && off > 0))
  }

  /** Slots ahead of what was sent may be blanked without changing it. */
  lemma BlankedAdvanced<T>(kept: seq<seq<T>>, rest: seq<seq<T>>, kept': seq<seq<T>>, rest': seq<seq<T>>, f: nat, off: nat, sent: nat)
    requires Advanced(kept, rest, f, off, sent) && |rest| == |rest'|
    requires f + |rest| == |kept| == |kept'| && kept'[..f] == kept[..f]
    requires forall k :: 0 <= k < |rest| ==> SameOrBlank(kept, rest, kept', rest', f, off, k)
    ensures Advanced(kept', rest', f, off, sent)
  {
    hide Cat;
    if rest != [] {
      assert SameOrBlank(kept, rest, kept', rest', f, off, 0);
    }
    forall k | 1 <= k < |rest| ensures rest'[k] == kept'[f + k] {
      assert SameOrBlank(kept, rest, kept', rest', f, off, k);
    }
  }

  /** What the check has seen of the rest: the slots up to the stop as they were read. */
  function AsRead(s: State): (rest: Slots)
    requires s.flush.Found? && s.windexlast <= |s.slots| && |s.flush.read| <= |s.slots| - s.windexlast
    ensures |rest| == |Rest(s)|
  {
    s.flush.read + Rest(s)[|s.flush.read|..]
  }

  /** A slot that the check has found full is full. */
  lemma FoundFull(s: State, k: nat)
    requires FlushInv(s) && s.flush.Found? && k < |s.flush.read|
    ensures s.flush.start + |s.flush.read| <= |s.slots|
    ensures s.flush.read[k] != [] ==> s.flush.read[k] == s.slots[s.flush.start + k]
  {
    hide Cat;
    assert ReadInv(s, s.flush.start, s.flush.offered, s.flush.read, k);
  }

  /** The first slot is full if part of it was sent before. */
  lemma FirstFoundFull(s: State)
    requires FlushInv(s) && s.flush.Found? && s.flush.start == s.windexlast
    ensures s.off > 0 ==> s.flush.read[0] != []
  {
    hide Cat;
    assert ReadInv(s, s.flush.start, s.flush.offered, s.flush.read, 0);
  }

  lemma SettleEnabled(s: State)
    requires FlushInv(s) && s.flush.Found?
    ensures CanSettle(s) && s.flush.start <= s.windexlast && s.flush.start + |s.flush.read| <= |s.slots|
    ensures s.slots[s.flush.start + |s.flush.read| - 1] == s.flush.read[|s.flush.read| - 1]
    ensures 0 < s.flush.within <= |s.flush.read[|s.flush.read| - 1]|
  {
    FoundFull(s, |s.flush.read| - 1);
    hide Cat;
  }

  lemma InBlank(start: nat, read: Slots, k: nat)
    ensures start + k in Blank(start, read) <==> k < |read| && read[k] == []
    ensures k < start ==> k !in Blank(start, read)
  {
  }

  lemma KeptAt(s: State, k: nat)
    requires |s.written| == |s.slots| && CanSettle(s) && s.flush.start == s.windexlast && k < |s.slots|
    ensures |Kept(Settle(s))| == |Kept(s)| == |s.slots|
    ensures Kept(Settle(s))[k] == if k in Blank(s.windexlast, s.flush.read) then [] else Kept(s)[k]
  {
    hide Blank;
  }

  /** What was counted before is not found empty now. */
  lemma KeptBefore(s: State)
    requires |s.written| == |s.slots| && CanSettle(s) && s.flush.start == s.windexlast
    ensures |Kept(s)| == |Kept(Settle(s))| == |s.slots| && s.windexlast <= |s.slots|
    ensures Kept(Settle(s))[..s.windexlast] == Kept(s)[..s.windexlast]
  {
    var kept, kept', f := Kept(s), Kept(Settle(s)), s.windexlast;
    assert |kept| == |kept'| == |s.slots| && f <= |s.slots|;
    hide Settle, Kept, Blank;
    forall k | 0 <= k < f ensures kept'[k] == kept[k] {
      KeptAt(s, k);
      InBlank(f, s.flush.read, k);
    }
  }

  /** What is left after the check, in terms of what it has seen. */
  lemma RestAfterSettle(s: State)
    requires FlushInv(s) && s.flush.Found? && s.flush.start == s.windexlast && s.windexlast <= |s.slots| == |s.written|
    ensures CanSettle(s)
    ensures var u, j := Settle(s), |s.flush.read| - 1;
      && u.windexlast <= |u.slots| == |s.slots| && |s.flush.read| <= |s.slots| - s.windexlast
      && j < |AsRead(s)| && s.flush.within <= |AsRead(s)[j]|
      && if s.flush.within < |AsRead(s)[j]| then
           && u.windexlast == s.windexlast + j && u.off == (if j == 0 then s.off else 0) + s.flush.within
           && Rest(u) == LeftInside(AsRead(s), j, s.flush.within)
         else
           u.windexlast == s.windexlast + j + 1 && u.off == 0 && Rest(u) == LeftPast(AsRead(s), j)
  {
    SettleEnabled(s);
    hide FlushInv;
  }

  lemma SettleFlushes(s: State)
    requires FlushInv(s) && s.flush.Found? && s.flush.start == s.windexlast
    requires s.windexlast <= |s.slots| == |s.written| && s.flush.taken <= |s.wire|
    ensures CanSettle(s) && |s.flush.read| <= |s.slots| - s.windexlast && Settle(s).windexlast <= |s.slots|
    ensures var u := Settle(s);
      FlushedTo(AsRead(s), s.windexlast, s.off, |s.wire| - s.flush.taken, |s.flush.read| - 1, s.flush.within,
                Rest(u), u.windexlast, u.off, |s.wire|)
  {
    RestAfterSettle(s);
    SettleEnabled(s);
    var j := |s.flush.read| - 1;
    assert AsRead(s)[..j] == s.flush.read[..j];
    assert s.flush.taken == |Cat(s.flush.read[..j])| + s.flush.within;
    hide FlushInv, Cat, Settle, Rest, AsRead, LeftInside, LeftPast;
  }

  lemma AsReadIs(s: State, k: nat)
    requires FlushInv(s) && s.flush.Found? && s.flush.start == s.windexlast
    requires s.windexlast <= |s.slots| == |s.written| && k < |Rest(s)|
    ensures CanSettle(s) && |s.flush.read| <= |s.slots| - s.windexlast
    ensures if k < |s.flush.read| && s.flush.read[k] == [] then AsRead(s)[k] == [] && !(k == 0 && s.off > 0)
            else AsRead(s)[k] == Rest(s)[k]
  {
    SettleEnabled(s);
    if k < |s.flush.read| {
      FoundFull(s, k);
      FirstFoundFull(s);
    }
    hide FlushInv, CanSettle;
  }

  lemma SettledSlot(s: State, k: nat)
    requires FlushInv(s) && s.flush.Found? && s.flush.start == s.windexlast
    requires s.windexlast <= |s.slots| == |s.written| && k < |Rest(s)|
    ensures CanSettle(s) && |s.flush.read| <= |s.slots| - s.windexlast
    ensures |Kept(s)| == |Kept(Settle(s))| == |s.slots|
    ensures SameOrBlank(Kept(s), Rest(s), Kept(Settle(s)), AsRead(s), s.windexlast, s.off, k)
  {
    AsReadIs(s, k);
    SettleEnabled(s);
    KeptAt(s, s.windexlast + k);
    InBlank(s.windexlast, s.flush.read, k);
    hide FlushInv, CanSettle, Kept, Settle, Blank, AsRead, Rest;
  }

  lemma AsReadAdvanced(s: State)
    requires AccountInv(s) && FlushInv(s) && s.flush.Found? && s.flush.start == s.windexlast
    ensures CanSettle(s) && |s.flush.read| <= |s.slots| - s.windexlast
    ensures Advanced(Kept(Settle(s)), AsRead(s), s.windexlast, s.off, |s.wire| - s.flush.taken)
  {
    SettleEnabled(s);
    KeptBefore(s);
    hide FlushInv, Kept, Settle, Advanced, AsRead, Rest, CanSettle, SameOrBlank;
    var kept, rest, kept', rest' := Kept(s), Rest(s), Kept(Settle(s)), AsRead(s);
    forall k | 0 <= k < |rest| ensures SameOrBlank(kept, rest, kept', rest', s.windexlast, s.off, k) {
      SettledSlot(s, k);
    }
    BlankedAdvanced(kept, rest, kept', rest', s.windexlast, s.off, |s.wire| - s.flush.taken);
  }

  lemma SettleFrame(s: State)
    requires CanSettle(s) && |s.written| == |s.slots|
    ensures var u := Settle(s);
      |u.written| == |u.slots| == |s.slots| && u.written == s.written && u.wire == s.wire && !InCheck(u) && Pending(u) == 0
      && u.miscounted == s.miscounted && u.flush == Moved(s.flush.w, s.flush.taken)
  {
  }

  lemma SettleAccounts(s: State)
    requires AccountInv(s) && FlushInv(s) && s.flush.Found? && s.flush.start == s.windexlast
    ensures CanSettle(s) && AccountInv(Settle(s))
  {
    AsReadAdvanced(s);
    SettleFlushes(s);
    SettleFrame(s);
    assert s.flush.taken == Pending(s) <= |s.wire|;
    hide Cat, Kept, Settle, FlushInv, Advanced, AsRead, FlushedTo, Rest, CanSettle;
    var u := Settle(s);
    AdvancesTo(Kept(u), AsRead(s), s.windexlast, s.off, |s.wire| - s.flush.taken, |s.flush.read| - 1, s.flush.within,
               Rest(u), u.windexlast, u.off, |u.wire|);
  }

  /** If nothing was miscounted, the check has found what was offered. */
  lemma ReadAsOffered(s: State)
    requires FlushInv(s) && s.flush.Found? && s.miscounted == {}
    ensures |s.flush.read| <= |s.flush.offered| && s.flush.read == s.flush.offered[..|s.flush.read|]
  {
    hide Cat, OfferInv;
    forall j | 0 <= j < |s.flush.read| ensures s.flush.read[j] == s.flush.offered[j] {
      assert ReadInv(s, s.flush.start, s.flush.offered, s.flush.read, j);
    }
  }

  lemma CatOfPrefix<T>(some: seq<seq<T>>, all: seq<seq<T>>, n: nat)
    requires some <= all && n <= |Cat(some)|
    ensures n <= |Cat(all)| && Cat(all)[..n] == Cat(some)[..n]
  {
    hide Cat;
    assert all == some + all[|some|..];
    CatAppend(some, all[|some|..]);
    TakenFromFirst(Cat(some), Cat(all[|some|..]), n);
  }

  /** The bytes sent are those that the check counts. */
  lemma CountedWasSent(s: State)
    requires FlushInv(s) && s.flush.Found? && s.flush.start == s.windexlast && s.miscounted == {} && s.windexlast <= |s.slots|
    ensures |s.flush.read| <= |s.slots| - s.windexlast
    ensures s.flush.taken <= |s.wire| && Follows(s.wire, |s.wire| - s.flush.taken, Cat(AsRead(s)))
  {
    SettleEnabled(s);
    ReadAsOffered(s);
    var read := s.flush.read;
    EndsAtSlot(read, |read| - 1);
    assert read[..|read| - 1 + 1] == read;
    assert read <= AsRead(s);
    assert s.wire[|s.wire| - s.flush.taken..] == Cat(s.flush.offered)[..s.flush.taken];
    hide Cat, FlushInv, AsRead;
    CatOfPrefix(read, s.flush.offered, s.flush.taken);
    CatOfPrefix(read, AsRead(s), s.flush.taken);
  }

  /** Behind the first n, it is the beginning of the rest. */
  ghost predicate Follows<T>(wire: seq<T>, n: nat, rest: seq<T>)
    requires n <= |wire|
  {
    |wire| - n <= |rest| && wire[n..] == rest[..|wire| - n]
  }

  lemma JoinPrefix<T>(wire: seq<T>, n: nat, all: seq<T>, rest: seq<T>)
    requires n <= |wire| && Starts(wire[..n], all) && n <= |all| && rest == all[n..] && Follows(wire, n, rest)
    ensures Starts(wire, all)
  {
    assert wire == wire[..n] + wire[n..];
  }

  /** The slots found empty are not among those counted before. */
  lemma CountedStays(s: State)
    requires AccountInv(s) && FlushInv(s) && s.flush.Found? && s.flush.start == s.windexlast
    ensures CanSettle(s) && s.flush.taken <= |s.wire|
    ensures AlikeTo(Cat(Kept(s)), Cat(Kept(Settle(s))), |s.wire| - s.flush.taken)
  {
    SettleEnabled(s);
    AsReadAdvanced(s);
    KeptBefore(s);
    SettledSlot(s, 0);
    hide Cat, Kept, Settle, FlushInv, Advanced, AsRead, Rest, CanSettle;
    SentBefore(Kept(s), Rest(s), Kept(Settle(s)), AsRead(s), s.windexlast, s.off, |s.wire| - s.flush.taken);
  }

  lemma SettledStarts<T>(wire: seq<T>, n: nat, kept: seq<seq<T>>, kept': seq<seq<T>>, rest: seq<seq<T>>, f: nat, off: nat)
    requires n <= |wire| && Starts(wire[..n], Cat(kept)) && AlikeTo(Cat(kept), Cat(kept'), n)
    requires Advanced(kept', rest, f, off, n) && Follows(wire, n, Cat(rest))
    ensures Starts(wire, Cat(kept'))
  {
    PrefixStays(wire[..n], Cat(kept), Cat(kept'));
    AdvancedRest(kept', rest, f, off, n);
    JoinPrefix(wire, n, Cat(kept'), Cat(rest));
    hide Cat, Advanced, AlikeTo, Follows, Starts;
  }

  lemma SettlePrefix(s: State)
    requires AccountInv(s) && PrefixInv(s) && FlushInv(s) && s.flush.Found? && s.flush.start == s.windexlast
    ensures CanSettle(s) && PrefixInv(Settle(s))
  {
    CountedStays(s);
    SettleFrame(s);
    if s.miscounted == {} {
      AsReadAdvanced(s);
      CountedWasSent(s);
      hide Cat, Kept, Settle, FlushInv, Advanced, AsRead, Rest, CanSettle, AlikeTo, Follows, Starts;
      var u := Settle(s);
      SettledStarts(s.wire, |s.wire| - s.flush.taken, Kept(s), Kept(u), AsRead(s), s.windexlast, s.off);
      assert Past(u) == s.wire;
    }
  }

  /** Ahead of windexlast a slot holds all that was written to it; at windexlast, what is left of it. */
  lemma AheadWhole(s: State, k: nat)
    requires AccountInv(s) && EdgeInv(s) && s.windexlast <= k < |s.slots|
    ensures if k == s.windexlast then s.off <= |Content(s.written[k])| && s.slots[k] == Content(s.written[k])[s.off..]
            else s.slots[k] == Content(s.written[k])
  {
    hide Cat;
    assert s.slots[k] == Rest(s)[k - s.windexlast];
    assert Kept(s)[k] == Content(s.written[k]);
  }

  /** Where a settled flush leaves windexlast, and how far into its slot. */
  lemma SettledAt(s: State)
    requires AccountInv(s) && EdgeInv(s) && FlushInv(s) && s.flush.Found? && s.flush.start == s.windexlast
    ensures CanSettle(s) && s.flush.start == s.windexlast
    ensures var u, stop := Settle(s), s.windexlast + |s.flush.read| - 1;
      && stop < |s.slots| && s.written[stop].Some? && s.slots[stop] != []
      && ((u.windexlast == stop + 1 && u.off == 0) || (u.windexlast == stop && 0 < u.off < |s.written[stop].value|))
  {
    SettleEnabled(s);
    var stop := s.windexlast + |s.flush.read| - 1;
    Ahead(s, stop);
    AheadWhole(s, stop);
    hide AccountInv, EdgeInv, FlushInv, Blank;
  }

  lemma SkippedAfterSettle(s: State)
    requires CanSettle(s) && s.flush.start == s.windexlast
    ensures Settle(s).skipped == s.skipped + Blank(s.windexlast, s.flush.read)
  {
  }

  /** A slot found empty is behind the one where the send stopped. */
  lemma BlankIsBehind(s: State, k: nat)
    requires FlushInv(s) && s.flush.Found? && s.flush.start == s.windexlast && k in Blank(s.windexlast, s.flush.read)
    ensures k < s.windexlast + |s.flush.read| - 1
  {
    SettleEnabled(s);
    hide FlushInv;
  }

  lemma SkippedArePassed(s: State, k: nat)
    requires AccountInv(s) && EdgeInv(s) && FlushInv(s) && s.flush.Found?
    requires s.flush.start == s.windexlast && CanSettle(s) && k in Settle(s).skipped
    ensures k < Settle(s).windexlast <= |s.slots|
  {
    SettledAt(s);
    SkippedAfterSettle(s);
    hide AccountInv, Settle, CanSettle, Blank, FlushInv;
    if k !in s.skipped {
      BlankIsBehind(s, k);
    }
    hide EdgeInv;
  }

  lemma UnwrittenReadsEmpty(s: State, j: nat)
    requires AccountInv(s) && EdgeInv(s) && FlushInv(s) && s.flush.Found? && s.flush.start == s.windexlast && j < |s.flush.read|
    requires s.windexlast + j < |s.slots| && s.written[s.windexlast + j] == None
    ensures s.flush.read[j] == []
  {
    FoundFull(s, j);
    Ahead(s, s.windexlast + j);
    hide AccountInv, EdgeInv, FlushInv;
  }

  lemma PassedAreSkipped(s: State, k: nat)
    requires AccountInv(s) && EdgeInv(s) && FlushInv(s) && s.flush.Found? && s.flush.start == s.windexlast && CanSettle(s)
    requires k < Settle(s).windexlast && k < |s.slots| && s.written[k] == None
    ensures k in Settle(s).skipped
  {
    SettledAt(s);
    SkippedAfterSettle(s);
    hide Settle, CanSettle, Blank;
    if k >= s.windexlast {
      assert k - s.windexlast < |s.flush.read|;
      UnwrittenReadsEmpty(s, k - s.windexlast);
      InBlank(s.windexlast, s.flush.read, k - s.windexlast);
    }
    hide AccountInv, FlushInv;
  }

  lemma SettleKeepsEdge(s: State)
    requires AccountInv(s) && EdgeInv(s) && FlushInv(s) && s.flush.Found? && s.flush.start == s.windexlast
    ensures CanSettle(s) && EdgeInv(Settle(s))
  {
    SettledAt(s);
    SettleFrame(s);
    hide Cat, AccountInv, FlushInv, Settle, CanSettle;
    var u := Settle(s);
    forall k: nat ensures MarkedAt(u, k) {
      assert MarkedAt(s, k);
    }
    forall k | k in u.skipped ensures k < u.windexlast <= |u.slots| {
      SkippedArePassed(s, k);
    }
    forall k | 0 <= k < u.windexlast && k < |u.slots| && u.written[k] == None ensures k in u.skipped {
      PassedAreSkipped(s, k);
    }
  }

  lemma SettleKeepsRest(s: State)
    requires BufferInv(s) && s.flush.Found? && s.flush.start == s.windexlast
    ensures CanSettle(s) && FlushInv(Settle(s)) && LostInv(Settle(s)) && WireInv(Settle(s))
  {
    SettledAt(s);
    SettleFrame(s);
    hide Cat, AccountInv, PrefixInv, EdgeInv, FlushInv, Settle, CanSettle;
  }

  lemma HoldsAtLeast<T>(slots: seq<seq<T>>, d: nat)
    requires d < |slots|
    ensures |slots[d]| <= |Cat(slots)|
  {
    CatSplit(slots, 0, d, |slots|);
    hide Cat;
    assert slots[0..|slots|] == slots;
  }

  /** The check of a harmless flush stops where the send did. */
  lemma StaleStop(s: State)
    requires FlushInv(s) && s.flush.Found? && s.flush.start < s.windexlast
    ensures CanSettle(s) && s.windexlast < |s.slots| && s.flush.within == s.flush.taken < |s.slots[s.windexlast]|
    ensures s.flush.start + |s.flush.read| == s.windexlast + 1
    ensures s.slots[s.windexlast][..s.flush.taken] == Cat(s.flush.offered)[..s.flush.taken]
  {
    SettleEnabled(s);
    var start, read, offered := s.flush.start, s.flush.read, s.flush.offered;
    var d, last := s.windexlast - start, |read| - 1;
    assert OfferInv(s, start, offered, d);
    FirstFull(offered, d, s.flush.taken);
    forall j | 0 <= j < d && j < |read| ensures read[j] == [] {
      assert ReadInv(s, start, offered, read, j);
    }
    assert d < |read| ==> ReadInv(s, start, offered, read, d);
    hide Cat, OfferInv;
    if d < last {
      HoldsAtLeast(read[..last], d);
    } else {
      FirstFull(read, d, 0);
    }
  }

  lemma StaleSettleIs(s: State)
    requires FlushInv(s) && s.flush.Found? && s.flush.start < s.windexlast
    ensures CanSettle(s) && s.windexlast < |s.slots| && s.flush.taken < |s.slots[s.windexlast]|
    ensures var f := s.windexlast;
      Settle(s) == s.(slots := s.slots[f := s.slots[f][s.flush.taken..]], off := s.off + s.flush.taken,
                      flush := Moved(s.flush.w, s.flush.taken))
  {
    StaleStop(s);
    hide FlushInv, Blank;
  }

  lemma StaleSettleAccounts(s: State)
    requires AccountInv(s) && FlushInv(s) && s.flush.Found? && s.flush.start < s.windexlast
    ensures CanSettle(s) && AccountInv(Settle(s))
  {
    StaleSettleIs(s);
    var u, kept, rest := Settle(s), Kept(s), Rest(s);
    assert Kept(u) == kept && Rest(u) == LeftInside(rest, 0, s.flush.taken);
    assert rest[..0] == [] && Cat<Mark>([]) == [];
    hide Cat, Kept, Rest, LeftInside, Settle, FlushInv, Advanced;
    InsideAdvances(kept, rest, s.windexlast, s.off, |s.wire| - s.flush.taken, 0, s.flush.taken);
  }

  lemma StaleSettlePrefix(s: State)
    requires AccountInv(s) && PrefixInv(s) && FlushInv(s) && s.flush.Found? && s.flush.start < s.windexlast
    ensures CanSettle(s) && PrefixInv(Settle(s))
  {
    StaleSettleIs(s);
    StaleStop(s);
    var u, kept, rest, n := Settle(s), Kept(s), Rest(s), |s.wire| - s.flush.taken;
    assert Kept(u) == kept && rest[0] == s.slots[s.windexlast];
    assert s.wire[n..] == Cat(s.flush.offered)[..s.flush.taken];
    FirstFull(rest, 0, s.flush.taken);
    hide Cat, Kept, Rest, Settle, FlushInv, Advanced;
    if s.miscounted == {} {
      SettledStarts(s.wire, n, kept, kept, rest, s.windexlast, s.off);
      assert Past(u) == s.wire;
    }
  }

  lemma StaleSettleRest(s: State)
    requires BufferInv(s) && s.flush.Found? && s.flush.start < s.windexlast
    ensures CanSettle(s) && EdgeInv(Settle(s)) && FlushInv(Settle(s)) && LostInv(Settle(s)) && WireInv(Settle(s))
  {
    StaleSettleIs(s);
    StaleStop(s);
    AheadWhole(s, s.windexlast);
    Ahead(s, s.windexlast);
    hide Cat, AccountInv, PrefixInv, FlushInv, Settle, CanSettle;
    forall k: nat ensures MarkedAt(Settle(s), k) {
      assert MarkedAt(s, k);
    }
  }

  lemma SettleKeeps(s: State)
    requires BufferInv(s) && s.flush.Found?
    ensures CanSettle(s) && BufferInv(Settle(s))
  {
    SettleEnabled(s);
    if s.flush.start == s.windexlast {
      SettleAccounts(s);
      SettlePrefix(s);
      SettleKeepsEdge(s);
      SettleKeepsRest(s);
    } else {
      StaleSettleAccounts(s);
      StaleSettlePrefix(s);
      StaleSettleRest(s);
    }
    hide AccountInv, PrefixInv, EdgeInv, FlushInv, LostInv, WireInv;
  }
}
