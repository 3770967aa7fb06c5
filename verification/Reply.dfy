/**
 The reply buffer of a connection (aConnReply.cpp): an array of (base, length) slots handed
 to sendmsg, advanced in place when the kernel takes only part of what it is offered.
 */
module Reply {
  import opened Bytes

  const IOV_MAX: nat := 1024
  const FLUSH_SIZE: nat := 126 * 1024
  const FLUSH_SLOTS: nat := 1024
  const INT32_LIMIT: nat := 0x8000_0000
  const MAX_SEND: nat := 0x7fff_f000   // the most one sendmsg ever takes

  /** What the next call to sendmsg does: takes up to so many bytes, or fails with an errno. */
  datatype SendResult = Takes(count: nat) | Interrupted | WouldBlock | SelectFails | Fails

  const END_LINE: seq<byte> := [69, 78, 68, CR, LF]

  /** "VALUE <key> 0 <bytes> 1\r\n" */
  function ValueLine(key: seq<byte>, bytes: nat): seq<byte> {
    [86, 65, 76, 85, 69, SPACE] + key + [SPACE, 48, SPACE] + Decimal(bytes) + [SPACE, 49, CR, LF]
  }

  // ---------------------------------------------------------------- what the kernel does

  /** How much of what it is offered a call takes. */
  function Taken(count: nat, offered: nat): (n: nat)
    ensures n <= offered && n <= count && n <= MAX_SEND
  {
    Min(Min(count, offered), MAX_SEND)
  }

  /** Past the calls that a signal interrupts. */
  function Quiet(script: seq<SendResult>): (q: seq<SendResult>)
    ensures |q| <= |script| && (q == [] || q[0] != Interrupted)
  {
    if script != [] && script[0] == Interrupted then Quiet(script[1..]) else script
  }

  /** What sendmsg, called again for as long as a signal interrupts it, returns in the end. */
  function Sends(script: seq<SendResult>, offered: nat): (r: int)
    ensures -1 <= r <= offered && r <= MAX_SEND
  {
    var q := Quiet(script);
    if q != [] && q[0].Takes? then Taken(q[0].count, offered) else -1
  }

  function AfterSend(script: seq<SendResult>): (rest: seq<SendResult>)
    ensures Quiet(script) != [] ==> |rest| < |script|
  {
    var q := Quiet(script);
    if q == [] then [] else q[1..]
  }

  // ---------------------------------------------------------------- slots as a sequence

  function Take(s: seq<byte>, n: nat): seq<byte> {
    if n <= |s| then s[..n] else s
  }

  /** The bytes that each slot offers. */
  function Offers(base: seq<seq<byte>>, len: seq<nat>): (r: seq<seq<byte>>)
    requires |base| == |len|
    ensures |r| == |base| && forall k :: 0 <= k < |r| ==> r[k] == Take(base[k], len[k])
  {
    seq(|base|, k requires 0 <= k < |base| => Take(base[k], len[k]))
  }

  function Cat<T>(slots: seq<seq<T>>): seq<T> {
    if slots == [] then [] else slots[0] + Cat(slots[1..])
  }

  lemma {:induction false} CatAppend<T>(a: seq<seq<T>>, b: seq<seq<T>>)
    ensures Cat(a + b) == Cat(a) + Cat(b)
  {
    if a == [] {
      assert a + b == b;
    } else {
      assert (a + b)[1..] == a[1..] + b;
      CatAppend(a[1..], b);
    }
  }

  lemma CatSplit<T>(slots: seq<seq<T>>, i: nat, j: nat, k: nat)
    requires i <= j <= k <= |slots|
    ensures Cat(slots[i..k]) == Cat(slots[i..j]) + Cat(slots[j..k])
    ensures i < k ==> Cat(slots[i..k]) == slots[i] + Cat(slots[i + 1..k])
  {
    assert slots[i..k] == slots[i..j] + slots[j..k];
    CatAppend(slots[i..j], slots[j..k]);
    if i < k {
      assert slots[i..k][1..] == slots[i + 1..k];
    }
  }

  /** One slot more at the end. */
  lemma CatGrow<T>(slots: seq<seq<T>>, i: nat, k: nat)
    requires i <= k < |slots|
    ensures Cat(slots[i..k + 1]) == Cat(slots[i..k]) + slots[k]
  {
    CatSplit(slots, i, k, k + 1);
    assert slots[k..k + 1] == [slots[k]];
    assert Cat([slots[k]]) == slots[k] + Cat([]);
  }

  lemma {:induction false} CatOfEmpty<T>(slots: seq<seq<T>>)
    requires forall k :: 0 <= k < |slots| ==> slots[k] == []
    ensures Cat(slots) == []
  {
    if slots != [] {
      CatOfEmpty(slots[1..]);
    }
  }

  /** What reaches the client of slots that are offered once. */
  ghost function SentOf(slots: seq<seq<byte>>, script: seq<SendResult>): seq<byte> {
    var r := Sends(script, |Cat(slots)|);
    if r > 0 then Cat(slots)[..r] else []
  }

  // ---------------------------------------------------------------- sending to the last slot

  /** Why no more was sent. */
  datatype Ending = AtSlotEnd | TookNothing | Failed

  ghost predicate SlotEnd(slots: seq<seq<byte>>, n: nat) {
    exists e :: 0 <= e <= |slots| && |Cat(slots[..e])| == n
  }

  /**
   How many bytes of the slots the client has in the end if it has the first sent by now: a
   send that stops exactly at a slot's end is taken for the last one.
   */
  ghost function Outcome(slots: seq<seq<byte>>, sent: nat, script: seq<SendResult>): (r: (nat, Ending))
    requires sent <= |Cat(slots)|
    ensures sent <= r.0 <= |Cat(slots)|
    decreases |script|
  {
    if script == [] then (sent, Failed)
    else
      match script[0]
      case Takes(count) =>
        var n := Taken(count, |Cat(slots)| - sent);
        if n == 0 then (sent, TookNothing)
        else if SlotEnd(slots, sent + n) then (sent + n, AtSlotEnd)
        else Outcome(slots, sent + n, script[1..])
      case Interrupted => Outcome(slots, sent, script[1..])
      case WouldBlock => Outcome(slots, sent, script[1..])
      case _ => (sent, Failed)
  }

  lemma {:induction false} OutcomeOfSend(slots: seq<seq<byte>>, sent: nat, script: seq<SendResult>)
    requires sent <= |Cat(slots)|
    ensures var r, q := Sends(script, |Cat(slots)| - sent), Quiet(script);
      Outcome(slots, sent, script) ==
      if r == 0 then (sent, TookNothing)
      else if r > 0 then
        if SlotEnd(slots, sent + r) then (sent + r, AtSlotEnd) else Outcome(slots, sent + r, AfterSend(script))
      else if q != [] && q[0] == WouldBlock then Outcome(slots, sent, AfterSend(script))
      else (sent, Failed)
    decreases |script|
  {
    hide Cat, SlotEnd;
    if script != [] && script[0] == Interrupted {
      OutcomeOfSend(slots, sent, script[1..]);
    }
  }

  /** Every call takes something, and there are enough of them. */
  predicate Positive(script: seq<SendResult>, n: nat) {
    n <= |script| && forall i :: 0 <= i < |script| ==> script[i].Takes? && script[i].count > 0
  }

  /** What the first k calls take, of a supply without end. */
  function Total(script: seq<SendResult>, k: nat): nat
    requires k <= |script| && Positive(script, k)
  {
    if k == 0 then 0 else Min(script[0].count, MAX_SEND) + Total(script[1..], k - 1)
  }

  /** Some send takes no more than is left, and stops short of the end exactly at a slot's end. */
  ghost predicate StopsShort(slots: seq<seq<byte>>, sent: nat, script: seq<SendResult>)
    requires Positive(script, 0)
  {
    exists k :: 1 <= k <= |script| && sent + Total(script, k) < |Cat(slots)| && SlotEnd(slots, sent + Total(script, k))
  }

  /**
   Over positive sends, which may all be short, everything is sent exactly if none of them
   stops short at a slot's end; and the loop always ends by taking a stop for the last.
   */
  lemma {:induction false} WholeExactly(slots: seq<seq<byte>>, sent: nat, script: seq<SendResult>)
    requires sent < |Cat(slots)| && Positive(script, |Cat(slots)| - sent)
    ensures var (n, ending) := Outcome(slots, sent, script);
      ending == AtSlotEnd && (n == |Cat(slots)| <==> !StopsShort(slots, sent, script))
    decreases |script|
  {
    hide Cat, SlotEnd;
    var n := Taken(script[0].count, |Cat(slots)| - sent);
    assert slots[..|slots|] == slots;
    AllIsSlotEnd(slots);
    TotalGrows(script);
    if sent + n < |Cat(slots)| && !SlotEnd(slots, sent + n) {
      WholeExactly(slots, sent + n, script[1..]);
      StopsLater(slots, sent, script);
    } else if sent + n < |Cat(slots)| {
      assert Total(script, 1) == n + Total(script[1..], 0);
    }
  }

  /** The failing case: a first send of exactly the first slot is taken for the last one. */
  lemma SlotEndCutsShort(a: seq<byte>, b: seq<byte>, rest: seq<SendResult>)
    requires a != [] && b != [] && |a| <= MAX_SEND
    ensures |a| < |Cat([a, b])| && Outcome([a, b], 0, [Takes(|a|)] + rest) == (|a|, AtSlotEnd)
  {
    assert [a, b][..1] == [a] && [a, b] == [a] + [b];
    CatOne(a);
    CatOne(b);
    CatCons(a, [b]);
    assert SlotEnd([a, b], 0 + |a|);
  }

  lemma AllIsSlotEnd(slots: seq<seq<byte>>)
    ensures SlotEnd(slots, |Cat(slots)|)
  {
    assert slots[..|slots|] == slots;
  }

  lemma TotalGrows(script: seq<SendResult>)
    requires Positive(script, 1)
    ensures forall k :: 1 <= k <= |script| ==> Total(script, k) == Min(script[0].count, MAX_SEND) + Total(script[1..], k - 1)
    ensures forall k :: 1 <= k <= |script| ==> Total(script, k) >= Min(script[0].count, MAX_SEND)
  {
  }

  lemma StopsLater(slots: seq<seq<byte>>, sent: nat, script: seq<SendResult>)
    requires Positive(script, 1)
    requires var n := Min(script[0].count, MAX_SEND); sent + n < |Cat(slots)| && !SlotEnd(slots, sent + n)
    ensures StopsShort(slots, sent, script) <==> StopsShort(slots, sent + Min(script[0].count, MAX_SEND), script[1..])
  {
    hide Cat, SlotEnd;
    TotalGrows(script);
    var n, rest := Min(script[0].count, MAX_SEND), script[1..];
    assert Total(script, 1) == n;
    if StopsShort(slots, sent, script) {
      var k :| 1 <= k <= |script| && sent + Total(script, k) < |Cat(slots)| && SlotEnd(slots, sent + Total(script, k));
      assert k > 1 && Total(script, k) == n + Total(rest, k - 1);
    }
    if StopsShort(slots, sent + n, rest) {
      var k :| 1 <= k <= |rest| && sent + n + Total(rest, k) < |Cat(slots)| && SlotEnd(slots, sent + n + Total(rest, k));
      assert Total(script, k + 1) == n + Total(rest, k);
    }
  }

  /** The slots from f on, the first of them advanced by off, are what is left after the first sent bytes. */
  ghost predicate Advanced<T>(slots: seq<seq<T>>, rest: seq<seq<T>>, f: nat, off: nat, sent: nat) {
    && f + |rest| == |slots| && sent == |Cat(slots[..f])| + off
    && (if rest == [] then off == 0 else off <= |slots[f]| && rest[0] == slots[f][off..])
    && forall k :: 1 <= k < |rest| ==> rest[k] == slots[f + k]
  }

  lemma NothingSent(slots: seq<seq<byte>>)
    ensures Advanced(slots, slots, 0, 0, 0)
  {
    assert slots[..0] == [];
  }

  lemma AdvancedRest<T>(slots: seq<seq<T>>, rest: seq<seq<T>>, f: nat, off: nat, sent: nat)
    requires Advanced(slots, rest, f, off, sent)
    ensures sent <= |Cat(slots)| && Cat(rest) == Cat(slots)[sent..]
    ensures forall j :: 1 <= j <= |rest| ==> sent + |Cat(rest[..j])| == |Cat(slots[..f + j])|
  {
    assert rest == [] ==> Cat(rest) == [];
    hide Cat;
    var before := Cat(slots[..f]);
    if rest == [] {
      assert slots[..f] == slots;
    } else {
      forall j | 1 <= j <= |rest|
        ensures Cat(slots[..f + j]) == before + slots[f][..off] + Cat(rest[..j])
      {
        var more := slots[f + 1..f + j];
        assert rest[..j] == [rest[0]] + more;
        assert slots[..f + j] == slots[..f] + ([slots[f]] + more);
        CatAppend(slots[..f], [slots[f]] + more);
        CatCons(slots[f], more);
        CatCons(rest[0], more);
        assert slots[f] == slots[f][..off] + rest[0];
      }
      assert rest[..|rest|] == rest && slots[..|slots|] == slots;
    }
  }

  lemma CatCons<T>(x: seq<T>, more: seq<seq<T>>)
    ensures Cat([x] + more) == x + Cat(more)
  {
    assert ([x] + more)[1..] == more;
  }

  lemma CatOne<T>(x: seq<T>)
    ensures Cat([x]) == x
  {
    assert [x][1..] == [];
  }

  lemma StopsAtSlotEnd(slots: seq<seq<byte>>, rest: seq<seq<byte>>, f: nat, off: nat, sent: nat, j: nat)
    requires Advanced(slots, rest, f, off, sent) && j <= |rest| && Cat(rest[..j]) != []
    ensures SlotEnd(slots, sent + |Cat(rest[..j])|)
  {
    AdvancedRest(slots, rest, f, off, sent);
    assert j > 0;
  }

  lemma StopsInside(slots: seq<seq<byte>>, rest: seq<seq<byte>>, f: nat, off: nat, sent: nat, j: nat, r: nat)
    requires Advanced(slots, rest, f, off, sent) && j < |rest|
    requires |Cat(rest[..j])| < r < |Cat(rest[..j + 1])|
    ensures !SlotEnd(slots, sent + r)
  {
    assert j == 0 ==> Cat(rest[..j]) == [];
    AdvancedRest(slots, rest, f, off, sent);
    hide Cat, SlotEnd;
    NotBetween(slots, f + j, sent + r);
  }

  lemma AdvancedMore<T>(slots: seq<seq<T>>, rest: seq<seq<T>>, f: nat, off: nat, sent: nat, j: nat, r: nat,
                        rest': seq<seq<T>>)
    requires Advanced(slots, rest, f, off, sent) && j < |rest|
    requires |Cat(rest[..j])| <= r <= |Cat(rest[..j])| + |rest[j]|
    requires rest' == [rest[j][r - |Cat(rest[..j])|..]] + rest[j + 1..]
    ensures Advanced(slots, rest', f + j, (if j == 0 then off else 0) + r - |Cat(rest[..j])|, sent + r)
  {
    if j == 0 {
      assert Cat(rest[..j]) == [];
      hide Cat;
      SliceOfSlice(slots[f], off, r);
    } else {
      AdvancedRest(slots, rest, f, off, sent);
      hide Cat;
      assert rest[j] == slots[f + j];
    }
  }

  lemma SliceOfSlice<T>(x: seq<T>, i: nat, j: nat)
    requires i + j <= |x|
    ensures x[i..][j..] == x[i + j..]
  {
  }

  lemma RoundAtSlotEnd(slots: seq<seq<byte>>, whole: seq<seq<byte>>, from: nat, last: nat, iovEnd: nat, off: nat, sent: nat)
    requires from <= last <= |whole| && from <= iovEnd <= |whole| && last - from <= |slots|
    requires forall k :: last <= k < |whole| ==> whole[k] == []
    requires Advanced(slots, whole[from..last], |slots| - (last - from), off, sent)
    requires Cat(whole[from..iovEnd]) != []
    ensures SlotEnd(slots, sent + |Cat(whole[from..iovEnd])|)
  {
    hide Cat, Advanced, SlotEnd;
    var end := Min(iovEnd, last);
    EmptyAfter(whole, from, end, iovEnd);
    assert whole[from..end] == whole[from..last][..end - from];
    StopsAtSlotEnd(slots, whole[from..last], |slots| - (last - from), off, sent, end - from);
  }

  lemma OneSlotChanged(whole: seq<seq<byte>>, now: seq<seq<byte>>, from: nat, last: nat, k: nat)
    requires from <= k < last <= |whole| == |now|
    requires forall i :: 0 <= i < |whole| && i != k ==> now[i] == whole[i]
    ensures now[k..last] == [now[k]] + whole[from..last][k - from + 1..]
  {
  }

  lemma RoundInside(slots: seq<seq<byte>>, whole: seq<seq<byte>>, now: seq<seq<byte>>, from: nat, last: nat, iovEnd: nat,
                    off: nat, sent: nat, r: nat) returns (off': nat)
    requires from <= last <= |whole| == |now| && from <= iovEnd < |whole| && last - from <= |slots|
    requires forall k :: last <= k < |whole| ==> whole[k] == []
    requires Advanced(slots, whole[from..last], |slots| - (last - from), off, sent)
    requires var before := |Cat(whole[from..iovEnd])|;
      && before < r < |Cat(whole[from..iovEnd + 1])|
      && r - before <= |whole[iovEnd]| && now[iovEnd] == whole[iovEnd][r - before..]
    requires forall k :: 0 <= k < |whole| && k != iovEnd ==> now[k] == whole[k]
    ensures iovEnd < last && !SlotEnd(slots, sent + r)
    ensures Advanced(slots, now[iovEnd..last], |slots| - (last - iovEnd), off', sent + r)
  {
    hide Cat, Advanced, SlotEnd;
    CatGrow(whole, from, iovEnd);
    var rest, j := whole[from..last], iovEnd - from;
    assert whole[from..iovEnd] == rest[..j] && whole[from..iovEnd + 1] == rest[..j + 1];
    StopsInside(slots, rest, |slots| - (last - from), off, sent, j, r);
    OneSlotChanged(whole, now, from, last, iovEnd);
    AdvancedMore(slots, rest, |slots| - (last - from), off, sent, j, r, now[iovEnd..last]);
    off' := (if j == 0 then off else 0) + r - |Cat(rest[..j])|;
  }

  lemma NotBetween(slots: seq<seq<byte>>, e: nat, n: nat)
    requires e < |slots| && |Cat(slots[..e])| < n < |Cat(slots[..e + 1])|
    ensures !SlotEnd(slots, n)
  {
    hide Cat;
    forall x | 0 <= x <= |slots|
      ensures |Cat(slots[..x])| != n
    {
      if x <= e {
        CatSplit(slots, 0, x, e);
      } else {
        CatSplit(slots, 0, e + 1, x);
      }
    }
  }

  class Conn {
    const base: array<seq<byte>>     // iov_base: memory from the slot's pointer on
    const len: array<nat>            // iov_len
    const written: array<bool>       // AC_IOVREPLY_DESC_WRITTEN
    var iovIndex: nat
    var windexlast: nat
    var totalsize: nat
    var writingflag: nat
    var script: seq<SendResult>      // what the kernel is going to do; after it, every send fails
    var wire: seq<byte>              // what the client has been sent
    ghost var done: seq<byte>        // what it had been sent before the current command
    ghost var appended: seq<byte>    // all reply bytes of the current command

    ghost predicate Sound()
      reads base, len
    {
      && base.Length == len.Length == written.Length
      && base as object != len as object && base as object != written as object && len as object != written as object
      && forall k :: 0 <= k < base.Length ==> len[k] <= |base[k]| && len[k] < INT32_LIMIT
    }

    ghost function Slots(): (r: seq<seq<byte>>)
      requires Sound()
      reads base, len
      ensures |r| == base.Length && forall k :: 0 <= k < |r| ==> r[k] == base[k][..len[k]]
    {
      Offers(base[..], len[..])
    }

    /** sendmsg over count slots from start. */
    method SendMsg(start: nat, count: nat) returns (r: int, errno: SendResult)
      requires Sound() && start + count <= base.Length
      modifies this`script, this`wire
      ensures script == if old(script) == [] then [] else old(script)[1..]
      ensures old(script) != [] ==> errno == old(script)[0]
      ensures old(script) == [] ==> errno == Fails
      ensures r == if errno.Takes? then Taken(errno.count, |Cat(Slots()[start..start + count])|) else -1
      ensures wire == if r >= 0 then old(wire) + Cat(Slots()[start..start + count])[..r] else old(wire)
    {
      if script == [] {
        return -1, SendResult.Fails;
      }
      errno := script[0];
      script := script[1..];
      if !errno.Takes? {
        return -1, errno;
      }
      var offered := Gather(start, count);
      var n := Taken(errno.count, |offered|);
      wire := wire + offered[..n];
      r := n;
    }

    /** The bytes of count slots from start, in order. */
    method Gather(start: nat, count: nat) returns (bytes: seq<byte>)
      requires Sound() && start + count <= base.Length
      ensures bytes == Cat(Slots()[start..start + count])
    {
      hide Offers, Cat;
      ghost var slots := Slots();
      CatOfEmpty(slots[start..start]);
      bytes := [];
      for i := 0 to count
        invariant bytes == Cat(slots[start..start + i])
      {
        CatGrow(slots, start, start + i);
        bytes := bytes + base[start + i][..len[start + i]];
      }
    }

    /** The loop of CheckIOVTotalWritten: the first slot at whose end writeret bytes are reached. */
    method FindStop(start: nat, count: nat, writeret: nat) returns (found: nat, tmptotal: nat, total: nat)
      requires Sound() && start + count <= base.Length
      requires 0 < writeret <= |Cat(Slots()[start..start + count])| && writeret < INT32_LIMIT
      ensures total == |Cat(Slots()[start..start + count])| % UINT32_RANGE
      ensures found < count && tmptotal == |Cat(Slots()[start..start + found + 1])| >= writeret
      ensures |Cat(Slots()[start..start + found])| < writeret
    {
      hide Offers, Cat;
      ghost var slots := Slots();
      CatOfEmpty(slots[start..start]);
      total, tmptotal, found := 0, 0, count;
      ghost var sum := 0;
      for i := 0 to count
        invariant sum == |Cat(slots[start..start + i])| && total == sum % UINT32_RANGE
        invariant tmptotal == 0 ==> sum < writeret
        invariant tmptotal > 0 ==> found < i && tmptotal == |Cat(slots[start..start + found + 1])| >= writeret
        invariant tmptotal > 0 ==> |Cat(slots[start..start + found])| < writeret
      {
        CatGrow(slots, start, start + i);
        assert |slots[start + i]| == len[start + i];
        SumOfRemainders(sum, len[start + i]);
        sum := sum + len[start + i];
        total := (total + len[start + i]) % UINT32_RANGE;
        if total >= writeret && tmptotal == 0 {
          found := i;
          tmptotal := total;
        }
      }
    }

    /**
     After a send that took writeret bytes: find the slot where it stopped, and if it stopped
     inside one, advance that slot. True if it stopped exactly at a slot's end. sendmsg never
     takes more than it was offered, so the code's branch for that is not reached.
     */
    method CheckIOVTotalWritten(start: nat, count: nat, writeret: nat)
      returns (atBoundary: bool, iovEnd: nat, total: nat)
      requires Sound() && start + count <= base.Length
      requires 0 < writeret <= |Cat(Slots()[start..start + count])| && writeret < INT32_LIMIT
      modifies base, len
      ensures Sound() && start <= iovEnd <= start + count
      ensures total == |old(Cat(Slots()[start..start + count]))| % UINT32_RANGE
      ensures Cat(Slots()[iovEnd..start + count]) == old(Cat(Slots()[start..start + count]))[writeret..]
      ensures forall k :: 0 <= k < base.Length && k != iovEnd ==> Slots()[k] == old(Slots()[k])
      ensures atBoundary ==> Slots() == old(Slots()) && |Cat(Slots()[start..iovEnd])| == writeret
      ensures !atBoundary ==> iovEnd < start + count && 0 < len[iovEnd] < old(len[iovEnd])
      ensures !atBoundary ==>
        var before := |old(Cat(Slots()[start..iovEnd]))|;
        && before < writeret < |old(Cat(Slots()[start..iovEnd + 1]))|
        && writeret - before <= |old(Slots()[iovEnd])| && Slots()[iovEnd] == old(Slots()[iovEnd])[writeret - before..]
    {
      hide Offers, Cat;
      ghost var slots := Slots();
      var found, tmptotal;
      found, tmptotal, total := FindStop(start, count, writeret);
      var stop := start + found;
      CatSplit(slots, start, stop + 1, start + count);
      CatGrow(slots, start, stop);
      ghost var before, after := Cat(slots[start..stop]), Cat(slots[stop + 1..start + count]);
      assert Cat(slots[start..start + count]) == before + slots[stop] + after;
      if tmptotal == writeret {
        iovEnd := stop + 1;
        atBoundary := true;
      } else {
        iovEnd := stop;
        atBoundary := false;
        assert |slots[stop]| == len[stop];
        var seek := writeret - (tmptotal - len[stop]);
        base[stop] := base[stop][seek..];
        len[stop] := len[stop] - seek;
        AfterAdvance(slots, Slots(), start, stop, start + count, seek);
      }
    }

    // ---------------------------------------------------------------- the buffer's invariant

    /** The bytes in the slots that are still to be sent. */
    ghost function Unsent(): seq<byte>
      requires Sound() && windexlast <= iovIndex <= base.Length
      reads this, base, len
    {
      Cat(Slots()[windexlast..iovIndex])
    }

    /** Bytes sent ++ bytes in the slots are the bytes appended, and totalsize counts the rest. */
    ghost predicate Valid()
      reads this, base, len, written
    {
      && Sound() && windexlast <= iovIndex <= base.Length && writingflag == 0
      && (forall k :: 0 <= k < base.Length ==> if k < iovIndex then written[k] else len[k] == 0 && !written[k])
      && done <= wire && wire + Unsent() == done + appended
      && totalsize == |Unsent()| % UINT32_RANGE
    }

    method AddIOVReply(mem: seq<byte>, size: nat, index: nat) returns (added: nat)
      requires Sound() && index < base.Length && size <= |mem| && size < INT32_LIMIT
      modifies base, len, written
      ensures Sound() && added == size && Slots() == old(Slots())[index := mem[..size]]
      ensures written[index] && len[index] == size
      ensures forall k :: 0 <= k < base.Length && k != index ==> written[k] == old(written[k]) && len[k] == old(len[k])
    {
      base[index] := mem;
      len[index] := size;
      written[index] := true;
      added := size;
    }

    /** sendmsg, again for as long as a signal interrupts it. */
    method SendRetrying(start: nat, count: nat) returns (r: int, errno: SendResult)
      requires Sound() && start + count <= base.Length
      modifies this`script, this`wire
      ensures r == Sends(old(script), |Cat(Slots()[start..start + count])|) && script == AfterSend(old(script))
      ensures wire == if r >= 0 then old(wire) + Cat(Slots()[start..start + count])[..r] else old(wire)
      ensures errno == if Quiet(old(script)) == [] then Fails else Quiet(old(script))[0]
      ensures errno.Takes? <==> r >= 0
    {
      hide Offers, Cat;
      r, errno := SendMsg(start, count);
      while r == -1 && errno == Interrupted
        invariant r == -1 && errno == Interrupted ==> Quiet(script) == Quiet(old(script)) && wire == old(wire)
        invariant !(r == -1 && errno == Interrupted) ==>
          && r == Sends(old(script), |Cat(Slots()[start..start + count])|) && script == AfterSend(old(script))
          && wire == (if r >= 0 then old(wire) + Cat(Slots()[start..start + count])[..r] else old(wire))
          && errno == (if Quiet(old(script)) == [] then Fails else Quiet(old(script))[0]) && (errno.Takes? <==> r >= 0)
        decreases |script|, errno == Interrupted
      {
        r, errno := SendMsg(start, count);
      }
    }

    /** One send of at most IOV_MAX slots, skipped if another send is under way. */
    method WriteIOVReply(start: nat, count: nat) returns (ret: int, ghost end: nat)
      requires Sound() && start + count <= base.Length
      modifies this`script, this`wire, this`windexlast, this`writingflag, base, len
      ensures Sound() && writingflag == old(writingflag)
      ensures old(writingflag) != 0 ==> ret == -2 && script == old(script)
      ensures old(writingflag) == 0 ==>
        && ret == Sends(old(script), |old(Cat(Slots()[start..start + Min(count, IOV_MAX)]))|)
        && script == AfterSend(old(script))
      ensures ret <= 0 ==> wire == old(wire) && windexlast == old(windexlast) && Slots() == old(Slots()) && len[..] == old(len[..])
      ensures ret > 0 ==>
        var past := start + Min(count, IOV_MAX);
        && start <= end <= past && ret <= |old(Cat(Slots()[start..past]))|
        && wire == old(wire) + old(Cat(Slots()[start..past]))[..ret]
        && Cat(Slots()[end..past]) == old(Cat(Slots()[start..past]))[ret..]
        && windexlast == if old(windexlast) == start then end else old(windexlast)
      ensures forall k :: 0 <= k < base.Length && !(start <= k < start + Min(count, IOV_MAX)) ==>
        Slots()[k] == old(Slots()[k]) && len[k] == old(len[k])
    {
      hide Offers, Cat, Quiet, Sends, AfterSend;
      end := start;
      if writingflag == 0 {
        writingflag := 1;
        var n := Min(count, IOV_MAX);
        var errno;
        ret, errno := SendRetrying(start, n);
        if ret <= 0 {
          writingflag := 0;
          return;
        }
        var atBoundary, iovEnd, total := CheckIOVTotalWritten(start, n, ret);
        end := iovEnd;
        if windexlast == start {
          windexlast := iovEnd;
        }
        writingflag := 0;
      } else {
        ret := -2;
      }
    }

    /** The two slots of a reply. */
    method FillSlots(line: seq<byte>, value: seq<byte>, index: nat) returns (size: nat)
      requires Sound() && index + 2 <= base.Length && |line| < INT32_LIMIT && |value| + 2 < INT32_LIMIT
      modifies base, len, written
      ensures Sound() && size == |line| + |value| + 2
      ensures Slots() == old(Slots())[index := line][index + 1 := value + [CR, LF]]
      ensures written[index] && written[index + 1]
      ensures forall k :: 0 <= k < base.Length && k != index && k != index + 1 ==>
        written[k] == old(written[k]) && len[k] == old(len[k])
    {
      hide Offers;
      TakenFromFirst(line, [0], |line|);
      TakenFromFirst(value + [CR, LF], [0], |value| + 2);
      assert value + [CR, LF] + [0] == value + [CR, LF, 0];
      size := AddIOVReply(line + [0], |line|, index);
      var more := AddIOVReply(value + [CR, LF, 0], |value| + 2, index + 1);
      size := size + more;
    }

    /** The two slots of a reply, and the count of what is to be sent. */
    method Enqueue(line: seq<byte>, value: seq<byte>, index: nat)
      requires Valid() && index == iovIndex && index + 2 <= base.Length
      requires |line| < 512 && |value| + 2 < INT32_LIMIT
      modifies this`iovIndex, this`totalsize, this`appended, base, len, written
      ensures Valid() && iovIndex == index + 2
      ensures appended == old(appended) + line + (value + [CR, LF])
      ensures Unsent() == old(Unsent()) + line + (value + [CR, LF])
      ensures Slots() == old(Slots())[index := line][index + 1 := value + [CR, LF]]
    {
      hide Offers, Cat, Slots;
      ghost var slots, unsent := Slots(), Unsent();
      iovIndex := index + 2;
      var size := FillSlots(line, value, index);
      SumOfRemainders(|unsent|, size);
      totalsize := (totalsize + size) % UINT32_RANGE;
      appended := appended + line + (value + [CR, LF]);
      TwoMore(slots, Slots(), windexlast, index, line, value + [CR, LF]);
      assert Unsent() == unsent + line + (value + [CR, LF]);
      assert wire + Unsent() == wire + unsent + line + (value + [CR, LF]);
    }

    /** A flush of part of the backlog, and the count of what it sent. */
    method Flush(count: nat)
      requires Valid() && windexlast + count <= iovIndex
      modifies this`script, this`wire, this`windexlast, this`writingflag, this`totalsize, base, len
      ensures Valid() && script == AfterSend(old(script))
      ensures wire == old(wire) + old(SentOf(Slots()[windexlast..windexlast + Min(count, IOV_MAX)], script))
    {
      hide Offers, Cat, Quiet, Sends, AfterSend;
      ghost var slots, start, past := Slots(), windexlast, windexlast + Min(count, IOV_MAX);
      var ret, end := WriteIOVReply(windexlast, count);
      if ret > 0 {
        RestStays(slots, Slots(), start, past, iovIndex, end, ret);
        RemainderLess(|Cat(slots[start..iovIndex])|, ret);
        totalsize := (totalsize + UINT32_RANGE - ret) % UINT32_RANGE;
      }
    }

    /**
     A found key's reply: the VALUE line and the value with its line end go into the next two
     slots, and a large backlog is flushed, all but the slot just filled.
     */
    method QReply(key: seq<byte>, value: seq<byte>)
      requires Valid() && iovIndex + 2 <= base.Length
      requires |key| <= 255 && NulFree(key) && |value| + 2 < INT32_LIMIT
      modifies this, base, len, written
      ensures Valid() && iovIndex == old(iovIndex) + 2 && done == old(done) && old(wire) <= wire
      ensures appended == old(appended) + ValueLine(key, |value|) + (value + [CR, LF])
      ensures var slots := old(Slots()[windexlast..iovIndex]) + [ValueLine(key, |value|)];
        if (|old(Unsent())| + |ValueLine(key, |value|)| + |value| + 2) % UINT32_RANGE > FLUSH_SIZE || |slots| > FLUSH_SLOTS then
          wire == old(wire) + SentOf(slots[..Min(|slots|, IOV_MAX)], old(script)) && script == AfterSend(old(script))
        else
          wire == old(wire) && script == old(script)
    {
      hide Offers, Cat, Decimal, ValueLine, SentOf, AfterSend;
      LineLength(key, |value|);
      var index := iovIndex;
      ghost var slots := Slots()[windexlast..iovIndex] + [ValueLine(key, |value|)];
      Enqueue(ValueLine(key, |value|), value, index);
      index := index + 1;
      var y := windexlast;
      var newindex := index;
      var i := y;
      while i < index
        invariant y <= i <= index && newindex == index
      {
        // the flag tested is always that of the last slot
        if !written[index] {
          newindex := i;
          break;
        }
        i := i + 1;
      }
      if newindex < index {
        index := newindex;
      }
      if totalsize > FLUSH_SIZE || index - y > FLUSH_SLOTS {
        assert Slots()[y..y + Min(index - y, IOV_MAX)] == slots[..Min(|slots|, IOV_MAX)];
        Flush(index - y);
      }
    }

    /**
     One round of WriteAllOnce: a send of iovCount slots from the index given, and the advance
     past what it took. slots is the whole range, of which sent bytes have been taken so far
     and the last slots are left; behind them the buffer is empty.
     */
    method Round(from: nat, iovCount: nat, ghost slots: seq<seq<byte>>, ghost last: nat, ghost off: nat, ghost sent: nat)
      returns (writeret: int, errno: SendResult, atBoundary: bool, iovEnd: nat, ghost off': nat)
      requires Sound() && from <= last <= from + iovCount <= base.Length && last - from <= |slots|
      requires forall k :: last <= k < base.Length ==> len[k] == 0
      requires Advanced(slots, Slots()[from..last], |slots| - (last - from), off, sent)
      modifies this`script, this`wire, base, len
      ensures Sound() && forall k :: last <= k < base.Length ==> len[k] == 0
      ensures sent <= |Cat(slots)| && writeret == Sends(old(script), |Cat(slots)| - sent) && script == AfterSend(old(script))
      ensures errno == if Quiet(old(script)) == [] then Fails else Quiet(old(script))[0]
      ensures errno.Takes? <==> writeret >= 0
      ensures writeret <= 0 ==> wire == old(wire) && Slots() == old(Slots())
      ensures writeret > 0 ==>
        && wire == old(wire) + Cat(slots)[sent..sent + writeret]
        && (atBoundary <==> SlotEnd(slots, sent + writeret))
      ensures writeret > 0 && !atBoundary ==>
        && from <= iovEnd < last
        && Advanced(slots, Slots()[iovEnd..last], |slots| - (last - iovEnd), off', sent + writeret)
    {
      hide Offers, Cat, Advanced, SlotEnd, Sends, AfterSend, Quiet, Slots;
      iovEnd, atBoundary, off' := from, false, 0;
      ghost var rest, f := Slots()[from..last], |slots| - (last - from);
      AdvancedRest(slots, rest, f, off, sent);
      EmptyAfter(Slots(), from, last, from + iovCount);
      writeret, errno := SendRetrying(from, iovCount);
      if writeret > 0 {
        ghost var whole := Slots();
        var total;
        atBoundary, iovEnd, total := CheckIOVTotalWritten(from, iovCount, writeret);
        if atBoundary {
          RoundAtSlotEnd(slots, whole, from, last, iovEnd, off, sent);
        } else {
          off' := RoundInside(slots, whole, Slots(), from, last, iovEnd, off, sent, writeret);
        }
      }
    }

    /**
     Send a range of slots, again and again until a send stops at a slot's end. The count of
     slots is not reduced as the range moves on, so later sends reach into the slots after the
     range, which must be empty.
     */
    method WriteAllOnce(start: nat, iovCount: nat) returns (ret: int)
      requires Sound() && start + 2 * iovCount <= base.Length
      requires forall k :: start + iovCount <= k < base.Length ==> len[k] == 0
      modifies this`script, this`wire, base, len
      ensures Sound() && forall k :: start + iovCount <= k < base.Length ==> len[k] == 0
      ensures var slots := old(Slots()[start..start + iovCount]);
        var (sent, ending) := Outcome(slots, 0, old(script));
        && wire == old(wire) + Cat(slots)[..sent]
        && ret == (match ending case AtSlotEnd => Int32(sent) case TookNothing => 0 case Failed => -1)
    {
      hide Offers, Cat, Int32, Outcome, Advanced, SlotEnd, Sends, AfterSend, Slots;
      ghost var slots := Slots()[start..start + iovCount];
      ghost var last: nat, sent: nat, off: nat := start + iovCount, 0, 0;
      var from, totalcount := start, 0;
      Int32Sum(0, 0);
      NothingSent(slots);
      while true
        invariant Sound() && start <= from <= last && sent <= |Cat(slots)|
        invariant forall k :: last <= k < base.Length ==> len[k] == 0
        invariant wire == old(wire) + Cat(slots)[..sent] && totalcount == Int32(sent)
        invariant Advanced(slots, Slots()[from..last], from - start, off, sent)
        invariant Outcome(slots, sent, script) == Outcome(slots, 0, old(script))
        decreases |script|
      {
        OutcomeOfSend(slots, sent, script);
        var writeret, errno, atBoundary, iovEnd;
        ghost var next;
        writeret, errno, atBoundary, iovEnd, next := Round(from, iovCount, slots, last, off, sent);
        if writeret == 0 {
          return 0;
        }
        if errno == WouldBlock {
          continue;   // the wait for the socket ended, ready or not
        }
        if writeret == -1 {
          return -1;
        }
        assert Cat(slots)[..sent] + Cat(slots)[sent..sent + writeret] == Cat(slots)[..sent + writeret];
        Int32Sum(sent, writeret);
        if atBoundary {
          return Int32(totalcount + writeret);
        }
        totalcount := Int32(totalcount + writeret);
        sent, off := sent + writeret, next;
        from := iovEnd;
      }
    }

    /** A connection's empty buffer. */
    constructor (capacity: nat, script: seq<SendResult>)
      ensures Valid() && base.Length == capacity && iovIndex == 0 && wire == [] && done == [] && appended == []
      ensures fresh(base) && fresh(len) && fresh(written)
    {
      base := new seq<byte>[capacity](_ => []);
      len := new nat[capacity](_ => 0);
      written := new bool[capacity](_ => false);
      iovIndex, windexlast, totalsize, writingflag := 0, 0, 0, 0;
      this.script := script;
      wire, done, appended := [], [], [];
    }

    /** The END line, one more slot. */
    method EnqueueEnd() returns (ret2: nat)
      requires Valid() && iovIndex < base.Length
      modifies this`iovIndex, this`totalsize, this`appended, base, len, written
      ensures Valid() && ret2 == iovIndex == old(iovIndex) + 1 && appended == old(appended) + END_LINE
      ensures Slots() == old(Slots())[old(iovIndex) := END_LINE]
    {
      hide Offers, Cat;
      ghost var slots, unsent := Slots(), Unsent();
      var index := iovIndex;
      iovIndex := iovIndex + 1;
      var size := AddIOVReply(END_LINE + [0], 5, index);
      ret2 := index + 1;
      SumOfRemainders(|unsent|, size);
      totalsize := (totalsize + size) % UINT32_RANGE;
      appended := appended + END_LINE;
      assert (END_LINE + [0])[..5] == END_LINE;
      CatGrow(Slots(), windexlast, index);
      assert Slots()[windexlast..index] == slots[windexlast..index];
      assert wire + Unsent() == wire + unsent + END_LINE;
    }

    method ResetSlots(n: nat)
      requires Sound() && n <= base.Length && forall k :: n <= k < base.Length ==> len[k] == 0 && !written[k]
      modifies base, len, written
      ensures Sound() && forall k :: 0 <= k < base.Length ==> len[k] == 0 && !written[k]
    {
      for i := 0 to n
        invariant Sound() && forall k :: 0 <= k < base.Length && (k < i || k >= n) ==> len[k] == 0 && !written[k]
      {
        base[i] := [];
        len[i] := 0;
        written[i] := false;
      }
    }

    /** The wait for reserved slots, and the send of all slots up to ret2 that are left. */
    method SendRest(ret2: nat)
      requires Sound() && windexlast <= ret2 && forall k :: ret2 <= k < base.Length ==> len[k] == 0
      requires ret2 - windexlast < IOV_MAX && windexlast + 2 * (ret2 - windexlast) <= base.Length
      requires forall k :: windexlast <= k < ret2 ==> written[k]
      modifies this`script, this`wire, this`writingflag, base, len
      ensures Sound() && writingflag == 0 && forall k :: ret2 <= k < base.Length ==> len[k] == 0
      ensures var slots := old(Slots()[windexlast..ret2]);
        wire == old(wire) + Cat(slots)[..Outcome(slots, 0, old(script)).0]
    {
      hide Offers, Cat, Int32, Outcome;
      var y := windexlast;
      var i := y;
      while i < ret2 && written[i]   // waits for slots reserved but not yet written; there are none
        invariant y <= i <= ret2
      {
        i := i + 1;
      }
      assert i == ret2;
      writingflag := 0;
      var count := ret2 - y;
      var ret := WriteAllOnce(y, count);
    }

    /** The connection is ready for its next command. */
    method Reset(ret2: nat)
      requires Sound() && ret2 <= base.Length && forall k :: ret2 <= k < base.Length ==> len[k] == 0 && !written[k]
      modifies this`windexlast, this`totalsize, this`iovIndex, this`writingflag, this`done, this`appended, base, len, written
      ensures Valid() && iovIndex == windexlast == 0 && appended == [] && done == wire
    {
      hide Offers, Cat, Slots;
      windexlast := 0;
      totalsize := 0;
      iovIndex := 0;
      writingflag := 0;
      ResetSlots(ret2);
      CatOfEmpty(Slots()[0..0]);
      assert Unsent() == [];
      done, appended := wire, [];
    }

    /**
     What the worker that completes a get does with the buffer: append END, send all that is
     left, and reset the connection for its next command. Slots sent and slots left, END
     included, are the replies appended since the command began.
     */
    method FinishReply()
      requires Valid() && iovIndex < base.Length
      requires iovIndex + 1 - windexlast < IOV_MAX && windexlast + 2 * (iovIndex + 1 - windexlast) <= base.Length
      modifies this, base, len, written
      ensures Valid() && iovIndex == windexlast == 0 && appended == [] && done == wire
      ensures var slots := old(Slots()[windexlast..iovIndex]) + [END_LINE];
        && wire == old(wire) + Cat(slots)[..Outcome(slots, 0, old(script)).0]
        && old(wire) + Cat(slots) == old(done) + (old(appended) + END_LINE)
    {
      hide Offers, Cat, Outcome;
      ghost var slots := Slots()[windexlast..iovIndex] + [END_LINE];
      var ret2 := EnqueueEnd();
      assert Slots()[windexlast..iovIndex] == slots;
      iovIndex := 0;
      SendRest(ret2);
      Reset(ret2);
    }

    /** The replies to a get, one after another, and then END. */
    method ReplyToGet(found: seq<(seq<byte>, seq<byte>)>)
      requires Valid() && iovIndex == windexlast == 0 && appended == [] && done == wire
      requires 2 * |found| + 1 < IOV_MAX && 6 * |found| + 2 <= base.Length
      requires forall i :: 0 <= i < |found| ==> |found[i].0| <= 255 && NulFree(found[i].0) && |found[i].1| + 2 < INT32_LIMIT
      modifies this, base, len, written
      ensures Valid() && iovIndex == windexlast == 0 && appended == [] && done == wire
      ensures old(wire) <= wire <= old(wire) + (AllReplies(found) + END_LINE)
      ensures Willing(old(script), |found| + 1) && |AllReplies(found) + END_LINE| <= MAX_SEND ==>
        wire == old(wire) + (AllReplies(found) + END_LINE)
    {
      hide Offers, Cat, Outcome, SentOf, AfterSend, Willing, ValueLine, Slots;
      for i := 0 to |found|
        invariant Valid() && iovIndex == 2 * i && done == old(wire) && old(wire) <= wire
        invariant appended == AllReplies(found[..i])
        invariant Willing(old(script), |found| + 1) ==> Willing(script, |found| + 1 - i)
      {
        WillingAfter(script, |found| + 1 - i);
        QReply(found[i].0, found[i].1);
        assert found[..i + 1][..|found[..i + 1]| - 1] == found[..i];
      }
      assert found[..|found|] == found;
      ghost var slots := Slots()[windexlast..iovIndex] + [END_LINE];
      CatAppend(Slots()[windexlast..iovIndex], [END_LINE]);
      CatOne(END_LINE);
      if Willing(script, 1) && |Cat(slots)| <= MAX_SEND {
        WillingSendsAll(slots, script);
      }
      FinishReply();
    }
  }

  /** The next n calls of sendmsg take all that they are offered. */
  predicate Willing(script: seq<SendResult>, n: nat) {
    n <= |script| && forall i :: 0 <= i < n ==> script[i].Takes? && script[i].count >= MAX_SEND
  }

  /** As many full takes as there are calls are enough. */
  lemma FullTakesAreWilling(n: nat)
    ensures Willing(seq(n, _ => Takes(MAX_SEND)), n)
  {
  }

  lemma WillingAfter(script: seq<SendResult>, n: nat)
    requires n > 0
    ensures Willing(script, n) ==> Willing(script, n - 1) && Willing(AfterSend(script), n - 1)
  {
  }

  lemma WillingSendsAll(slots: seq<seq<byte>>, script: seq<SendResult>)
    requires 0 < |Cat(slots)| <= MAX_SEND && Willing(script, 1)
    ensures Outcome(slots, 0, script) == (|Cat(slots)|, AtSlotEnd)
  {
    assert slots[..|slots|] == slots;
  }

  /** The text of the replies to a get without its END. */
  function AllReplies(found: seq<(seq<byte>, seq<byte>)>): seq<byte> {
    if found == [] then []
    else
      var last := found[|found| - 1];
      AllReplies(found[..|found| - 1]) + ValueLine(last.0, |last.1|) + (last.1 + [CR, LF])
  }

  /** The value of a 32-bit signed sum. */
  function Int32(x: int): int {
    (x + INT32_LIMIT) % UINT32_RANGE - INT32_LIMIT
  }

  lemma Int32Sum(x: int, y: int)
    ensures Int32(Int32(x) + y) == Int32(x + y) && Int32(0) == 0
  {
    var a, b := x + INT32_LIMIT, (x + INT32_LIMIT) % UINT32_RANGE + y;
    var q := a / UINT32_RANGE + b / UINT32_RANGE;
    assert a + y == q * UINT32_RANGE + b % UINT32_RANGE;
  }

  lemma EmptyAfter(slots: seq<seq<byte>>, start: nat, last: nat, end: nat)
    requires start <= last <= end <= |slots| && forall k :: last <= k < end ==> slots[k] == []
    ensures Cat(slots[start..end]) == Cat(slots[start..last])
  {
    hide Cat;
    CatSplit(slots, start, last, end);
    CatOfEmpty(slots[last..end]);
  }

  lemma LineLength(key: seq<byte>, bytes: nat)
    requires |key| <= 255 && bytes < INT32_LIMIT
    ensures |ValueLine(key, bytes)| < 512
  {
    DecimalLength(bytes, 10);
    assert Pow10(5) == 100_000;
  }

  lemma TwoMore(slots: seq<seq<byte>>, slots': seq<seq<byte>>, start: nat, index: nat, a: seq<byte>, b: seq<byte>)
    requires start <= index && index + 2 <= |slots| && slots' == slots[index := a][index + 1 := b]
    ensures Cat(slots'[start..index + 2]) == Cat(slots[start..index]) + a + b
  {
    CatGrow(slots', start, index);
    CatGrow(slots', start, index + 1);
    assert slots'[start..index] == slots[start..index];
  }

  lemma RemainderLess(sum: nat, less: nat)
    requires less <= sum && less < UINT32_RANGE
    ensures (sum % UINT32_RANGE + UINT32_RANGE - less) % UINT32_RANGE == (sum - less) % UINT32_RANGE
  {
    var q, r := sum / UINT32_RANGE, sum % UINT32_RANGE;
    if r >= less {
      DivisionIsUnique(sum - less, UINT32_RANGE, q, r - less);
    } else {
      assert q > 0;
      DivisionIsUnique(sum - less, UINT32_RANGE, q - 1, r + UINT32_RANGE - less);
    }
  }

  lemma Regroup(a: seq<byte>, x: seq<byte>, n: nat, b: seq<byte>)
    requires n <= |x|
    ensures a + (x + b) == (a + x[..n]) + (x[n..] + b)
  {
  }

  /** Advancing one slot drops its bytes from the concatenation, and no others. */
  lemma AfterAdvance(slots: seq<seq<byte>>, slots': seq<seq<byte>>, start: nat, stop: nat, end: nat, seek: nat)
    requires |slots| == |slots'| && start <= stop < end <= |slots| && seek <= |slots[stop]|
    requires forall k :: 0 <= k < |slots| ==> slots'[k] == if k == stop then slots[k][seek..] else slots[k]
    ensures Cat(slots[start..end]) == (Cat(slots[start..stop]) + slots[stop][..seek]) + Cat(slots'[stop..end])
  {
    hide Cat;
    var rest := slots[stop + 1..end];
    assert slots'[stop + 1..end] == rest;
    CatSplit(slots, start, stop, end);
    CatSplit(slots, stop, stop, end);
    CatSplit(slots', stop, stop, end);
    Regroup(Cat(slots[start..stop]), slots[stop], seek, Cat(rest));
  }

  lemma TakenFromFirst<T>(a: seq<T>, b: seq<T>, r: nat)
    requires r <= |a|
    ensures (a + b)[..r] == a[..r] && (a + b)[r..] == a[r..] + b
  {
  }

  /** A send from the first slots of a range is a send from the range. */
  lemma RestStays(slots: seq<seq<byte>>, slots': seq<seq<byte>>, start: nat, mid: nat, end: nat, stop: nat, r: nat)
    requires |slots| == |slots'| && start <= mid <= end <= |slots| && start <= stop <= mid
    requires forall k :: mid <= k < end ==> slots'[k] == slots[k]
    requires r <= |Cat(slots[start..mid])| && Cat(slots'[stop..mid]) == Cat(slots[start..mid])[r..]
    ensures r <= |Cat(slots[start..end])| && Cat(slots[start..mid])[..r] == Cat(slots[start..end])[..r]
    ensures Cat(slots'[stop..end]) == Cat(slots[start..end])[r..]
  {
    hide Cat;
    CatSplit(slots, start, mid, end);
    CatSplit(slots', stop, mid, end);
    assert slots'[mid..end] == slots[mid..end];
    TakenFromFirst(Cat(slots[start..mid]), Cat(slots[mid..end]), r);
  }

  lemma SumOfRemainders(sum: nat, add: nat)
    ensures (sum % UINT32_RANGE + add) % UINT32_RANGE == (sum + add) % UINT32_RANGE
  {
    var q, r := sum / UINT32_RANGE, sum % UINT32_RANGE + add;
    DivisionIsUnique(sum + add, UINT32_RANGE, q + r / UINT32_RANGE, r % UINT32_RANGE);
  }
}
