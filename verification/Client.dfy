/**
 The reply to a get as a client reads it: VALUE lines with a key and a byte count, that many
 bytes and a line end behind each, and END.
 */
module Client {
  import opened Bytes
  import opened Tokenizer
  import opened Header
  import opened Reply

  const VALUE_WORD: seq<byte> := [86, 65, 76, 85, 69]
  const END_WORD: seq<byte> := [69, 78, 68]

  type Found = seq<(seq<byte>, seq<byte>)>

  /** The key and the byte count of a VALUE line: the second and the fourth of its five words. */
  function ReadLine(line: seq<byte>): Option<(seq<byte>, nat)> {
    WordsInside(line, 0, |line|);
    var ws := Words(line, 0, |line|);
    if |ws| != 5 || Text(line, ws[0]) != VALUE_WORD then None
    else
      var (ok, count) := Parsed(Text(line, ws[3]));
      if ok && Parsed(Text(line, ws[2])) == (true, 0) && Parsed(Text(line, ws[4])) == (true, 1)
      then Some((Text(line, ws[1]), count)) else None
  }

  /** What comes first in a text: a key with its value, and how far they reach; or END; or nothing that is whole. */
  datatype First = Item(key: seq<byte>, value: seq<byte>, past: nat) | End | Broken

  /** The value of so many bytes at n, with its line end. */
  function ItemAt(s: seq<byte>, n: nat, key: seq<byte>, count: nat): (f: First)
    ensures f.Item? ==> 0 < f.past <= |s|
  {
    if n + count + 2 > |s| || s[n + count..n + count + 2] != [CR, LF] then Broken
    else Item(key, s[n..n + count], n + count + 2)
  }

  function ReadFirst(s: seq<byte>): (f: First)
    ensures f.Item? ==> 0 < f.past <= |s|
  {
    match ScanLine(s, 0)
    case None => Broken
    case Some(n) =>
      if s[..n - 2] == END_WORD then End
      else
        match ReadLine(s[..n - 2])
        case None => Broken
        case Some((key, count)) => ItemAt(s, n, key, count)
  }

  function Then(item: (seq<byte>, seq<byte>), rest: Option<Found>): Option<Found> {
    match rest
    case None => None
    case Some(more) => Some([item] + more)
  }

  /** All keys and values up to END, or None if the text is not a whole reply. */
  function Read(s: seq<byte>): Option<Found>
    decreases |s|
  {
    var f := ReadFirst(s);
    if f.Item? then Then((f.key, f.value), Read(s[f.past..])) else if f.End? then Some([]) else None
  }

  /** What one key and its value look like. */
  function OneReply(key: seq<byte>, value: seq<byte>): seq<byte> {
    ValueLine(key, |value|) + (value + [CR, LF])
  }

  lemma {:induction false} FirstReply(found: Found)
    requires found != []
    ensures AllReplies(found) == OneReply(found[0].0, found[0].1) + AllReplies(found[1..])
  {
    var n := |found|;
    LastReply(found);
    if n == 1 {
      assert found[..0] == [] && found[1..] == [];
    } else {
      LastReply(found[1..]);
      FirstReply(found[..n - 1]);
      assert found[..n - 1][1..] == found[1..][..n - 2] && found[1..][n - 2] == found[n - 1];
      hide OneReply, AllReplies;
      Regroup(OneReply(found[0].0, found[0].1), AllReplies(found[1..][..n - 2]), OneReply(found[n - 1].0, found[n - 1].1));
    }
  }

  lemma LastReply(found: Found)
    requires found != []
    ensures var n := |found| - 1;
      AllReplies(found) == AllReplies(found[..n]) + OneReply(found[n].0, found[n].1) && AllReplies([]) == []
  {
    hide ValueLine;
    var n := |found| - 1;
    Regroup(AllReplies(found[..n]), ValueLine(found[n].0, |found[n].1|), found[n].1 + [CR, LF]);
  }

  function LineWords(key: seq<byte>, count: nat): seq<seq<byte>> {
    [VALUE_WORD, key, [48], Decimal(count), [49]]
  }

  lemma LineIsJoin(key: seq<byte>, count: nat)
    ensures ValueLine(key, count) == Join(LineWords(key, count)) + [CR, LF]
  {
    var d := Decimal(count);
    assert Join([[49]]) == [49];
    assert LineWords(key, count)[1..] == [key, [48], d, [49]];
    assert [key, [48], d, [49]][1..] == [[48], d, [49]];
    assert [[48], d, [49]][1..] == [d, [49]];
    assert [d, [49]][1..] == [[49]];
    assert Join([d, [49]]) == d + [SPACE] + [49];
    assert Join([[48], d, [49]]) == [48] + [SPACE] + (d + [SPACE] + [49]);
  }

  lemma LineWordsPlain(key: seq<byte>, count: nat)
    requires Plain(key)
    ensures forall n :: 0 <= n < 5 ==> Plain(LineWords(key, count)[n])
  {
  }

  /** A VALUE line is read back. */
  lemma LineIsRead(key: seq<byte>, count: nat)
    requires Plain(key) && count < UINT32_RANGE
    ensures ReadLine(Join(LineWords(key, count))) == Some((key, count))
  {
    var words := LineWords(key, count);
    var line := Join(words);
    LineWordsPlain(key, count);
    assert line[0..|line|] == line;
    WordsOfJoin(line, 0, |line|, words);
    WordsInside(line, 0, |line|);
    PrintedNumber(count);
    PrintedNumber(0);
    PrintedNumber(1);
    assert Decimal(0) == [48] && Decimal(1) == [49];
    hide Join, Words, Parsed, Decimal;
    var ws := Words(line, 0, |line|);
    assert Text(line, ws[0]) == words[0] && Text(line, ws[1]) == words[1] && Text(line, ws[2]) == words[2];
    assert Text(line, ws[3]) == words[3] && Text(line, ws[4]) == words[4];
  }

  /** Where the first line of a reply, or of a part of one, ends. */
  lemma LineFound(line: seq<byte>, s: seq<byte>, rest: seq<byte>)
    requires line != [] && (forall k :: 0 <= k < |line| ==> line[k] != CR && line[k] != LF) && s <= line + [CR, LF] + rest
    ensures ScanLine(s, 0) == if |s| < |line| + 2 then None else Some(|line| + 2)
  {
    var all := line + [CR, LF] + rest;
    if |s| < |line| + 2 {
      NoLineEnd(line, s);
    } else {
      assert s == line + [CR, LF] + s[|line| + 2..];
      ScanOfLine(line, s[|line| + 2..]);
    }
  }

  lemma NoLineEnd(line: seq<byte>, s: seq<byte>)
    requires (forall k :: 0 <= k < |line| ==> line[k] != CR && line[k] != LF) && s <= line + [CR]
    ensures ScanLine(s, 0) == None
  {
    LineEndFoundExactly(s);
    assert forall k :: 0 <= k < |s| ==> s[k] == (line + [CR])[k];
  }

  lemma ItemIsRead(s: seq<byte>, n: nat, key: seq<byte>, value: seq<byte>)
    requires n <= |s| && (s[n..] <= value + [CR, LF] || value + [CR, LF] <= s[n..])
    ensures var past := n + |value| + 2;
      ItemAt(s, n, key, |value|) == if past > |s| then Broken else Item(key, value, past)
  {
    if n + |value| + 2 <= |s| {
      assert s[n..][..|value| + 2] == value + [CR, LF];
      assert s[n..n + |value|] == s[n..][..|value|] && s[n + |value|..n + |value| + 2] == s[n..][|value|..|value| + 2];
    }
  }

  /** The first item of a text that holds its line. */
  lemma ReadItem(s: seq<byte>, line: seq<byte>, key: seq<byte>, count: nat)
    requires ScanLine(s, 0) == Some(|line| + 2) && s[..|line|] == line && line != END_WORD
    requires ReadLine(line) == Some((key, count))
    ensures ReadFirst(s) == ItemAt(s, |line| + 2, key, count)
  {
    hide ReadLine, ScanLine, ItemAt;
  }

  lemma LineFacts(key: seq<byte>, count: nat)
    requires Plain(key) && count < UINT32_RANGE
    ensures var line := Join(LineWords(key, count));
      && ValueLine(key, count) == line + [CR, LF] && ReadLine(line) == Some((key, count)) && line != [] && line != END_WORD
      && forall k :: 0 <= k < |line| ==> line[k] != CR && line[k] != LF
  {
    LineIsJoin(key, count);
    LineWordsPlain(key, count);
    JoinIsLine(LineWords(key, count));
    LineIsRead(key, count);
    assert Join(LineWords(key, count))[0] == 86 && END_WORD[0] == 69;
    hide Join, ReadLine, ValueLine, Plain;
  }

  lemma FirstLine(line: seq<byte>, key: seq<byte>, count: nat, tail: seq<byte>, s: seq<byte>)
    requires line != [] && (forall k :: 0 <= k < |line| ==> line[k] != CR && line[k] != LF) && line != END_WORD
    requires ReadLine(line) == Some((key, count)) && s <= line + [CR, LF] + tail
    ensures ReadFirst(s) == if |s| < |line| + 2 then Broken else ItemAt(s, |line| + 2, key, count)
  {
    LineFound(line, s, tail);
    hide ReadLine, ScanLine, ReadFirst, ItemAt;
    if |s| >= |line| + 2 {
      assert s[..|line|] == (line + [CR, LF] + tail)[..|line|] == line;
      ReadItem(s, line, key, count);
    } else {
      NothingFirst(s);
    }
  }

  lemma OneReplyIs(key: seq<byte>, value: seq<byte>, line: seq<byte>)
    requires ValueLine(key, |value|) == line + [CR, LF]
    ensures OneReply(key, value) == line + [CR, LF] + (value + [CR, LF])
    ensures |OneReply(key, value)| == |line| + 2 + |value| + 2
  {
    hide ValueLine;
  }

  lemma ItemFirst(line: seq<byte>, key: seq<byte>, value: seq<byte>, rest: seq<byte>, s: seq<byte>)
    requires line != [] && (forall k :: 0 <= k < |line| ==> line[k] != CR && line[k] != LF) && line != END_WORD
    requires ReadLine(line) == Some((key, |value|))
    requires s <= line + [CR, LF] + (value + [CR, LF]) + rest
    ensures var n := |line| + 2 + |value| + 2;
      && ReadFirst(s) == (if |s| < n then Broken else Item(key, value, n))
      && (|s| >= n ==> s[n..] <= rest && (s == line + [CR, LF] + (value + [CR, LF]) + rest <==> s[n..] == rest))
  {
    var n := |line| + 2;
    Regroup(line + [CR, LF], value + [CR, LF], rest);
    FirstLine(line, key, |value|, value + [CR, LF] + rest, s);
    hide ReadFirst, ReadLine, ItemAt;
    if |s| >= n {
      Behind(s, line + [CR, LF], value + [CR, LF], rest);
      ItemIsRead(s, n, key, value);
    }
  }

  lemma OneFirst(one: seq<byte>, line: seq<byte>, key: seq<byte>, value: seq<byte>, rest: seq<byte>, s: seq<byte>)
    requires line != [] && (forall k :: 0 <= k < |line| ==> line[k] != CR && line[k] != LF) && line != END_WORD
    requires ReadLine(line) == Some((key, |value|))
    requires one == line + [CR, LF] + (value + [CR, LF]) && |one| == |line| + 2 + |value| + 2 && s <= one + rest
    ensures ReadFirst(s) == if |s| < |one| then Broken else Item(key, value, |one|)
    ensures |s| >= |one| ==> s[|one|..] <= rest && (s == one + rest <==> s[|one|..] == rest)
  {
    hide ReadFirst, ReadLine;
    ItemFirst(line, key, value, rest, s);
  }

  /** The reply for one key, whatever follows it, and any part of that. */
  lemma FirstIsRead(key: seq<byte>, value: seq<byte>, rest: seq<byte>, s: seq<byte>)
    requires Plain(key) && |value| < UINT32_RANGE && s <= OneReply(key, value) + rest
    ensures var one := OneReply(key, value);
      && ReadFirst(s) == (if |s| < |one| then Broken else Item(key, value, |one|))
      && (|s| >= |one| ==> s[|one|..] <= rest && (s == one + rest <==> s[|one|..] == rest))
  {
    LineFacts(key, |value|);
    OneReplyIs(key, value, Join(LineWords(key, |value|)));
    hide Join, ReadFirst, ReadLine, ValueLine, LineWords, Plain, OneReply;
    OneFirst(OneReply(key, value), Join(LineWords(key, |value|)), key, value, rest, s);
  }

  lemma NothingFirst(s: seq<byte>)
    requires ScanLine(s, 0) == None
    ensures ReadFirst(s) == Broken
  {
  }

  lemma EndIsRead(s: seq<byte>)
    requires s <= END_LINE
    ensures Read(s) == if s == END_LINE then Some([]) else None
  {
    assert END_LINE == END_WORD + [CR, LF] + [];
    LineFound(END_WORD, s, []);
    hide ScanLine, ReadLine;
    assert |s| == 5 ==> s == END_LINE && s[..3] == END_WORD;
  }

  lemma Regroup(a: seq<byte>, b: seq<byte>, c: seq<byte>)
    ensures a + b + c == a + (b + c)
  {
  }

  lemma ReadOn(s: seq<byte>)
    ensures var f := ReadFirst(s);
      Read(s) == if f.Item? then Then((f.key, f.value), Read(s[f.past..])) else if f.End? then Some([]) else None
  {
    hide ReadFirst;
  }

  lemma AllOfNothing()
    ensures AllReplies([]) + END_LINE == END_LINE
  {
  }

  lemma ReadNext(key: seq<byte>, value: seq<byte>, rest: seq<byte>, s: seq<byte>)
    requires Plain(key) && |value| < UINT32_RANGE && s <= OneReply(key, value) + rest
    ensures var one := OneReply(key, value);
      && Read(s) == (if |s| < |one| then None else Then((key, value), Read(s[|one|..])))
      && (|s| >= |one| ==> s[|one|..] <= rest && (s == one + rest <==> s[|one|..] == rest))
    ensures OneReply(key, value) != []
  {
    FirstIsRead(key, value, rest, s);
    ReadOn(s);
    OneReplyThere(key, value);
    hide ReadFirst, Plain, OneReply, Read;
  }

  lemma OneReplyThere(key: seq<byte>, value: seq<byte>)
    ensures OneReply(key, value) != []
  {
  }

  /** A client that gets the whole reply reads what was found, and one that gets less of it reads nothing. */
  lemma {:induction false} ReadExactly(found: Found, s: seq<byte>)
    requires forall i :: 0 <= i < |found| ==> Plain(found[i].0) && |found[i].1| < UINT32_RANGE
    requires s <= AllReplies(found) + END_LINE
    ensures Read(s) == if s == AllReplies(found) + END_LINE then Some(found) else None
    decreases |found|
  {
    hide AllReplies, OneReply, Plain, Read;
    if found == [] {
      AllOfNothing();
      EndIsRead(s);
    } else {
      var more := found[1..];
      var rest := AllReplies(more) + END_LINE;
      var one := OneReply(found[0].0, found[0].1);
      FirstReply(found);
      Regroup(one, AllReplies(more), END_LINE);
      ReadNext(found[0].0, found[0].1, rest, s);
      if |s| >= |one| {
        assert found == [found[0]] + more;
        ReadExactly(more, s[|one|..]);
      } else {
        assert s != one + rest;
      }
    }
  }

  lemma Behind(s: seq<byte>, line: seq<byte>, value: seq<byte>, rest: seq<byte>)
    requires s <= line + (value + rest) && |s| >= |line|
    ensures s[|line|..] <= value || value <= s[|line|..]
    ensures var n := |line| + |value|;
      && (|s| >= n ==> s[n..] <= rest)
      && (s == line + (value + rest) <==> |s| >= n && s[n..] == rest)
  {
  }

  /**
   A get served and read: with a kernel that takes what it is offered the client reads exactly
   what was found; with any other it reads that or, if something is missing, nothing.
   */
  method GetIsRead(conn: Conn, found: Found)
    requires conn.Valid() && conn.iovIndex == conn.windexlast == 0 && conn.appended == [] && conn.done == conn.wire
    requires 2 * |found| + 1 < IOV_MAX && 6 * |found| + 2 <= conn.base.Length
    requires forall i :: 0 <= i < |found| ==> Plain(found[i].0) && |found[i].0| <= 255 && |found[i].1| + 2 < INT32_LIMIT
    modifies conn, conn.base, conn.len, conn.written
    ensures conn.Valid() && |old(conn.wire)| <= |conn.wire|
    ensures Read(conn.wire[|old(conn.wire)|..]) in {None, Some(found)}
    ensures Willing(old(conn.script), |found| + 1) && |AllReplies(found) + END_LINE| <= MAX_SEND ==>
      Read(conn.wire[|old(conn.wire)|..]) == Some(found)
  {
    ghost var was, all := conn.wire, AllReplies(found) + END_LINE;
    assert forall i :: 0 <= i < |found| ==> NulFree(found[i].0);
    conn.ReplyToGet(found);
    assert conn.wire[|was|..] <= all;
    assert conn.wire == was + all ==> conn.wire[|was|..] == all;
    ReadExactly(found, conn.wire[|was|..]);
  }
}
