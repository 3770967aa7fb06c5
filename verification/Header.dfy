/**
 The header of a set command: the search for its line end and ProcessHeader of
 aConnParse.cpp, and safe_strtoul of aUtil.cpp on a 64-bit machine.
 */
module Header {
  import opened Bytes
  import opened Tokenizer

  // ---------------------------------------------------------------- numbers

  const ULONG_RANGE: nat := 0x1_0000_0000_0000_0000
  const MINUS: byte := 45
  const PLUS: byte := 43

  predicate IsSpace(c: byte) {
    c == SPACE || 9 <= c <= 13
  }

  /** isspace of the C library: tab, line feed, vertical tab, form feed, carriage return and space. */
  lemma SpacesAre(c: byte)
    ensures IsSpace(c) <==> c in {9, LF, 11, 12, CR, SPACE}
  {
  }

  predicate IsDigit(c: byte) {
    48 <= c <= 57
  }

  function SkipSpaces(s: seq<byte>, i: nat): (j: nat)
    requires i <= |s|
    ensures i <= j <= |s|
    decreases |s| - i
  {
    if i < |s| && IsSpace(s[i]) then SkipSpaces(s, i + 1) else i
  }

  function SkipDigits(s: seq<byte>, i: nat): (j: nat)
    requires i <= |s|
    ensures i <= j <= |s|
    decreases |s| - i
  {
    if i < |s| && IsDigit(s[i]) then SkipDigits(s, i + 1) else i
  }

  function Value(s: seq<byte>): nat
    requires forall i :: 0 <= i < |s| ==> IsDigit(s[i])
  {
    if s == [] then 0
    else
      assert IsDigit(s[|s| - 1]);
      10 * Value(s[..|s| - 1]) + (s[|s| - 1] as int - 48)
  }

  lemma {:induction false} DigitsSkipped(s: seq<byte>, i: nat)
    requires i <= |s|
    ensures forall k :: i <= k < SkipDigits(s, i) ==> IsDigit(s[k])
    decreases |s| - i
  {
    if i < |s| && IsDigit(s[i]) {
      DigitsSkipped(s, i + 1);
    }
  }

  datatype Strtoul = Strtoul(value: nat, endptr: nat, erange: bool)

  /** A value, or its negation in unsigned arithmetic. */
  function Signed(sign: seq<byte>, v: nat): nat {
    if sign != [] && sign[0] == MINUS then (ULONG_RANGE - v) % ULONG_RANGE else v
  }

  /** The conversion of a sign, if there is one, and digits that end at k. */
  function Converted(sign: seq<byte>, digits: seq<byte>, k: nat): (r: Strtoul)
    requires forall i :: 0 <= i < |digits| ==> IsDigit(digits[i])
    ensures r.endptr <= k && r.value < ULONG_RANGE
  {
    var v := Value(digits);
    if digits == [] then Strtoul(0, 0, false)
    else if v >= ULONG_RANGE then Strtoul(ULONG_RANGE - 1, k, true)
    else Strtoul(Signed(sign, v), k, false)
  }

  /** strtoul(s, &endptr, 10) of the C library, on a string without its NUL. */
  function LibStrtoul(s: seq<byte>): (r: Strtoul)
    ensures r.endptr <= |s| && r.value < ULONG_RANGE
  {
    var i := SkipSpaces(s, 0);
    var j := if i < |s| && (s[i] == MINUS || s[i] == PLUS) then i + 1 else i;
    var k := SkipDigits(s, j);
    DigitsSkipped(s, j);
    Converted(s[i..j], s[j..k], k)
  }

  /** safe_strtoul: the out parameter keeps the low 32 bits of a value that is accepted. */
  method SafeStrtoul(str: seq<byte>) returns (ok: bool, out: nat)
    ensures (ok, out) == Parsed(str)
  {
    out := 0;
    var r := LibStrtoul(str);
    if r.erange || r.endptr == 0 {
      return false, out;
    }
    if r.endptr == |str| || IsSpace(str[r.endptr]) {
      if r.value >= ULONG_RANGE / 2 {
        if MINUS in str {
          return false, out;
        }
      }
      out := r.value % UINT32_RANGE;
      return true, out;
    }
    return false, out;
  }

  function Parsed(str: seq<byte>): (bool, nat) {
    var r := LibStrtoul(str);
    if r.erange || r.endptr == 0 then (false, 0)
    else if r.endptr < |str| && !IsSpace(str[r.endptr]) then (false, 0)
    else if r.value >= ULONG_RANGE / 2 && MINUS in str then (false, 0)
    else (true, r.value % UINT32_RANGE)
  }

  lemma {:induction false} ValueOfDecimal(n: nat)
    ensures Value(Decimal(n)) == n
  {
    if n < 10 {
      assert Decimal(n)[..0] == [];
    } else {
      var d := Decimal(n);
      ValueOfDecimal(n / 10);
      assert d[..|d| - 1] == Decimal(n / 10);
    }
  }

  /** At most a sign. */
  predicate IsSign(sign: seq<byte>) {
    sign == [] || (|sign| == 1 && (sign[0] == PLUS || sign[0] == MINUS))
  }

  lemma {:induction false} SkipSpacesTo(s: seq<byte>, i: nat, j: nat)
    requires i <= j <= |s| && (forall k :: i <= k < j ==> IsSpace(s[k])) && (j < |s| ==> !IsSpace(s[j]))
    ensures SkipSpaces(s, i) == j
    decreases j - i
  {
    if i < j {
      SkipSpacesTo(s, i + 1, j);
    }
  }

  lemma {:induction false} SkipDigitsTo(s: seq<byte>, i: nat, j: nat)
    requires i <= j <= |s| && (forall k :: i <= k < j ==> IsDigit(s[k])) && (j < |s| ==> !IsDigit(s[j]))
    ensures SkipDigits(s, i) == j
    decreases j - i
  {
    if i < j {
      SkipDigitsTo(s, i + 1, j);
    }
  }

  lemma NumberCut(spaces: seq<byte>, sign: seq<byte>, digits: seq<byte>, tail: seq<byte>)
    requires (forall c :: c in spaces ==> IsSpace(c)) && IsSign(sign)
    requires (forall k :: 0 <= k < |digits| ==> IsDigit(digits[k])) && (tail != [] ==> !IsDigit(tail[0]))
    requires sign + digits == [] && tail != [] ==> !IsSpace(tail[0]) && tail[0] != PLUS && tail[0] != MINUS
    ensures var str, i := spaces + sign + digits + tail, |spaces|;
      var j, k := i + |sign|, i + |sign| + |digits|;
      && SkipSpaces(str, 0) == i && SkipDigits(str, j) == k && str[j..k] == digits
      && (i < |str| && (str[i] == MINUS || str[i] == PLUS) <==> sign != [])
      && (sign != [] ==> str[i] == sign[0]) && (k < |str| ==> str[k] == tail[0])
  {
    var str, i := spaces + sign + digits + tail, |spaces|;
    var j, k := i + |sign|, i + |sign| + |digits|;
    assert str[j..k] == digits;
    assert forall n :: 0 <= n < i ==> str[n] == spaces[n];
    assert forall n :: j <= n < k ==> str[n] == digits[n - j];
    assert k < |str| ==> str[k] == tail[0];
    assert i < |str| ==> str[i] == (sign + digits + tail)[0];
    SkipSpacesTo(str, 0, i);
    SkipDigitsTo(str, j, k);
  }

  lemma StrtoulRead(spaces: seq<byte>, sign: seq<byte>, digits: seq<byte>, tail: seq<byte>)
    requires (forall c :: c in spaces ==> IsSpace(c)) && IsSign(sign)
    requires (forall k :: 0 <= k < |digits| ==> IsDigit(digits[k])) && (tail != [] ==> !IsDigit(tail[0]))
    requires sign + digits == [] && tail != [] ==> !IsSpace(tail[0]) && tail[0] != PLUS && tail[0] != MINUS
    ensures LibStrtoul(spaces + sign + digits + tail) == Converted(sign, digits, |spaces| + |sign| + |digits|)
  {
    NumberCut(spaces, sign, digits, tail);
    hide Converted, SkipSpaces, SkipDigits, IsSpace;
    var str, i := spaces + sign + digits + tail, |spaces|;
    assert str[i..i + |sign|] == sign;
  }

  /**
   What safe_strtoul makes of any string, cut up into leading spaces, a sign, digits and the
   rest: it wants digits, of a value within 64 bits, followed by a space or the end. A value
   of 63 bits or more, which a negated one may also have, is refused if there is a '-'
   anywhere in the string.
   */
  lemma NumberRead(spaces: seq<byte>, sign: seq<byte>, digits: seq<byte>, tail: seq<byte>)
    requires (forall c :: c in spaces ==> IsSpace(c)) && IsSign(sign)
    requires (forall k :: 0 <= k < |digits| ==> IsDigit(digits[k])) && (tail != [] ==> !IsDigit(tail[0]))
    requires sign + digits == [] && tail != [] ==> !IsSpace(tail[0]) && tail[0] != PLUS && tail[0] != MINUS
    ensures var str, v := spaces + sign + digits + tail, Value(digits);
      var read := Signed(sign, v);
      Parsed(str) ==
      if digits != [] && v < ULONG_RANGE && (tail == [] || IsSpace(tail[0])) && (read < ULONG_RANGE / 2 || MINUS !in str)
      then (true, read % UINT32_RANGE) else (false, 0)
  {
    StrtoulRead(spaces, sign, digits, tail);
    hide Value, LibStrtoul, Signed, IsDigit;
    var str := spaces + sign + digits + tail;
    assert |str| == |spaces| + |sign| + |digits| + |tail|;
    assert tail != [] ==> str[|spaces| + |sign| + |digits|] == tail[0];
  }

  /** So a negative number is refused exactly if it lies in -2^63 .. -1 or exceeds 64 bits. */
  lemma NegativeRead(digits: seq<byte>)
    requires digits != [] && forall k :: 0 <= k < |digits| ==> IsDigit(digits[k])
    ensures Parsed([MINUS] + digits).0 <==> Value(digits) == 0 || ULONG_RANGE / 2 < Value(digits) < ULONG_RANGE
  {
    hide Value, Parsed;
    NumberRead([], [MINUS], digits, []);
    assert [] + [MINUS] + digits + [] == [MINUS] + digits;
    assert ([MINUS] + digits)[0] == MINUS;
  }

  /**
   Reading back a printed number: accepted exactly if it fits 64 bits, and the value exactly
   if it fits 32; in between the high bits are lost without an error.
   */
  lemma PrintedNumber(n: nat)
    ensures Parsed(Decimal(n)) == if n < ULONG_RANGE then (true, n % UINT32_RANGE) else (false, 0)
    ensures Parsed(Decimal(n)) == (true, n) <==> n < UINT32_RANGE
  {
    hide Value, Parsed;
    ValueOfDecimal(n);
    NumberRead([], [], Decimal(n), []);
    assert [] + [] + Decimal(n) + [] == Decimal(n);
  }

  // ---------------------------------------------------------------- the end of the header

  /**
   Where IsBufferComplete ends up from position p: past the "\r\n" it finds, or nowhere. After
   a "\r" it looks at one more byte, and if that is no "\n" moves past it as well.
   */
  function ScanLine(s: seq<byte>, p: nat): (r: Option<nat>)
    ensures r.Some? ==> p + 2 <= r.value <= |s| && s[r.value - 2] == CR && s[r.value - 1] == LF
    decreases |s| - p
  {
    if p + 1 >= |s| then None
    else if s[p] != CR then ScanLine(s, p + 1)
    else if s[p + 1] == LF then Some(p + 2)
    else ScanLine(s, p + 2)
  }

  /**
   IsBufferComplete. Its counter never moves, so unless the buffer holds one byte the loop
   runs until it finds a line end; None says that it leaves the buffer instead.
   */
  method IsBufferComplete(buf: array<byte>, len: nat) returns (found: Option<nat>)
    requires 1 <= len <= buf.Length
    modifies buf
    ensures found == if len == 1 then Some(0) else ScanLine(old(buf[..]), 0)
    ensures buf[..] == match found
                       case Some(n) => if n == 0 then old(buf[..]) else old(buf[..])[n - 1 := 0][n - 2 := 0]
                       case None => old(buf[..])
  {
    var ptr, i := 0, 0;
    while i < len - 1
      invariant 0 <= ptr && i == 0 && buf[..] == old(buf[..])
      invariant len > 1 ==> ScanLine(buf[..], 0) == ScanLine(buf[..], ptr)
      decreases buf.Length - ptr
    {
      if ptr + 1 >= buf.Length {
        return None;
      }
      if buf[ptr] == CR {
        ptr := ptr + 1;
        if buf[ptr] == LF {
          found := Some(ptr + 1);
          buf[ptr] := 0;
          ptr := ptr - 1;
          buf[ptr] := 0;
          return;
        }
      }
      ptr := ptr + 1;
    }
    return Some(0);
  }

  /** How many "\r" in a row end at q, counting back to p at most. */
  function CrRun(s: seq<byte>, p: nat, q: nat): nat
    requires q < |s|
    decreases q
  {
    if q < p || s[q] != CR then 0 else if q == 0 then 1 else 1 + CrRun(s, p, q - 1)
  }

  lemma {:induction false} CrRunFrom(s: seq<byte>, p: nat, q: nat)
    requires p <= q < |s|
    ensures CrRun(s, p, q) == CrRun(s, p + 1, q) + (if CrRun(s, p + 1, q) == q - p && s[p] == CR then 1 else 0)
    ensures CrRun(s, p + 1, q) <= q - p
    decreases q
  {
    if s[q] == CR && q > 0 && p < q {
      CrRunFrom(s, p, q - 1);
    } else if p == q && q > 0 {
      assert CrRun(s, p + 1, q) == 0;
      assert CrRun(s, p, q - 1) == 0;
    }
  }

  /** A line end at q whose "\n" has an odd number of "\r" in front of it, counting back to p at most. */
  ghost predicate OddLineEnd(s: seq<byte>, p: nat, q: nat) {
    q + 1 < |s| && s[q] == CR && s[q + 1] == LF && CrRun(s, p, q) % 2 == 1
  }

  /** Moving past a byte that is no "\r", or past a "\r" and a byte that is no "\n", keeps what is odd. */
  lemma OddStaysOdd(s: seq<byte>, p: nat, q: nat)
    requires p + 1 < |s|
    ensures s[p] != CR && q >= p + 1 ==> (OddLineEnd(s, p, q) <==> OddLineEnd(s, p + 1, q))
    ensures s[p] == CR && s[p + 1] != LF && q >= p + 2 ==> (OddLineEnd(s, p, q) <==> OddLineEnd(s, p + 2, q))
  {
    if p < q < |s| {
      CrRunFrom(s, p, q);
      if p + 1 < q {
        CrRunFrom(s, p + 1, q);
      }
    }
  }

  lemma NotAtOnce(s: seq<byte>, p: nat)
    requires p + 1 < |s|
    ensures s[p] != CR || s[p + 1] != LF ==> !OddLineEnd(s, p, p)
    ensures s[p] == CR ==> !OddLineEnd(s, p, p + 1)
    ensures s[p] == CR && s[p + 1] == LF ==> OddLineEnd(s, p, p)
  {
    if s[p] == CR {
      CrRunFrom(s, p, p);
      assert CrRun(s, p + 1, p) == 0;
      if s[p + 1] == CR {
        CrRunFrom(s, p, p + 1);
        assert CrRun(s, p + 1, p + 1) == 1;
      }
    }
  }

  lemma {:induction false} ScanFrom(s: seq<byte>, p: nat)
    ensures match ScanLine(s, p)
            case Some(n) => OddLineEnd(s, p, n - 2) && forall q: nat :: p <= q < n - 2 ==> !OddLineEnd(s, p, q)
            case None => forall q: nat :: p <= q ==> !OddLineEnd(s, p, q)
    decreases |s| - p
  {
    if p + 1 < |s| {
      NotAtOnce(s, p);
      hide OddLineEnd;
      if s[p] != CR {
        ScanFrom(s, p + 1);
        forall q: nat | q >= p + 1 ensures OddLineEnd(s, p, q) <==> OddLineEnd(s, p + 1, q) {
          OddStaysOdd(s, p, q);
        }
      } else if s[p + 1] != LF {
        ScanFrom(s, p + 2);
        forall q: nat | q >= p + 2 ensures OddLineEnd(s, p, q) <==> OddLineEnd(s, p + 2, q) {
          OddStaysOdd(s, p, q);
        }
      }
    }
  }

  /**
   Exactly which line end is found: the first that has an odd number of "\r" in front of its
   "\n". If there is none, the scan leaves the buffer.
   */
  lemma LineEndFoundExactly(s: seq<byte>)
    ensures match ScanLine(s, 0)
            case Some(n) => OddLineEnd(s, 0, n - 2) && forall q: nat :: q < n - 2 ==> !OddLineEnd(s, 0, q)
            case None => forall q: nat :: !OddLineEnd(s, 0, q)
  {
    ScanFrom(s, 0);
  }

  /** A line end that is missed: behind "\r\r\n" the scan leaves the buffer. */
  lemma LineEndCanBeMissed()
    ensures ScanLine([CR, CR, LF], 0) == None
  {
  }

  // ---------------------------------------------------------------- ProcessHeader

  const MAX_TOKENS: nat := 8
  const KEY_BUFFER: nat := 256

  /** Undefined: the C code aborts on a null token, reads an unset one or overruns a buffer. */
  datatype Outcome =
    | Accepted(key: seq<byte>, flags: nat, exptime: nat, datalen: nat)
    | Rejected
    | Undefined

  function Text(s: seq<byte>, w: Word): seq<byte>
    requires w.End() <= |s|
  {
    s[w.start..w.End()]
  }

  /** What a header with the words ws means. */
  function Meaning(s: seq<byte>, ws: seq<Word>): Outcome
    requires forall n :: 0 <= n < |ws| ==> ws[n].End() <= |s|
  {
    if |ws| < 2 then Rejected
    else if |ws| < 5 || ws[1].length > KEY_BUFFER then Undefined
    else
      var (ok1, flags) := Parsed(Text(s, ws[2]));
      var (ok2, exptime) := Parsed(Text(s, ws[3]));
      var (ok3, datalen) := Parsed(Text(s, ws[4]));
      if ok1 && ok2 && ok3 then Accepted(Text(s, ws[1]), flags, exptime, datalen) else Rejected
  }

  method FindNul(buf: array<byte>, p: nat) returns (end: Option<nat>)
    requires p <= buf.Length
    ensures match end
            case Some(e) => IsString(buf[..], p, e)
            case None => forall k :: p <= k < buf.Length ==> buf[k] != 0
  {
    for k := p to buf.Length
      invariant forall i :: p <= i < k ==> buf[i] != 0
    {
      if buf[k] == 0 {
        return Some(k);
      }
    }
    return None;
  }

  /** The word's bytes, read up to the NUL that follows it. */
  method ReadToken(buf: array<byte>, token: Token, ghost w: Word) returns (str: seq<byte>)
    requires token == w.AsToken() && IsString(buf[..], w.start, w.End())
    ensures str == Text(buf[..], w)
  {
    var p := token.value.value;
    var n := StrLen(buf, p, w.End());
    str := buf[p..p + n];
  }

  /** The part of ProcessHeader after the tokenizer. */
  method ReadHeader(buf: array<byte>, tokens: array<Token>, ntokens: nat, ghost was: seq<byte>, ghost ws: seq<Word>)
    returns (out: Outcome)
    requires |was| == buf.Length && tokens.Length == MAX_TOKENS && ntokens == Min(|ws|, MAX_TOKENS - 1) + 1
    requires forall n :: 0 <= n < |ws| ==> ws[n].End() <= |was|
    requires forall n :: 0 <= n < ntokens - 1 ==>
      tokens[n] == ws[n].AsToken() && IsString(buf[..], ws[n].start, ws[n].End()) && Text(buf[..], ws[n]) == Text(was, ws[n])
    ensures out == Meaning(was, ws)
  {
    if ntokens > 2 {
      if ntokens < 6 || tokens[1].length > KEY_BUFFER {
        return Undefined;
      }
      var key := buf[tokens[1].value.value..tokens[1].value.value + tokens[1].length];
      var str2 := ReadToken(buf, tokens[2], ws[2]);
      var str3 := ReadToken(buf, tokens[3], ws[3]);
      var str4 := ReadToken(buf, tokens[4], ws[4]);
      var ok1, flags := SafeStrtoul(str2);
      var ok2, exptime := SafeStrtoul(str3);
      var ok3, datalen := SafeStrtoul(str4);
      if ok1 && ok2 && ok3 {
        assert key == Text(buf[..], ws[1]);
        return Accepted(key, flags, exptime, datalen);
      }
    }
    return Rejected;
  }

  /**
   ProcessHeader for a set command, on the buffer whose line end has been replaced by NULs:
   skip leading spaces and NULs, cut the line into words, and read the first five.
   */
  method ProcessHeader(buf: array<byte>, len: nat, tokens: array<Token>) returns (out: Outcome)
    requires len <= buf.Length && tokens.Length == MAX_TOKENS
    modifies buf, tokens
    ensures out == HeaderMeaning(old(buf[..]), 0, len)
  {
    hide Words, WordEnd, Stored, Meaning, StringEnd, Terminal, Text, IsString;
    ghost var was := buf[..];
    var bufptr, left := 0, len;
    while bufptr < buf.Length && (buf[bufptr] == SPACE || buf[bufptr] == 0) && left > 0
      invariant bufptr + left == len && HeaderMeaning(was, 0, len) == HeaderMeaning(was, bufptr, left)
    {
      bufptr, left := bufptr + 1, left - 1;
    }
    var end := FindNul(buf, bufptr);
    if end == None {
      NoString(was, bufptr);
      return Undefined;
    }
    ghost var e := end.value;
    StringEndIs(was, bufptr, e);
    ghost var ws := Words(was, bufptr, e);
    var ntokens := TokenizeCommand(buf, bufptr, e, tokens, MAX_TOKENS);
    TokensAreStrings(was, buf[..], bufptr, e, ntokens - 1, tokens[..]);
    WordsInside(was, bufptr, e);
    out := ReadHeader(buf, tokens, ntokens, was, ws);
  }

  /** The end of the C string at p, if there is a NUL at or after p. */
  function StringEnd(s: seq<byte>, p: nat): (e: Option<nat>)
    requires p <= |s|
    ensures e.Some? ==> IsString(s, p, e.value)
    decreases |s| - p
  {
    if p == |s| then None else if s[p] == 0 then Some(p) else StringEnd(s, p + 1)
  }

  function HeaderMeaning(s: seq<byte>, p: nat, left: nat): Outcome
    requires p + left <= |s|
    decreases left
  {
    if left > 0 && (s[p] == SPACE || s[p] == 0) then HeaderMeaning(s, p + 1, left - 1)
    else
      match StringEnd(s, p)
      case None => Undefined
      case Some(e) =>
        WordsInside(s, p, e);
        Meaning(s, Words(s, p, e))
  }

  lemma {:induction false} NoString(s: seq<byte>, p: nat)
    requires p <= |s| && forall k :: p <= k < |s| ==> s[k] != 0
    ensures StringEnd(s, p) == None
    decreases |s| - p
  {
    if p < |s| {
      NoString(s, p + 1);
    }
  }

  lemma {:induction false} StringEndIs(s: seq<byte>, p: nat, e: nat)
    requires IsString(s, p, e)
    ensures StringEnd(s, p) == Some(e)
    decreases e - p
  {
    if p < e {
      StringEndIs(s, p + 1, e);
    }
  }

  lemma WordsInside(s: seq<byte>, p: nat, e: nat)
    requires p <= e <= |s|
    ensures forall n :: 0 <= n < |Words(s, p, e)| ==> Words(s, p, e)[n].End() <= e && p <= Words(s, p, e)[n].start
  {
    WordsAreMaximal(s, p, p, e);
  }

  /** Each stored token is a C string with the bytes of its word. */
  lemma TokensAreStrings(was: seq<byte>, now: seq<byte>, p: nat, e: nat, m: nat, tokens: seq<Token>)
    requires |now| == |was| && IsString(was, p, e) && m <= |Words(was, p, e)| && m <= |tokens|
    requires Stored(was, now, e, Words(was, p, e)[..m], tokens)
    ensures var ws := Words(was, p, e);
      forall n | 0 <= n < m ::
        && tokens[n] == ws[n].AsToken() && ws[n].End() <= |was|
        && IsString(now, ws[n].start, ws[n].End()) && Text(now, ws[n]) == Text(was, ws[n])
  {
    var ws := Words(was, p, e);
    WordsAreMaximal(was, p, p, e);
    forall n | 0 <= n < m
      ensures tokens[n] == ws[n].AsToken() && ws[n].End() <= |was|
      ensures IsString(now, ws[n].start, ws[n].End()) && Text(now, ws[n]) == Text(was, ws[n])
    {
      assert ws[..m][n] == ws[n];
      forall k | ws[n].start <= k < ws[n].End() ensures now[k] == was[k] != 0 {
        forall i | 0 <= i < m ensures k != ws[..m][i].End() {
          assert IsMaximalWord(was, p, e, ws[i]) && IsMaximalWord(was, p, e, ws[n]);
        }
      }
    }
  }

  // ---------------------------------------------------------------- the round trip

  function Join(words: seq<seq<byte>>): seq<byte> {
    if words == [] then [] else if |words| == 1 then words[0] else words[0] + [SPACE] + Join(words[1..])
  }

  predicate Plain(w: seq<byte>) {
    w != [] && forall k :: 0 <= k < |w| ==> w[k] != SPACE && w[k] != CR && w[k] != LF && w[k] != 0
  }

  /** Where the first of the joined words ends, and what follows it. */
  lemma FirstOfJoined(s: seq<byte>, i: nat, end: nat, words: seq<seq<byte>>)
    requires i <= end <= |s| && words != [] && s[i..end] == Join(words)
    ensures var j := i + |words[0]|;
      && j <= end && s[i..j] == words[0]
      && if |words| == 1 then j == end
         else j < end && s[j] == SPACE && s[j + 1..end] == Join(words[1..])
  {
    var w, j := words[0], i + |words[0]|;
    assert s[i..j] == s[i..end][..|w|];
    if |words| > 1 {
      assert s[j] == s[i..end][|w|];
      assert s[j + 1..end] == s[i..end][|w| + 1..];
    }
  }

  /** Cutting up words joined by single spaces gives the words back. */
  lemma {:induction false} WordsOfJoin(s: seq<byte>, i: nat, end: nat, words: seq<seq<byte>>)
    requires i <= end <= |s| && s[i..end] == Join(words) && forall n :: 0 <= n < |words| ==> Plain(words[n])
    ensures |Words(s, i, end)| == |words|
    ensures forall n :: 0 <= n < |words| ==>
      Words(s, i, end)[n].End() <= |s| && Text(s, Words(s, i, end)[n]) == words[n]
    decreases |words|
  {
    if words == [] {
      NoWordsAtEnd(s, end);
    } else {
      FirstOfJoined(s, i, end, words);
      hide Join, Words;
      var w, j := words[0], i + |words[0]|;
      assert Plain(w);
      assert forall k :: i <= k < j ==> s[k] == s[i..j][k - i];
      WordsStep(s, i, j, end);
      hide Plain;
      if |words| == 1 {
        FirstWordAdded(s, Words(s, i, end), [], Word(i, |w|), words);
      } else {
        WordsSkip(s, j, end);
        WordsOfJoin(s, j + 1, end, words[1..]);
        FirstWordAdded(s, Words(s, i, end), Words(s, j + 1, end), Word(i, |w|), words);
      }
    }
  }

  lemma FirstWordAdded(s: seq<byte>, ws: seq<Word>, rest: seq<Word>, first: Word, words: seq<seq<byte>>)
    requires words != [] && ws == [first] + rest && |rest| == |words| - 1
    requires first.End() <= |s| && Text(s, first) == words[0]
    requires forall n :: 0 <= n < |rest| ==> rest[n].End() <= |s| && Text(s, rest[n]) == words[1..][n]
    ensures |ws| == |words| && forall n :: 0 <= n < |words| ==> ws[n].End() <= |s| && Text(s, ws[n]) == words[n]
  {
    forall n | 0 <= n < |words| ensures ws[n].End() <= |s| && Text(s, ws[n]) == words[n] {
      if n > 0 {
        assert ws[n] == rest[n - 1] && words[1..][n - 1] == words[n];
      }
    }
  }

  lemma {:induction false} JoinIsLine(words: seq<seq<byte>>)
    requires words != [] && forall n :: 0 <= n < |words| ==> Plain(words[n])
    ensures words[0] != [] && |Join(words)| > 0 && Join(words)[0] == words[0][0]
    ensures forall k :: 0 <= k < |Join(words)| ==> Join(words)[k] != CR && Join(words)[k] != LF && Join(words)[k] != 0
  {
    assert Plain(words[0]);
    if |words| > 1 {
      JoinIsLine(words[1..]);
    }
  }

  const SET_WORD: seq<byte> := [115, 101, 116]

  /** "set <key> <flags> <exptime> <bytes>" */
  function SetWords(key: seq<byte>, flags: nat, exptime: nat, datalen: nat): seq<seq<byte>> {
    [SET_WORD, key, Decimal(flags), Decimal(exptime), Decimal(datalen)]
  }

  lemma ScanOfLine(line: seq<byte>, rest: seq<byte>)
    requires line != [] && forall k :: 0 <= k < |line| ==> line[k] != CR && line[k] != LF
    ensures ScanLine(line + [CR, LF] + rest, 0) == Some(|line| + 2)
  {
    var s := line + [CR, LF] + rest;
    assert s[|line| - 1] == line[|line| - 1];
    assert forall k :: 0 <= k < |line| ==> s[k] == line[k];
    assert CrRun(s, 0, |line| - 1) == 0;
    assert OddLineEnd(s, 0, |line|);
    LineEndFoundExactly(s);
  }

  /** The meaning of a buffer that begins with a set line and a NUL. */
  lemma MeaningOfSetLine(s: seq<byte>, key: seq<byte>, flags: nat, exptime: nat, datalen: nat)
    requires Plain(key) && |key| <= 250
    requires flags < UINT32_RANGE && exptime < UINT32_RANGE && datalen < UINT32_RANGE
    requires var line := Join(SetWords(key, flags, exptime, datalen));
      |line| < |s| && s[..|line|] == line && s[|line|] == 0
    ensures HeaderMeaning(s, 0, |s|) == Accepted(key, flags, exptime, datalen)
  {
    var words := SetWords(key, flags, exptime, datalen);
    var n := |Join(words)|;
    assert s[0..n] == s[..n];
    HeaderIsLine(s, 0, |s|, words);
    WordsOfJoin(s, 0, n, words);
    WordsInside(s, 0, n);
    PrintedNumber(flags);
    PrintedNumber(exptime);
    PrintedNumber(datalen);
    var ws := Words(s, 0, n);
    hide Join, Parsed, Words, HeaderMeaning, Decimal, Plain;
    assert Text(s, ws[1]) == words[1] && Text(s, ws[2]) == words[2];
    assert Text(s, ws[3]) == words[3] && Text(s, ws[4]) == words[4];
    assert ws[1].length == |Text(s, ws[1])|;
  }

  /** w is cut into spaces, a sign, digits and the rest. */
  ghost predicate Cut(w: seq<byte>, spaces: seq<byte>, sign: seq<byte>, digits: seq<byte>, tail: seq<byte>) {
    && w == spaces + sign + digits + tail
    && (forall c :: c in spaces ==> IsSpace(c)) && IsSign(sign)
    && (forall k :: 0 <= k < |digits| ==> IsDigit(digits[k])) && (tail != [] ==> !IsDigit(tail[0]))
    && (sign + digits == [] && tail != [] ==> !IsSpace(tail[0]) && tail[0] != PLUS && tail[0] != MINUS)
  }

  /**
   What safe_strtoul takes for a number, and for which: digits of a value within 64 bits, with
   nothing or a space behind them; and not negated, nor with a '-' anywhere, from 2^63 on.
   */
  ghost predicate ReadsAs(w: seq<byte>, n: nat) {
    exists spaces, sign, digits, tail :: CutAs(w, spaces, sign, digits, tail, n)
  }

  ghost predicate CutAs(w: seq<byte>, spaces: seq<byte>, sign: seq<byte>, digits: seq<byte>, tail: seq<byte>, n: nat) {
    && Cut(w, spaces, sign, digits, tail)
    && digits != [] && Value(digits) < ULONG_RANGE && (tail == [] || IsSpace(tail[0]))
    && (Signed(sign, Value(digits)) < ULONG_RANGE / 2 || MINUS !in w)
    && n == Signed(sign, Value(digits)) % UINT32_RANGE
  }

  ghost predicate IsNumber(w: seq<byte>) {
    exists n: nat :: ReadsAs(w, n)
  }

  lemma {:induction false} SpacesSkipped(s: seq<byte>, i: nat)
    requires i <= |s|
    ensures var j := SkipSpaces(s, i);
      (forall k :: i <= k < j ==> IsSpace(s[k])) && (j < |s| ==> !IsSpace(s[j]))
    decreases |s| - i
  {
    if i < |s| && IsSpace(s[i]) {
      SpacesSkipped(s, i + 1);
    }
  }

  lemma {:induction false} DigitsEnd(s: seq<byte>, i: nat)
    requires i <= |s|
    ensures SkipDigits(s, i) < |s| ==> !IsDigit(s[SkipDigits(s, i)])
    decreases |s| - i
  {
    if i < |s| && IsDigit(s[i]) {
      DigitsEnd(s, i + 1);
    }
  }

  /** Every string has such a cut. */
  lemma CutOf(w: seq<byte>) returns (spaces: seq<byte>, sign: seq<byte>, digits: seq<byte>, tail: seq<byte>)
    ensures Cut(w, spaces, sign, digits, tail)
  {
    var i := SkipSpaces(w, 0);
    var j := if i < |w| && (w[i] == MINUS || w[i] == PLUS) then i + 1 else i;
    var k := SkipDigits(w, j);
    SpacesSkipped(w, 0);
    DigitsSkipped(w, j);
    DigitsEnd(w, j);
    spaces, sign, digits, tail := w[..i], w[i..j], w[j..k], w[k..];
    hide SkipSpaces, SkipDigits;
    CutAt(w, i, j, k);
  }

  lemma CutAt(w: seq<byte>, i: nat, j: nat, k: nat)
    requires i <= j <= k <= |w| && (forall n :: 0 <= n < i ==> IsSpace(w[n])) && (i < |w| ==> !IsSpace(w[i]))
    requires j == if i < |w| && (w[i] == MINUS || w[i] == PLUS) then i + 1 else i
    requires (forall n :: j <= n < k ==> IsDigit(w[n])) && (k < |w| ==> !IsDigit(w[k]))
    ensures Cut(w, w[..i], w[i..j], w[j..k], w[k..])
  {
    hide IsDigit, IsSpace;
    assert w == w[..i] + w[i..j] + w[j..k] + w[k..];
    assert k < |w| ==> w[k..][0] == w[k];
    assert w[i..j] == [] || w[i..j] == [w[i]];
    assert forall c :: c in w[..i] ==> IsSpace(c);
    assert forall n :: 0 <= n < k - j ==> w[j..k][n] == w[j + n];
  }

  lemma ParsedAsCut(w: seq<byte>, spaces: seq<byte>, sign: seq<byte>, digits: seq<byte>, tail: seq<byte>)
    requires Cut(w, spaces, sign, digits, tail)
    ensures forall n: nat :: Parsed(w) == (true, n) <==> CutAs(w, spaces, sign, digits, tail, n)
    ensures !Parsed(w).0 ==> Parsed(w) == (false, 0)
  {
    hide Parsed, Value, Signed;
    NumberRead(spaces, sign, digits, tail);
  }

  /** Which words are numbers, and what they read as. */
  lemma ParsedExactly(w: seq<byte>)
    ensures Parsed(w).0 <==> IsNumber(w)
    ensures Parsed(w).0 ==> ReadsAs(w, Parsed(w).1)
  {
    hide Parsed, Cut;
    var spaces, sign, digits, tail := CutOf(w);
    ParsedAsCut(w, spaces, sign, digits, tail);
    assert Parsed(w).0 ==> CutAs(w, spaces, sign, digits, tail, Parsed(w).1);
    assert Parsed(w).0 ==> ReadsAs(w, Parsed(w).1);
    assert Parsed(w).0 ==> IsNumber(w);
    hide CutAs, ReadsAs;
    if n: nat :| ReadsAs(w, n) {
      spaces, sign, digits, tail :| CutAs(w, spaces, sign, digits, tail, n);
      ParsedAsCut(w, spaces, sign, digits, tail);
      assert Parsed(w) == (true, n);
    }
  }

  lemma {:induction false} SkippedTo(s: seq<byte>, i: nat, p: nat, len: nat)
    requires i <= p <= len <= |s| && (forall k :: i <= k < p ==> s[k] == SPACE || s[k] == 0)
    requires p < |s| && s[p] != SPACE && s[p] != 0
    ensures HeaderMeaning(s, i, len - i) == HeaderMeaning(s, p, len - p) ==
      match StringEnd(s, p) case None => Undefined case Some(e) => (WordsInside(s, p, e); Meaning(s, Words(s, p, e)))
    decreases p - i
  {
    if i < p {
      SkippedTo(s, i + 1, p, len);
    }
  }

  /**
   What becomes of any header made of plain words, behind spaces and NULs that are skipped: it
   takes two words, then five and a key that fits, and it is accepted if and only if the third,
   fourth and fifth are numbers, as the key and those numbers.
   */
  lemma HeaderReadExactly(s: seq<byte>, p: nat, len: nat, words: seq<seq<byte>>)
    requires words != [] && (forall n :: 0 <= n < |words| ==> Plain(words[n]))
    requires p <= len <= |s| && p + |Join(words)| < |s| && (forall k :: 0 <= k < p ==> s[k] == SPACE || s[k] == 0)
    requires s[p..p + |Join(words)|] == Join(words) && s[p + |Join(words)|] == 0
    ensures var out := HeaderMeaning(s, 0, len);
      if |words| < 2 then out == Rejected
      else if |words| < 5 || |words[1]| > KEY_BUFFER then out == Undefined
      else
        && (out.Accepted? || out == Rejected)
        && (out.Accepted? <==> IsNumber(words[2]) && IsNumber(words[3]) && IsNumber(words[4]))
        && (out.Accepted? ==>
              && out.key == words[1] && ReadsAs(words[2], out.flags)
              && ReadsAs(words[3], out.exptime) && ReadsAs(words[4], out.datalen))
  {
    HeaderIsLine(s, p, len, words);
    WordsInside(s, p, p + |Join(words)|);
    WordsOfJoin(s, p, p + |Join(words)|, words);
    hide Join, Words, HeaderMeaning, Meaning, Plain, ReadsAs, IsNumber;
    MeaningOfWords(s, Words(s, p, p + |Join(words)|), words);
  }

  lemma HeaderIsLine(s: seq<byte>, p: nat, len: nat, words: seq<seq<byte>>)
    requires words != [] && (forall n :: 0 <= n < |words| ==> Plain(words[n]))
    requires p <= len <= |s| && p + |Join(words)| < |s| && (forall k :: 0 <= k < p ==> s[k] == SPACE || s[k] == 0)
    requires s[p..p + |Join(words)|] == Join(words) && s[p + |Join(words)|] == 0
    ensures var e := p + |Join(words)|;
      && (forall n :: 0 <= n < |Words(s, p, e)| ==> Words(s, p, e)[n].End() <= |s|)
      && HeaderMeaning(s, 0, len) == Meaning(s, Words(s, p, e))
  {
    var e := p + |Join(words)|;
    JoinIsLine(words);
    assert Plain(words[0]);
    hide Join, Plain, Meaning, Words;
    assert forall k :: p <= k < e ==> s[k] == s[p..e][k - p];
    StringEndIs(s, p, e);
    WordsInside(s, p, e);
    hide StringEnd;
    SkippedTo(s, 0, p, len);
    hide HeaderMeaning;
  }

  lemma MeaningOfWords(s: seq<byte>, ws: seq<Word>, words: seq<seq<byte>>)
    requires |ws| == |words| && forall n :: 0 <= n < |ws| ==> ws[n].End() <= |s| && Text(s, ws[n]) == words[n]
    ensures var out := Meaning(s, ws);
      if |words| < 2 then out == Rejected
      else if |words| < 5 || |words[1]| > KEY_BUFFER then out == Undefined
      else
        && (out.Accepted? || out == Rejected)
        && (out.Accepted? <==> IsNumber(words[2]) && IsNumber(words[3]) && IsNumber(words[4]))
        && (out.Accepted? ==>
              && out.key == words[1] && ReadsAs(words[2], out.flags)
              && ReadsAs(words[3], out.exptime) && ReadsAs(words[4], out.datalen))
  {
    hide Parsed, ReadsAs, IsNumber;
    if |words| >= 5 {
      ParsedExactly(words[2]);
      ParsedExactly(words[3]);
      ParsedExactly(words[4]);
    }
    assert |words| >= 2 ==> ws[1].length == |Text(s, ws[1])| && Text(s, ws[1]) == words[1];
  }

  /**
   A set header printed from a key and three numbers, with anything behind it, is found
   complete at its own length and read back as the key and the numbers.
   */
  method SetHeaderRoundTrip(key: seq<byte>, flags: nat, exptime: nat, datalen: nat, rest: seq<byte>)
    returns (found: Option<nat>, outcome: Outcome)
    requires Plain(key) && |key| <= 250
    requires flags < UINT32_RANGE && exptime < UINT32_RANGE && datalen < UINT32_RANGE
    ensures found == Some(|Join(SetWords(key, flags, exptime, datalen))| + 2)
    ensures outcome == Accepted(key, flags, exptime, datalen)
  {
    hide Join, ScanLine, HeaderMeaning, Decimal;
    var words := SetWords(key, flags, exptime, datalen);
    var line := Join(words);
    JoinIsLine(words);
    ScanOfLine(line, rest);
    var text := line + [CR, LF] + rest;
    var buf := new byte[|text|](i requires 0 <= i < |text| => text[i]);
    assert buf[..] == text;
    found := IsBufferComplete(buf, |text|);
    var tokens := new Token[MAX_TOKENS](_ => Token(None, 0));
    assert buf[..][..|line|] == line && buf[..][|line|] == 0;
    MeaningOfSetLine(buf[..], key, flags, exptime, datalen);
    outcome := ProcessHeader(buf, |text|, tokens);
  }
}
