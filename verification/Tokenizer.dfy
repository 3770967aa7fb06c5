/**
 tokenize_command of aConnParse.cpp: cuts a C string into words in place, a bounded number
 at a time, against the words of the string as a function. Positions are indices into the
 buffer that holds the string.
 */
module Tokenizer {
  import opened Bytes

  /** value is an index into the buffer, or null. */
  datatype Token = Token(value: Option<nat>, length: nat)

  /** A word: where it starts, and its length. */
  datatype Word = Word(start: nat, length: nat) {
    function End(): nat { start + length }
    function AsToken(): Token { Token(Some(start), length) }
  }

  // ---------------------------------------------------------------- the words of a string

  /** The first space at or after i, or the end of the string. */
  function WordEnd(s: seq<byte>, i: nat, end: nat): (j: nat)
    requires i <= end <= |s|
    ensures i <= j <= end && (j < end ==> s[j] == SPACE)
    ensures forall k :: i <= k < j ==> s[k] != SPACE
    decreases end - i
  {
    if i == end || s[i] == SPACE then i else WordEnd(s, i + 1, end)
  }

  /** The maximal space-free words between i and end. */
  function Words(s: seq<byte>, i: nat, end: nat): seq<Word>
    requires i <= end <= |s|
    decreases end - i
  {
    if i == end then []
    else if s[i] == SPACE then Words(s, i + 1, end)
    else [Word(i, WordEnd(s, i, end) - i)] + Words(s, WordEnd(s, i, end), end)
  }

  ghost predicate IsMaximalWord(s: seq<byte>, begin: nat, end: nat, w: Word)
    requires begin <= end <= |s|
  {
    && 0 < w.length && begin <= w.start && w.End() <= end
    && (forall k :: w.start <= k < w.End() ==> s[k] != SPACE)
    && (w.start > begin ==> s[w.start - 1] == SPACE)
    && (w.End() < end ==> s[w.End()] == SPACE)
  }

  /** What Words means: maximal words, in order and disjoint. */
  lemma {:induction false} WordsAreMaximal(s: seq<byte>, begin: nat, i: nat, end: nat)
    requires begin <= i <= end <= |s| && (i > begin ==> s[i - 1] == SPACE || i == end || s[i] == SPACE)
    ensures forall n :: 0 <= n < |Words(s, i, end)| ==>
      IsMaximalWord(s, begin, end, Words(s, i, end)[n]) && i <= Words(s, i, end)[n].start
    ensures forall n :: 0 <= n < |Words(s, i, end)| - 1 ==> Words(s, i, end)[n].End() < Words(s, i, end)[n + 1].start
    decreases end - i
  {
    if i < end {
      if s[i] == SPACE {
        WordsAreMaximal(s, begin, i + 1, end);
      } else {
        WordsAreMaximal(s, begin, WordEnd(s, i, end), end);
      }
    }
  }

  /** And together they hold every character that is not a space. */
  lemma {:induction false} WordsCoverAll(s: seq<byte>, i: nat, end: nat, k: nat) returns (n: nat)
    requires i <= k < end <= |s| && s[k] != SPACE
    ensures n < |Words(s, i, end)| && Words(s, i, end)[n].start <= k < Words(s, i, end)[n].End()
    decreases end - i
  {
    if s[i] == SPACE {
      n := WordsCoverAll(s, i + 1, end, k);
    } else if k < WordEnd(s, i, end) {
      n := 0;
    } else {
      n := WordsCoverAll(s, WordEnd(s, i, end), end, k);
      n := n + 1;
    }
  }

  lemma {:induction false} WordEndIs(s: seq<byte>, i: nat, j: nat, end: nat)
    requires i <= j <= end <= |s| && (j < end ==> s[j] == SPACE) && forall k :: i <= k < j ==> s[k] != SPACE
    ensures WordEnd(s, i, end) == j
    decreases j - i
  {
    if i < j {
      WordEndIs(s, i + 1, j, end);
    }
  }

  lemma WordsStep(s: seq<byte>, i: nat, j: nat, end: nat)
    requires i < j <= end <= |s| && (j < end ==> s[j] == SPACE) && forall k :: i <= k < j ==> s[k] != SPACE
    ensures Words(s, i, end) == [Word(i, j - i)] + Words(s, j, end) && Words(s, end, end) == []
  {
    WordEndIs(s, i, j, end);
  }

  lemma WordsSkip(s: seq<byte>, i: nat, end: nat)
    requires i < end <= |s| && s[i] == SPACE
    ensures Words(s, i, end) == Words(s, i + 1, end)
  {
  }

  lemma {:induction false} WordsFrame(s: seq<byte>, t: seq<byte>, i: nat, end: nat)
    requires i <= end <= |s| == |t| && forall k :: i <= k < end ==> s[k] == t[k]
    ensures Words(s, i, end) == Words(t, i, end)
    decreases end - i
  {
    if i < end {
      if s[i] == SPACE {
        WordsFrame(s, t, i + 1, end);
      } else {
        var j := WordEnd(t, i, end);
        WordsStep(s, i, j, end);
        WordsStep(t, i, j, end);
        hide Words, WordEnd;
        WordsFrame(s, t, j, end);
      }
    }
  }

  // ---------------------------------------------------------------- the tokenizer

  /** A C string in a buffer: the first NUL at or after command is at end. */
  predicate IsString(buf: seq<byte>, command: nat, end: nat) {
    command <= end < |buf| && buf[end] == 0 && forall k :: command <= k < end ==> buf[k] != 0
  }

  method StrLen(buf: array<byte>, command: nat, ghost end: nat) returns (len: nat)
    requires IsString(buf[..], command, end)
    ensures command + len == end
  {
    len := 0;
    while buf[command + len] != 0
      invariant command + len <= end
      decreases end - command - len
    {
      len := len + 1;
    }
  }

  /** The words ws have been stored and each cut off with a NUL; nothing else has changed. */
  ghost predicate Stored(was: seq<byte>, now: seq<byte>, end: nat, ws: seq<Word>, tokens: seq<Token>)
    requires |now| == |was| && end < |was| && |ws| <= |tokens|
  {
    && (forall n :: 0 <= n < |ws| ==> tokens[n] == ws[n].AsToken())
    && (forall n :: 0 <= n < |ws| ==> ws[n].End() <= end && now[ws[n].End()] == 0)
    && (forall k :: 0 <= k < |was| && (forall n :: 0 <= n < |ws| ==> k != ws[n].End()) ==> now[k] == was[k])
  }

  /** Where the tokenizer stops, if it does not reach the end of the string. */
  function Terminal(s: seq<byte>, command: nat, end: nat, maxTokens: nat): Option<nat>
    requires maxTokens > 1 && command <= end <= |s|
  {
    var ws := Words(s, command, end);
    if |ws| >= maxTokens - 1 && ws[maxTokens - 2].End() + 1 < end then Some(ws[maxTokens - 2].End() + 1) else None
  }

  lemma StoredNone(was: seq<byte>, end: nat, tokens: seq<Token>)
    requires end < |was|
    ensures Stored(was, was, end, [], tokens)
  {
  }

  lemma StoredOneMore(was: seq<byte>, now: seq<byte>, now': seq<byte>, end: nat, ws: seq<Word>, w: Word,
                      tokens: seq<Token>, tokens': seq<Token>)
    requires |was| == |now| == |now'| && end < |was| && |ws| < |tokens| == |tokens'|
    requires Stored(was, now, end, ws, tokens)
    requires w.End() <= end && now' == now[w.End() := 0] && tokens' == tokens[|ws| := w.AsToken()]
    ensures Stored(was, now', end, ws + [w], tokens')
  {
    var ws' := ws + [w];
    assert ws'[|ws|] == w && forall n :: 0 <= n < |ws| ==> ws'[n] == ws[n];
    forall k | 0 <= k < |was| && (forall n :: 0 <= n < |ws'| ==> k != ws'[n].End())
      ensures now'[k] == was[k]
    {
      assert k != ws'[|ws|].End();
      assert forall n :: 0 <= n < |ws| ==> ws'[n].End() == ws[n].End();
    }
  }

  lemma StoredFrame(was: seq<byte>, now: seq<byte>, end: nat, ws: seq<Word>, tokens: seq<Token>, tokens': seq<Token>)
    requires |now| == |was| && end < |was| && |ws| < |tokens| == |tokens'| && tokens' == tokens[|ws| := tokens'[|ws|]]
    requires Stored(was, now, end, ws, tokens)
    ensures Stored(was, now, end, ws, tokens')
  {
  }

  lemma StoredTokens(was: seq<byte>, now: seq<byte>, end: nat, ws: seq<Word>, tokens: seq<Token>)
    requires |now| == |was| && end < |was| && |ws| <= |tokens| && Stored(was, now, end, ws, tokens)
    ensures forall n :: 0 <= n < |ws| ==> tokens[n] == ws[n].AsToken()
  {
  }

  method CutWord(buf: array<byte>, tokens: array<Token>, ntokens: nat, start: nat, e: nat,
                 ghost was: seq<byte>, ghost end: nat, ghost ws: seq<Word>)
    requires buf.Length == |was| && end < |was| && |ws| == ntokens < tokens.Length && start <= e < end
    requires Stored(was, buf[..], end, ws, tokens[..])
    modifies buf, tokens
    ensures Stored(was, buf[..], end, ws + [Word(start, e - start)], tokens[..])
    ensures forall k :: e < k < buf.Length ==> buf[k] == old(buf[k])
  {
    hide Stored;
    ghost var now, stored := buf[..], tokens[..];
    tokens[ntokens] := Token(Some(start), e - start);
    buf[e] := 0;
    StoredOneMore(was, now, buf[..], end, ws, Word(start, e - start), stored, tokens[..]);
  }

  lemma NextWord(was: seq<byte>, start: nat, e: nat, end: nat, ws: seq<Word>, n: nat)
    requires start < e < end <= |was| && was[e] == SPACE && forall k :: start <= k < e ==> was[k] != SPACE
    requires n <= |ws| && ws == ws[..n] + Words(was, start, end)
    ensures n < |ws| && ws[n] == Word(start, e - start) && ws[..n + 1] == ws[..n] + [ws[n]]
    ensures ws == ws[..n + 1] + Words(was, e, end)
  {
    WordsStep(was, start, e, end);
  }

  /** The scan: start is the first character of the word being scanned, e the next one to look at. */
  method Scan(buf: array<byte>, command: nat, ghost end: nat, tokens: array<Token>, maxTokens: nat)
    returns (ntokens: nat, start: nat, e: nat)
    requires IsString(buf[..], command, end) && 1 < maxTokens <= tokens.Length
    modifies buf, tokens
    ensures var ws := Words(old(buf[..]), command, end);
      && ntokens <= |ws| && ntokens < tokens.Length && command <= start <= e <= end
      && (forall k :: e <= k < buf.Length ==> buf[k] == old(buf[k]))
      && Stored(old(buf[..]), buf[..], end, ws[..ntokens], tokens[..])
      && (if ntokens == maxTokens - 1 then
            start == e == ws[ntokens - 1].End() + 1
          else
            && ntokens < maxTokens - 1 && e == end
            && ws == ws[..ntokens] + Words(old(buf[..]), start, end)
            && forall k :: start <= k < end ==> old(buf[k]) != SPACE)
  {
    hide Stored, Words, WordEnd;
    ghost var was := buf[..];
    ghost var ws := Words(was, command, end);
    ntokens := 0;
    var len := StrLen(buf, command, end);
    start, e := command, command;
    var i := 0;
    StoredNone(was, end, tokens[..]);
    while i < len
      invariant 0 <= i <= len && command <= start <= e == command + i
      invariant ntokens < maxTokens - 1 && ntokens <= |ws|
      invariant ws == ws[..ntokens] + Words(was, start, end)
      invariant forall k :: start <= k < e ==> was[k] != SPACE
      invariant Stored(was, buf[..], end, ws[..ntokens], tokens[..])
      invariant forall k :: e <= k < buf.Length ==> buf[k] == was[k]
    {
      if buf[e] == SPACE {
        if start != e {
          NextWord(was, start, e, end, ws, ntokens);
          CutWord(buf, tokens, ntokens, start, e, was, end, ws[..ntokens]);
          ntokens := ntokens + 1;
          if ntokens == maxTokens - 1 {
            e := e + 1;
            start := e;
            break;
          }
        }
        WordsSkip(was, e, end);
        start := e + 1;
      }
      e := e + 1;
      i := i + 1;
    }
  }

  method TokenizeCommand(buf: array<byte>, command: nat, ghost end: nat, tokens: array<Token>, maxTokens: nat)
    returns (ntokens: nat)
    requires IsString(buf[..], command, end) && 1 < maxTokens <= tokens.Length
    modifies buf, tokens
    ensures var ws := Words(old(buf[..]), command, end);
      && ntokens == Min(|ws|, maxTokens - 1) + 1
      && Stored(old(buf[..]), buf[..], end, ws[..ntokens - 1], tokens[..])
      && tokens[ntokens - 1] == Token(Terminal(old(buf[..]), command, end, maxTokens), 0)
  {
    hide Stored, Words, WordEnd;
    ghost var was := buf[..];
    ghost var ws := Words(was, command, end);
    var start, e;
    ntokens, start, e := Scan(buf, command, end, tokens, maxTokens);
    ghost var stored := tokens[..];
    if start != e {
      WordsStep(was, start, end, end);
      assert ws[ntokens] == Word(start, e - start);
      assert ws[..ntokens + 1] == ws[..ntokens] + [ws[ntokens]];
      tokens[ntokens] := Token(Some(start), e - start);
      StoredOneMore(was, buf[..], buf[..], end, ws[..ntokens], ws[ntokens], stored, tokens[..]);
      ntokens := ntokens + 1;
    } else {
      NoWordsAtEnd(was, end);
    }
    stored := tokens[..];
    tokens[ntokens] := Token(if buf[e] == 0 then None else Some(e), 0);
    StoredFrame(was, buf[..], end, ws[..ntokens], stored, tokens[..]);
    ntokens := ntokens + 1;
  }

  lemma NoWordsAtEnd(s: seq<byte>, end: nat)
    requires end <= |s|
    ensures Words(s, end, end) == []
  {
  }

  // ---------------------------------------------------------------- running it to the end

  lemma {:induction false} WordsSuffix(s: seq<byte>, i: nat, end: nat, n: nat)
    requires i <= end <= |s| && 1 <= n <= |Words(s, i, end)|
    ensures var j := Words(s, i, end)[n - 1].End();
      && i < j <= end && Words(s, i, end)[n..] == Words(s, j, end) && (j < end ==> s[j] == SPACE)
    ensures forall m :: 0 <= m < n ==> Words(s, i, end)[m].End() <= Words(s, i, end)[n - 1].End()
    decreases end - i
  {
    var ws := Words(s, i, end);
    if s[i] == SPACE {
      WordsSuffix(s, i + 1, end, n);
    } else {
      var j := WordEnd(s, i, end);
      if n > 1 {
        WordsSuffix(s, j, end, n - 1);
        var rest := Words(s, j, end);
        assert forall m :: 1 <= m < n ==> ws[m] == rest[m - 1];
      }
    }
  }

  /** What is left for the next run, or nothing if the terminal pointer is null. */
  lemma WordsResume(s: seq<byte>, command: nat, end: nat, maxTokens: nat)
    requires maxTokens > 1 && command <= end <= |s|
    ensures var ws := Words(s, command, end);
      match Terminal(s, command, end, maxTokens)
      case Some(k) =>
        && command < k < end && |ws| >= maxTokens - 1 && ws == ws[..maxTokens - 1] + Words(s, k, end)
        && forall n :: 0 <= n < maxTokens - 1 ==> ws[n].End() < k
      case None => |ws| <= maxTokens - 1
  {
    var ws := Words(s, command, end);
    if |ws| >= maxTokens - 1 {
      WordsSuffix(s, command, end, maxTokens - 1);
      var j := ws[maxTokens - 2].End();
      assert ws == ws[..maxTokens - 1] + ws[maxTokens - 1..];
      if j < end {
        WordsSkip(s, j, end);
      }
      NoWordsAtEnd(s, end);
    }
  }

  /** Re-run from the terminal pointer until it is null: all the words, each once and in order. */
  method TokenizeAll(buf: array<byte>, command: nat, ghost end: nat, tokens: array<Token>, maxTokens: nat)
    returns (words: seq<Word>)
    requires IsString(buf[..], command, end) && 1 < maxTokens <= tokens.Length
    modifies buf, tokens
    ensures words == Words(old(buf[..]), command, end)
  {
    hide Words, WordEnd, Terminal, Stored;
    ghost var was := buf[..];
    var from := command;
    words := [];
    while true
      invariant command <= from <= end && forall k :: from <= k < buf.Length ==> buf[k] == was[k]
      invariant Words(was, command, end) == words + Words(was, from, end)
      decreases end - from
    {
      ghost var before := buf[..];
      WordsFrame(before, was, from, end);
      ghost var ws := Words(before, from, end);
      var ntokens := TokenizeCommand(buf, from, end, tokens, maxTokens);
      WordsResume(before, from, end, maxTokens);
      StoredTokens(before, buf[..], end, ws[..ntokens - 1], tokens[..]);
      var got := Collect(tokens, ntokens - 1, ws[..ntokens - 1]);
      words := words + got;
      if tokens[ntokens - 1].value == None {
        assert ws[..ntokens - 1] == ws;
        return;
      }
      from := tokens[ntokens - 1].value.value;
      CutsAreBefore(before, buf[..], end, ws[..ntokens - 1], tokens[..], from);
      WordsFrame(before, was, from, end);
    }
  }

  /** The tokens of one run, up to the one of length zero. */
  method Collect(tokens: array<Token>, n: nat, ghost ws: seq<Word>) returns (got: seq<Word>)
    requires n == |ws| <= tokens.Length
    requires forall i :: 0 <= i < n ==> tokens[i] == ws[i].AsToken()
    ensures got == ws
  {
    got := [];
    for i := 0 to n
      invariant got == ws[..i]
    {
      got := got + [Word(tokens[i].value.value, tokens[i].length)];
    }
  }

  /** A run writes nothing at or after its terminal pointer. */
  lemma CutsAreBefore(was: seq<byte>, now: seq<byte>, end: nat, ws: seq<Word>, tokens: seq<Token>, k: nat)
    requires |now| == |was| && end < |was| && |ws| <= |tokens| && Stored(was, now, end, ws, tokens)
    requires forall n :: 0 <= n < |ws| ==> ws[n].End() < k
    ensures forall i :: k <= i < |was| ==> now[i] == was[i]
  {
  }
}
