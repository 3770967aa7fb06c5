/**
 The Bob Jenkins hash of hash.cpp. The C code reads the key in one of four ways,
 chosen by the alignment of the key pointer and by the VALGRIND build flag; the methods
 below follow it and are proved against one function of the key's bytes, HashOf.

 Arithmetic is that of uint32_t. Each operator has a name of its own, so that proofs
 can use its laws without unfolding bit vectors.
 */
module Hash {

  type word = bv32
  type octet = bv8

  datatype State = State(a: word, b: word, c: word)

  function Add(x: word, y: word): word { x + y }
  function Sub(x: word, y: word): word { x - y }
  function Xor(x: word, y: word): word { x ^ y }
  function And(x: word, y: word): word { x & y }
  function Byte(b: octet): word { b as word }
  function Shl8(b: octet): word { (b as word) << 8 }
  function Shl16(b: octet): word { (b as word) << 16 }
  function Shl24(b: octet): word { (b as word) << 24 }

  /** The rot macro. */
  function Rot(x: word, k: word): word
    requires 0 < k < 32
  {
    (x << k) ^ (x >> (32 - k))
  }

  /** What a little-endian machine loads from four, or two, consecutive bytes. */
  function Le32(b0: octet, b1: octet, b2: octet, b3: octet): word {
    (b0 as word) | ((b1 as word) << 8) | ((b2 as word) << 16) | ((b3 as word) << 24)
  }

  function Le16(b0: octet, b1: octet): word {
    (b0 as word) | ((b1 as word) << 8)
  }

  /** A 16-bit load widened and shifted left by 16. */
  function Le16Shl16(b0: octet, b1: octet): word {
    ((b0 as word) | ((b1 as word) << 8)) << 16
  }

  // ---------------------------------------------------------------- mix and final

  // One line of the mix macro, x -= z; x ^= rot(z,k); z += y, leaves its three variables
  // renamed for the next line: (a,b,c), then (b,c,a), then (c,a,b), and round again.
  function MixStep(s: State, k: word): State
    requires 0 < k < 32
  {
    State(s.b, Add(s.c, s.b), Xor(Sub(s.a, s.c), Rot(s.c, k)))
  }

  // One line of the final macro, x ^= y; x -= rot(y,k), for (c,b), (a,c), (b,a) in turn;
  // the fields are (the variable written, the variable read, the third one).
  function FinalStep(s: State, k: word): State
    requires 0 < k < 32
  {
    State(s.c, Sub(Xor(s.a, s.b), Rot(s.b, k)), s.b)
  }

  /** The mix macro; six lines bring the names back to (a,b,c). */
  function Mix(s: State): State {
    MixStep(MixStep(MixStep(MixStep(MixStep(MixStep(s, 4), 6), 8), 16), 19), 4)
  }

  /** The final macro: seven lines, the first of which writes c and reads b. */
  function Final(s: State): State {
    var t := FinalStep(FinalStep(FinalStep(FinalStep(FinalStep(FinalStep(FinalStep(
      State(s.c, s.b, s.a), 14), 11), 25), 16), 4), 14), 24);
    State(t.a, t.c, t.b)
  }

  function MixBack(t: State, k: word): State
    requires 0 < k < 32
  {
    var c := Sub(t.b, t.a);
    State(Add(Xor(t.c, Rot(c, k)), c), t.a, c)
  }

  function FinalBack(t: State, k: word): State
    requires 0 < k < 32
  {
    State(Xor(Add(t.b, Rot(t.c, k)), t.c), t.c, t.a)
  }

  function Unmix(t: State): State {
    MixBack(MixBack(MixBack(MixBack(MixBack(MixBack(t, 4), 19), 16), 8), 6), 4)
  }

  function Unfinal(t: State): State {
    var s := FinalBack(FinalBack(FinalBack(FinalBack(FinalBack(FinalBack(FinalBack(
      State(t.a, t.c, t.b), 24), 14), 4), 16), 25), 11), 14);
    State(s.c, s.b, s.a)
  }

  lemma SubUndoesAdd(x: word, y: word)
    ensures Sub(Add(x, y), y) == x
  {
    assert Sub(x + y, y) == x;
  }

  lemma AddUndoesSub(x: word, y: word)
    ensures Add(Sub(x, y), y) == x
  {
    assert Add(x - y, y) == x;
  }

  lemma XorUndoesXor(x: word, y: word)
    ensures Xor(Xor(x, y), y) == x
  {
    assert Xor(x ^ y, y) == x;
  }

  lemma AddZeroAndSwap(x: word, y: word)
    ensures Add(x, 0) == x && Add(x, y) == Add(y, x)
  {
  }

  lemma WordLaws(x: word, y: word)
    ensures Sub(Add(x, y), y) == x
    ensures Add(Sub(x, y), y) == x
    ensures Xor(Xor(x, y), y) == x
    ensures Add(x, 0) == x
    ensures Add(x, y) == Add(y, x)
  {
    hide Add, Sub, Xor;
    SubUndoesAdd(x, y);
    AddUndoesSub(x, y);
    XorUndoesXor(x, y);
    AddZeroAndSwap(x, y);
  }

  lemma MixStepInverse(s: State, k: word)
    requires 0 < k < 32
    ensures MixBack(MixStep(s, k), k) == s && MixStep(MixBack(s, k), k) == s
  {
    WordLaws(s.c, s.b);
    WordLaws(Sub(s.a, s.c), Rot(s.c, k));
    WordLaws(s.a, s.c);
    var c := Sub(s.b, s.a);
    WordLaws(Xor(s.c, Rot(c, k)), c);
    WordLaws(s.c, Rot(c, k));
    WordLaws(s.b, s.a);
  }

  lemma FinalStepInverse(s: State, k: word)
    requires 0 < k < 32
    ensures FinalBack(FinalStep(s, k), k) == s && FinalStep(FinalBack(s, k), k) == s
  {
    WordLaws(Xor(s.a, s.b), Rot(s.b, k));
    WordLaws(s.a, s.b);
    WordLaws(s.b, Rot(s.c, k));
    WordLaws(Add(s.b, Rot(s.c, k)), s.c);
  }

  lemma MixBijective(s: State)
    ensures Unmix(Mix(s)) == s && Mix(Unmix(s)) == s
  {
    var s1 := MixStep(s, 4);    MixStepInverse(s, 4);
    var s2 := MixStep(s1, 6);   MixStepInverse(s1, 6);
    var s3 := MixStep(s2, 8);   MixStepInverse(s2, 8);
    var s4 := MixStep(s3, 16);  MixStepInverse(s3, 16);
    var s5 := MixStep(s4, 19);  MixStepInverse(s4, 19);
    MixStepInverse(s5, 4);
    var t1 := MixBack(s, 4);    MixStepInverse(s, 4);
    var t2 := MixBack(t1, 19);  MixStepInverse(t1, 19);
    var t3 := MixBack(t2, 16);  MixStepInverse(t2, 16);
    var t4 := MixBack(t3, 8);   MixStepInverse(t3, 8);
    var t5 := MixBack(t4, 6);   MixStepInverse(t4, 6);
    MixStepInverse(t5, 4);
  }

  lemma FinalBijective(s: State)
    ensures Unfinal(Final(s)) == s && Final(Unfinal(s)) == s
  {
    var s0 := State(s.c, s.b, s.a);
    var s1 := FinalStep(s0, 14);  FinalStepInverse(s0, 14);
    var s2 := FinalStep(s1, 11);  FinalStepInverse(s1, 11);
    var s3 := FinalStep(s2, 25);  FinalStepInverse(s2, 25);
    var s4 := FinalStep(s3, 16);  FinalStepInverse(s3, 16);
    var s5 := FinalStep(s4, 4);   FinalStepInverse(s4, 4);
    var s6 := FinalStep(s5, 14);  FinalStepInverse(s5, 14);
    FinalStepInverse(s6, 24);
    var t0 := State(s.a, s.c, s.b);
    var t1 := FinalBack(t0, 24);  FinalStepInverse(t0, 24);
    var t2 := FinalBack(t1, 14);  FinalStepInverse(t1, 14);
    var t3 := FinalBack(t2, 4);   FinalStepInverse(t2, 4);
    var t4 := FinalBack(t3, 16);  FinalStepInverse(t3, 16);
    var t5 := FinalBack(t4, 25);  FinalStepInverse(t4, 25);
    var t6 := FinalBack(t5, 11);  FinalStepInverse(t5, 11);
    FinalStepInverse(t6, 14);
  }

  // ---------------------------------------------------------------- the function of the key

  /** The byte of a block at i; a short last block counts as padded with zeros. */
  function At(block: seq<octet>, i: nat): octet {
    if i < |block| then block[i] else 0
  }

  function PadWord(block: seq<octet>, i: nat): word {
    Le32(At(block, i), At(block, i + 1), At(block, i + 2), At(block, i + 3))
  }

  function Absorb(s: State, block: seq<octet>): State {
    State(Add(s.a, PadWord(block, 0)), Add(s.b, PadWord(block, 4)), Add(s.c, PadWord(block, 8)))
  }

  /** The state after the whole key: mix after every block but the last, final after that one. */
  function Rounds(s: State, key: seq<octet>): State
    decreases |key|
  {
    if |key| == 0 then s
    else if |key| <= 12 then Final(Absorb(s, key))
    else Rounds(Mix(Absorb(s, key[..12])), key[12..])
  }

  /** A number cast to uint32_t. */
  function Cast(n: nat): word {
    if n == 0 then 0 else Add(Cast(n - 1), 1)
  }

  function InitWord(length: nat, initval: word): word {
    Add(Add(0xdeadbeef, Cast(length)), initval)
  }

  function HashState(key: seq<octet>, initval: word): State {
    var w := InitWord(|key|, initval);
    Rounds(State(w, w, w), key)
  }

  function HashOf(key: seq<octet>, initval: word): word {
    HashState(key, initval).c
  }

  // ---------------------------------------------------------------- injectivity

  lemma {:induction false} Le32Injective(b0: octet, b1: octet, b2: octet, b3: octet,
                                         c0: octet, c1: octet, c2: octet, c3: octet)
    requires Le32(b0, b1, b2, b3) == Le32(c0, c1, c2, c3)
    ensures b0 == c0 && b1 == c1 && b2 == c2 && b3 == c3
  {
    Le32Bytes(b0, b1, b2, b3);
    Le32Bytes(c0, c1, c2, c3);
  }

  function ByteOf(w: word, k: word): octet
    requires k <= 24
  {
    ((w >> k) & 0xff) as octet
  }

  lemma Le32Bytes(b0: octet, b1: octet, b2: octet, b3: octet)
    ensures var w := Le32(b0, b1, b2, b3);
            ByteOf(w, 0) == b0 && ByteOf(w, 8) == b1 && ByteOf(w, 16) == b2 && ByteOf(w, 24) == b3
  {
    var w := (b0 as word) | ((b1 as word) << 8) | ((b2 as word) << 16) | ((b3 as word) << 24);
    assert ByteOf(w, 0) == b0;
  }

  lemma AbsorbInjective(s: State, x: seq<octet>, y: seq<octet>)
    requires |x| == |y| <= 12 && x != y
    ensures Absorb(s, x) != Absorb(s, y)
  {
    if Absorb(s, x) == Absorb(s, y) {
      AddInjective(s.a, PadWord(x, 0), PadWord(y, 0));
      AddInjective(s.b, PadWord(x, 4), PadWord(y, 4));
      AddInjective(s.c, PadWord(x, 8), PadWord(y, 8));
      Le32Injective(At(x, 0), At(x, 1), At(x, 2), At(x, 3), At(y, 0), At(y, 1), At(y, 2), At(y, 3));
      Le32Injective(At(x, 4), At(x, 5), At(x, 6), At(x, 7), At(y, 4), At(y, 5), At(y, 6), At(y, 7));
      Le32Injective(At(x, 8), At(x, 9), At(x, 10), At(x, 11), At(y, 8), At(y, 9), At(y, 10), At(y, 11));
      forall i | 0 <= i < |x| ensures x[i] == y[i] {
        assert At(x, i) == At(y, i);
      }
      assert false;
    }
  }

  lemma AddInjective(w: word, x: word, y: word)
    ensures Add(w, x) == Add(w, y) ==> x == y
  {
    WordLaws(x, w);
    WordLaws(y, w);
    WordLaws(w, x);
    WordLaws(w, y);
  }

  lemma AbsorbKeepsApart(s: State, t: State, block: seq<octet>)
    requires s != t
    ensures Absorb(s, block) != Absorb(t, block)
  {
    WordLaws(s.a, PadWord(block, 0));
    WordLaws(t.a, PadWord(block, 0));
    WordLaws(s.b, PadWord(block, 4));
    WordLaws(t.b, PadWord(block, 4));
    WordLaws(s.c, PadWord(block, 8));
    WordLaws(t.c, PadWord(block, 8));
  }

  /** Information in the state survives any number of blocks. */
  lemma {:induction false} RoundsKeepApart(s: State, t: State, key: seq<octet>)
    requires s != t
    ensures Rounds(s, key) != Rounds(t, key)
    decreases |key|
  {
    if 0 < |key| <= 12 {
      AbsorbKeepsApart(s, t, key);
      FinalBijective(Absorb(s, key));
      FinalBijective(Absorb(t, key));
    } else if |key| > 12 {
      var block := key[..12];
      AbsorbKeepsApart(s, t, block);
      MixBijective(Absorb(s, block));
      MixBijective(Absorb(t, block));
      RoundsKeepApart(Mix(Absorb(s, block)), Mix(Absorb(t, block)), key[12..]);
    }
  }

  /** x and y agree outside the block of 12 (or fewer) bytes that starts at 12 * j. */
  ghost predicate DifferInBlock(x: seq<octet>, y: seq<octet>, j: nat) {
    && |x| == |y|
    && x != y
    && forall i :: 0 <= i < |x| && !(12 * j <= i < 12 * j + 12) ==> x[i] == y[i]
  }

  lemma {:induction false} BlockDifferenceSurvives(s: State, x: seq<octet>, y: seq<octet>, j: nat)
    requires DifferInBlock(x, y, j)
    ensures Rounds(s, x) != Rounds(s, y)
    decreases |x|
  {
    if |x| <= 12 {
      AbsorbInjective(s, x, y);
      FinalBijective(Absorb(s, x));
      FinalBijective(Absorb(s, y));
    } else if j == 0 {
      var bx, cy := x[..12], y[..12];
      assert x[12..] == y[12..];
      assert bx != cy by { assert x == bx + x[12..] && y == cy + y[12..]; }
      AbsorbInjective(s, bx, cy);
      MixBijective(Absorb(s, bx));
      MixBijective(Absorb(s, cy));
      RoundsKeepApart(Mix(Absorb(s, bx)), Mix(Absorb(s, cy)), x[12..]);
    } else {
      assert x[..12] == y[..12];
      assert x[12..] != y[12..] by { assert x == x[..12] + x[12..] && y == y[..12] + y[12..]; }
      BlockDifferenceSurvives(Mix(Absorb(s, x[..12])), x[12..], y[12..], j - 1);
    }
  }

  /** Keys that differ in exactly one block never reach the same final (a,b,c). */
  lemma OneBlockInjective(x: seq<octet>, y: seq<octet>, j: nat, initval: word)
    requires DifferInBlock(x, y, j)
    ensures HashState(x, initval) != HashState(y, initval)
  {
    var w := InitWord(|x|, initval);
    BlockDifferenceSurvives(State(w, w, w), x, y, j);
  }

  // ---------------------------------------------------------------- the length, and one key worked out

  lemma {:induction false} CastOfSum(m: nat, n: nat)
    ensures Cast(m + n) == Add(Cast(m), Cast(n))
  {
    if n == 0 {
      WordLaws(Cast(m), 0);
    } else {
      CastOfSum(m, n - 1);
      AddAssociative(Cast(m), Cast(n - 1), 1);
    }
  }

  lemma CastOfSmall()
    ensures Cast(1) == 1 && Cast(2) == 2 && Cast(3) == 3 && Cast(4) == 4 && Cast(5) == 5 && Cast(6) == 6
    ensures Cast(7) == 7 && Cast(8) == 8 && Cast(9) == 9 && Cast(10) == 10 && Cast(11) == 11
  {
    assert Cast(0) == 0;
  }

  /** Every length counts: the words that the state starts from differ. */
  lemma InitWordsDiffer(m: nat, n: nat, initval: word)
    requires m < n < m + 12
    ensures InitWord(m, initval) != InitWord(n, initval)
  {
    CastOfSum(m, n - m);
    CastOfSmall();
    hide Add, Cast;
    var x, y := Cast(m), Cast(n);
    WordLaws(x, 0);
    AddInjective(x, 0, Cast(n - m));
    AddInjective(0xdeadbeef, x, y);
    WordLaws(Add(0xdeadbeef, x), initval);
    WordLaws(Add(0xdeadbeef, y), initval);
  }

  /** y is x with zero bytes behind it, within the same last block. */
  ghost predicate ZeroPadded(x: seq<octet>, y: seq<octet>) {
    && 0 < |x| < |y| && (|x| - 1) / 12 == (|y| - 1) / 12
    && x <= y && forall i :: |x| <= i < |y| ==> y[i] == 0
  }

  /** The blocks alone do not tell such keys apart. */
  lemma {:induction false} RoundsOfPadded(s: State, x: seq<octet>, y: seq<octet>)
    requires ZeroPadded(x, y)
    ensures Rounds(s, x) == Rounds(s, y)
    decreases |x|
  {
    hide Mix, Final, Le32, Add;
    if |y| <= 12 {
      assert forall i: nat :: At(x, i) == At(y, i);
    } else {
      assert |x| > 12 && x[..12] == y[..12];
      assert x[12..] <= y[12..];
      RoundsOfPadded(Mix(Absorb(s, x[..12])), x[12..], y[12..]);
    }
  }

  /** The length does: a key with zero bytes added to its last block never reaches the same (a,b,c). */
  lemma LengthTellsPaddedApart(x: seq<octet>, y: seq<octet>, initval: word)
    requires ZeroPadded(x, y)
    ensures HashState(x, initval) != HashState(y, initval)
  {
    var v, w := InitWord(|x|, initval), InitWord(|y|, initval);
    hide InitWord, Rounds;
    InitWordsDiffer(|x|, |y|, initval);
    RoundsKeepApart(State(v, v, v), State(w, w, w), x);
    RoundsOfPadded(State(w, w, w), x, y);
  }

  /** And so does every initial value. */
  lemma InitvalTellsApart(key: seq<octet>, v: word, w: word)
    requires v != w
    ensures HashState(key, v) != HashState(key, w)
  {
    var x, y := InitWord(|key|, v), InitWord(|key|, w);
    AddInjective(Add(0xdeadbeef, Cast(|key|)), v, w);
    hide Rounds;
    RoundsKeepApart(State(x, x, x), State(y, y, y), key);
  }

  lemma HashOfNothing(initval: word)
    ensures HashOf([], initval) == 0xdeadbeef + initval
  {
    WordLaws(0xdeadbeef, 0);
  }

  // "Four score and seven years ago", a key of three blocks.
  const FOUR_SCORE: seq<octet> := [70, 111, 117, 114, 32, 115, 99, 111, 114, 101, 32, 97, 110, 100, 32, 115, 101, 118, 101, 110, 32, 121, 101, 97, 114, 115, 32, 97, 103, 111]
  const SCORE_AND: seq<octet> := [110, 100, 32, 115, 101, 118, 101, 110, 32, 121, 101, 97, 114, 115, 32, 97, 103, 111]
  const YEARS_AGO: seq<octet> := [114, 115, 32, 97, 103, 111]

  lemma FirstBlockOf()
    ensures FOUR_SCORE[..12] == [70, 111, 117, 114, 32, 115, 99, 111, 114, 101, 32, 97] && FOUR_SCORE[12..] == SCORE_AND
    ensures SCORE_AND[..12] == [110, 100, 32, 115, 101, 118, 101, 110, 32, 121, 101, 97] && SCORE_AND[12..] == YEARS_AGO
  {
  }

  lemma LengthWord()
    ensures InitWord(|FOUR_SCORE|, 0) == 0xdeadbf0d
  {
    CastOfSmall();
    CastOfSum(10, 10);
    CastOfSum(20, 10);
    hide Cast;
  }

  lemma RoundsOnce(s: State, key: seq<octet>)
    requires |key| > 0
    ensures Rounds(s, key) == if |key| <= 12 then Final(Absorb(s, key)) else Rounds(Mix(Absorb(s, key[..12])), key[12..])
  {
  }

  lemma FirstAbsorbed()
    ensures Absorb(State(0xdeadbf0d, 0xdeadbf0d, 0xdeadbf0d), [70, 111, 117, 114, 32, 115, 99, 111, 114, 101, 32, 97]) == State(0x51232e53, 0x4e11322d, 0x3fce247f)
  {
  }

  lemma FirstMixed()
    ensures Mix(State(0x51232e53, 0x4e11322d, 0x3fce247f)) == State(0xf859ad7a, 0x04bc57ae, 0x40dddd7e)
  {
    assert MixStep(State(0x51232e53, 0x4e11322d, 0x3fce247f), 4) == State(0x4e11322d, 0x8ddf56ac, 0xedb74e27);
    assert MixStep(State(0x4e11322d, 0x8ddf56ac, 0xedb74e27), 6) == State(0x8ddf56ac, 0x7b96a4d3, 0x0d8a6dfd);
    assert MixStep(State(0x8ddf56ac, 0x7b96a4d3, 0x0d8a6dfd), 8) == State(0x7b96a4d3, 0x892112d0, 0x0a3915a2);
    assert MixStep(State(0x7b96a4d3, 0x892112d0, 0x0a3915a2), 16) == State(0x892112d0, 0x935a2872, 0x64ff8508);
    assert MixStep(State(0x892112d0, 0x935a2872, 0x64ff8508), 19) == State(0x935a2872, 0xf859ad7a, 0x0c62aa34);
    assert MixStep(State(0x935a2872, 0xf859ad7a, 0x0c62aa34), 4) == State(0xf859ad7a, 0x04bc57ae, 0x40dddd7e);
  }

  lemma SecondAbsorbed()
    ensures Absorb(State(0xf859ad7a, 0x04bc57ae, 0x40dddd7e), [110, 100, 32, 115, 101, 118, 101, 110, 32, 121, 101, 97]) == State(0x6b7a11e8, 0x7321ce13, 0xa243569e)
  {
  }

  lemma SecondMixed()
    ensures Mix(State(0x6b7a11e8, 0x7321ce13, 0xa243569e)) == State(0x336aded2, 0x059f2642, 0xbd02ebd5)
  {
    assert MixStep(State(0x6b7a11e8, 0x7321ce13, 0xa243569e), 4) == State(0x7321ce13, 0x156524b1, 0xed03d2a0);
    assert MixStep(State(0x7321ce13, 0x156524b1, 0xed03d2a0), 6) == State(0x156524b1, 0x0268f751, 0xc6e95348);
    assert MixStep(State(0x156524b1, 0x0268f751, 0xc6e95348), 8) == State(0x0268f751, 0xc9524a99, 0xa72899af);
    assert MixStep(State(0x0268f751, 0xc9524a99, 0xa72899af), 16) == State(0xc9524a99, 0x707ae448, 0xc2effa8a);
    assert MixStep(State(0xc9524a99, 0x707ae448, 0xc2effa8a), 19) == State(0x707ae448, 0x336aded2, 0xd2344770);
    assert MixStep(State(0x707ae448, 0x336aded2, 0xd2344770), 4) == State(0x336aded2, 0x059f2642, 0xbd02ebd5);
  }

  lemma ThirdAbsorbed()
    ensures Absorb(State(0x336aded2, 0x059f2642, 0xbd02ebd5), YEARS_AGO) == State(0x948b5244, 0x059f95a9, 0xbd02ebd5)
  {
  }

  lemma ThirdFinal()
    ensures Final(State(0x948b5244, 0x059f95a9, 0xbd02ebd5)) == State(0x9a837816, 0xce7226e6, 0x17770551)
  {
    assert FinalStep(State(0xbd02ebd5, 0x059f95a9, 0x948b5244), 14) == State(0x948b5244, 0xd3333d15, 0x059f95a9);
    assert FinalStep(State(0x948b5244, 0xd3333d15, 0x059f95a9), 11) == State(0x059f95a9, 0xadcfc0b8, 0xd3333d15);
    assert FinalStep(State(0x059f95a9, 0xadcfc0b8, 0xd3333d15), 25) == State(0xd3333d15, 0x36f4b590, 0xadcfc0b8);
    assert FinalStep(State(0xd3333d15, 0x36f4b590, 0xadcfc0b8), 16) == State(0xadcfc0b8, 0x30375191, 0x36f4b590);
    assert FinalStep(State(0xadcfc0b8, 0x30375191, 0x36f4b590), 4) == State(0x36f4b590, 0x9a837816, 0x30375191);
    assert FinalStep(State(0x36f4b590, 0x9a837816, 0x30375191), 14) == State(0x30375191, 0xce7226e6, 0x9a837816);
    assert FinalStep(State(0x30375191, 0xce7226e6, 0x9a837816), 24) == State(0x9a837816, 0x17770551, 0xce7226e6);
  }

  /** One key worked out, block by block: it fixes every rotation, the order of the words and the start. */
  lemma HashOfFourScore()
    ensures HashOf(FOUR_SCORE, 0) == 0x17770551
  {
    LengthWord();
    FirstBlockOf();
    RoundsOnce(State(0xdeadbf0d, 0xdeadbf0d, 0xdeadbf0d), FOUR_SCORE);
    RoundsOnce(State(0xf859ad7a, 0x04bc57ae, 0x40dddd7e), SCORE_AND);
    RoundsOnce(State(0x336aded2, 0x059f2642, 0xbd02ebd5), YEARS_AGO);
    FirstAbsorbed();
    FirstMixed();
    SecondAbsorbed();
    SecondMixed();
    ThirdAbsorbed();
    ThirdFinal();
    hide Absorb, Mix, Final, InitWord, Rounds;
  }

  // ---------------------------------------------------------------- the macros, in place

  method MixMacro(s: State) returns (t: State)
    ensures t == Mix(s)
  {
    var a, b, c := s.a, s.b, s.c;
    a := Sub(a, c);  a := Xor(a, Rot(c, 4));   c := Add(c, b);
    b := Sub(b, a);  b := Xor(b, Rot(a, 6));   a := Add(a, c);
    c := Sub(c, b);  c := Xor(c, Rot(b, 8));   b := Add(b, a);
    a := Sub(a, c);  a := Xor(a, Rot(c, 16));  c := Add(c, b);
    b := Sub(b, a);  b := Xor(b, Rot(a, 19));  a := Add(a, c);
    c := Sub(c, b);  c := Xor(c, Rot(b, 4));   b := Add(b, a);
    t := State(a, b, c);
  }

  method FinalMacro(s: State) returns (t: State)
    ensures t == Final(s)
  {
    var a, b, c := s.a, s.b, s.c;
    c := Xor(c, b);  c := Sub(c, Rot(b, 14));
    a := Xor(a, c);  a := Sub(a, Rot(c, 11));
    b := Xor(b, a);  b := Sub(b, Rot(a, 25));
    c := Xor(c, b);  c := Sub(c, Rot(b, 16));
    a := Xor(a, c);  a := Sub(a, Rot(c, 4));
    b := Xor(b, a);  b := Sub(b, Rot(a, 14));
    c := Xor(c, b);  c := Sub(c, Rot(b, 24));
    t := State(a, b, c);
  }

  // ---------------------------------------------------------------- reading words from memory

  function Load32(mem: seq<octet>, p: nat): word
    requires p + 4 <= |mem|
  {
    Le32(mem[p], mem[p + 1], mem[p + 2], mem[p + 3])
  }

  function Load16(mem: seq<octet>, p: nat): word
    requires p + 2 <= |mem|
  {
    Le16(mem[p], mem[p + 1])
  }

  function Load16Shl16(mem: seq<octet>, p: nat): word
    requires p + 2 <= |mem|
  {
    Le16Shl16(mem[p], mem[p + 1])
  }

  /** The masks of the aligned path cut away exactly the bytes past the key's end. */
  lemma MaskLaws(b0: octet, b1: octet, b2: octet, b3: octet)
    ensures And(Le32(b0, b1, b2, b3), 0xffffff) == Le32(b0, b1, b2, 0)
    ensures And(Le32(b0, b1, b2, b3), 0xffff) == Le32(b0, b1, 0, 0)
    ensures And(Le32(b0, b1, b2, b3), 0xff) == Le32(b0, 0, 0, 0)
  {
    var w := (b0 as word) | ((b1 as word) << 8) | ((b2 as word) << 16) | ((b3 as word) << 24);
    assert And(w, 0xffffff) == Le32(b0, b1, b2, 0);
    assert And(w, 0xffff) == Le32(b0, b1, 0, 0);
    assert And(w, 0xff) == Le32(b0, 0, 0, 0);
  }

  lemma AddAssociative(x: word, y: word, z: word)
    ensures Add(Add(x, y), z) == Add(x, Add(y, z))
  {
    assert Add(x + y, z) == Add(x, y + z);
  }

  // A word is the sum of its shifted bytes; one lemma per sum keeps the bit vectors apart.
  lemma SumOfTwo(b0: octet, b1: octet)
    ensures Add(Byte(b0), Shl8(b1)) == Le16(b0, b1)
  {
    assert Add(b0 as word, (b1 as word) << 8) == (b0 as word) | ((b1 as word) << 8);
  }

  lemma SumOfThree(b0: octet, b1: octet, b2: octet)
    ensures Add(Le16(b0, b1), Shl16(b2)) == Le32(b0, b1, b2, 0)
  {
    assert Add((b0 as word) | ((b1 as word) << 8), (b2 as word) << 16)
        == (b0 as word) | ((b1 as word) << 8) | ((b2 as word) << 16);
  }

  lemma SumOfFour(b0: octet, b1: octet, b2: octet, b3: octet)
    ensures Add(Le32(b0, b1, b2, 0), Shl24(b3)) == Le32(b0, b1, b2, b3)
  {
    assert Add((b0 as word) | ((b1 as word) << 8) | ((b2 as word) << 16), (b3 as word) << 24)
        == (b0 as word) | ((b1 as word) << 8) | ((b2 as word) << 16) | ((b3 as word) << 24);
  }

  lemma SumOfHalves(b0: octet, b1: octet, b2: octet, b3: octet)
    ensures Add(Le16(b0, b1), Le16Shl16(b2, b3)) == Le32(b0, b1, b2, b3)
  {
    assert Add((b0 as word) | ((b1 as word) << 8), ((b2 as word) | ((b3 as word) << 8)) << 16)
        == (b0 as word) | ((b1 as word) << 8) | ((b2 as word) << 16) | ((b3 as word) << 24);
  }

  lemma PaddedWords(b0: octet, b1: octet)
    ensures Byte(b0) == Le32(b0, 0, 0, 0)
    ensures Le16(b0, b1) == Le32(b0, b1, 0, 0)
    ensures Le32(0, 0, 0, 0) == 0
  {
  }

  /** Adding the bytes of a word to a word x one at a time adds the whole. */
  lemma ByteSumLaws(x: word, b0: octet, b1: octet, b2: octet, b3: octet)
    ensures Add(Add(Add(Add(x, Byte(b0)), Shl8(b1)), Shl16(b2)), Shl24(b3)) == Add(x, Le32(b0, b1, b2, b3))
    ensures Add(Add(Add(Add(x, Shl24(b3)), Shl16(b2)), Shl8(b1)), Byte(b0)) == Add(x, Le32(b0, b1, b2, b3))
    ensures Add(Add(Add(x, Shl16(b2)), Shl8(b1)), Byte(b0)) == Add(x, Le32(b0, b1, b2, 0))
    ensures Add(Add(x, Shl8(b1)), Byte(b0)) == Add(x, Le32(b0, b1, 0, 0))
    ensures Add(Add(x, Shl16(b2)), Le16(b0, b1)) == Add(x, Le32(b0, b1, b2, 0))
  {
    SumOfTwo(b0, b1);
    SumOfThree(b0, b1, b2);
    SumOfFour(b0, b1, b2, b3);
    PaddedWords(b0, b1);
    WordLaws(Byte(b0), Shl8(b1));
    WordLaws(Le16(b0, b1), Shl16(b2));
    WordLaws(Le32(b0, b1, b2, 0), Shl24(b3));
    AddAssociative(x, Byte(b0), Shl8(b1));
    AddAssociative(x, Le16(b0, b1), Shl16(b2));
    AddAssociative(x, Le32(b0, b1, b2, 0), Shl24(b3));
    var y, z := Add(x, Shl24(b3)), Add(x, Shl16(b2));
    AddAssociative(x, Shl8(b1), Byte(b0));
    AddAssociative(z, Shl8(b1), Byte(b0));
    AddAssociative(x, Shl16(b2), Le16(b0, b1));
    AddAssociative(Add(y, Shl16(b2)), Shl8(b1), Byte(b0));
    AddAssociative(y, Shl16(b2), Le16(b0, b1));
    AddAssociative(x, Shl24(b3), Le32(b0, b1, b2, 0));
  }

  // ---------------------------------------------------------------- hash()

  /** How hash() reads the key: 32-bit loads, with masks or (under VALGRIND) bytes for the tail,
      16-bit loads, or single bytes. */
  datatype Path = Masked | Valgrind | Halves | Bytes

  /** The word at q of which the key holds only the first n bytes; the rest count as zero. */
  function PartWord(mem: seq<octet>, q: nat, n: nat): word
    requires q + n <= |mem|
  {
    Le32(if n > 0 then mem[q] else 0, if n > 1 then mem[q + 1] else 0,
         if n > 2 then mem[q + 2] else 0, if n > 3 then mem[q + 3] else 0)
  }

  /** How many of the four bytes that start at offset i lie within the first length bytes. */
  function Within(length: nat, i: nat): nat {
    if length <= i then 0 else if length - i < 4 then length - i else 4
  }

  /** What the loop body of each path adds to one of (a,b,c) for a whole word. */
  method AddWord(path: Path, mem: seq<octet>, q: nat, x: word) returns (y: word)
    requires q + 4 <= |mem|
    ensures y == Add(x, PartWord(mem, q, 4))
  {
    match path
    case Masked | Valgrind =>
      y := Add(x, Load32(mem, q));
    case Halves =>
      SumOfHalves(mem[q], mem[q + 1], mem[q + 2], mem[q + 3]);
      y := Add(x, Add(Load16(mem, q), Load16Shl16(mem, q + 2)));
    case Bytes =>
      ByteSumLaws(x, mem[q], mem[q + 1], mem[q + 2], mem[q + 3]);
      y := Add(x, Byte(mem[q]));
      y := Add(y, Shl8(mem[q + 1]));
      y := Add(y, Shl16(mem[q + 2]));
      y := Add(y, Shl24(mem[q + 3]));
  }

  /**
   What the switch of each path adds to one of (a,b,c) when the key holds n of the four
   bytes of its word: the cases 12 .. 9 for c, 8 .. 5 for b and 4 .. 1 for a alike.
   */
  method AddLastWord(path: Path, mem: seq<octet>, q: nat, n: nat, x: word) returns (y: word)
    requires 1 <= n <= 4 && q + n <= |mem|
    requires path == Masked ==> q + 4 <= |mem|
    ensures y == Add(x, PartWord(mem, q, n))
  {
    y := x;
    if n == 4 && path != Bytes {
      y := AddWord(path, mem, q, x);
      return;
    }
    PaddedWords(mem[q], if n > 1 then mem[q + 1] else 0);
    match path
    case Masked =>
      MaskLaws(mem[q], mem[q + 1], mem[q + 2], mem[q + 3]);
      y := Add(y, And(Load32(mem, q), if n == 3 then 0xffffff else if n == 2 then 0xffff else 0xff));
    case Halves =>
      if n == 3 {
        ByteSumLaws(x, mem[q], mem[q + 1], mem[q + 2], 0);
        y := Add(y, Shl16(mem[q + 2]));
      }
      y := Add(y, if n >= 2 then Load16(mem, q) else Byte(mem[q]));
    case Valgrind =>
      ByteSumLaws(x, mem[q], if n > 1 then mem[q + 1] else 0, if n > 2 then mem[q + 2] else 0, 0);
      if n >= 3 { y := Add(y, Shl16(mem[q + 2])); }
      if n >= 2 { y := Add(y, Shl8(mem[q + 1])); }
      y := Add(y, Byte(mem[q]));
    case Bytes =>
      ByteSumLaws(x, mem[q], if n > 1 then mem[q + 1] else 0, if n > 2 then mem[q + 2] else 0, if n > 3 then mem[q + 3] else 0);
      if n >= 4 { y := Add(y, Shl24(mem[q + 3])); }
      if n >= 3 { y := Add(y, Shl16(mem[q + 2])); }
      if n >= 2 { y := Add(y, Shl8(mem[q + 1])); }
      y := Add(y, Byte(mem[q]));
  }

  /** The words of the zero-padded block at k, as read from memory. */
  lemma BlockWord(mem: seq<octet>, k: nat, length: nat, i: nat)
    requires i < length <= 12 && k + length <= |mem|
    ensures PadWord(mem[k..k + length], i) == PartWord(mem, k + i, Within(length, i))
  {
  }

  method AddBlock(path: Path, mem: seq<octet>, k: nat, s: State) returns (t: State)
    requires k + 12 <= |mem|
    ensures t == Absorb(s, mem[k..k + 12])
  {
    var a := AddWord(path, mem, k, s.a);
    var b := AddWord(path, mem, k + 4, s.b);
    var c := AddWord(path, mem, k + 8, s.c);
    BlockWord(mem, k, 12, 0);
    BlockWord(mem, k, 12, 4);
    BlockWord(mem, k, 12, 8);
    t := State(a, b, c);
  }

  method AddLastBlock(path: Path, mem: seq<octet>, k: nat, length: nat, s: State) returns (t: State)
    requires 1 <= length <= 12 && k + length <= |mem|
    requires path == Masked ==> k % 4 == 0 && |mem| % 4 == 0
    ensures t == Absorb(s, mem[k..k + length])
  {
    hide Add, Le32, PartWord, Byte;
    var a, b, c := s.a, s.b, s.c;
    PaddedWords(0, 0);
    if length > 8 {
      BlockWord(mem, k, length, 8);
      c := AddLastWord(path, mem, k + 8, Within(length, 8), c);
    } else {
      WordLaws(c, 0);
    }
    if length > 4 {
      BlockWord(mem, k, length, 4);
      b := AddLastWord(path, mem, k + 4, Within(length, 4), b);
    } else {
      WordLaws(b, 0);
    }
    BlockWord(mem, k, length, 0);
    a := AddLastWord(path, mem, k, Within(length, 0), a);
    t := State(a, b, c);
  }

  lemma RoundsUnfolded(s: State, mem: seq<octet>, k: nat, left: nat)
    requires k + left <= |mem|
    ensures left > 12 ==>
      Rounds(s, mem[k..k + left]) == Rounds(Mix(Absorb(s, mem[k..k + 12])), mem[k + 12..k + left])
    ensures 1 <= left <= 12 ==> Rounds(s, mem[k..k + left]) == Final(Absorb(s, mem[k..k + left]))
    ensures left == 0 ==> Rounds(s, mem[k..k + left]) == s
  {
    if left > 12 {
      assert mem[k..k + left][..12] == mem[k..k + 12];
      assert mem[k..k + left][12..] == mem[k + 12..k + left];
    }
  }

  /** The loop over all blocks but the last. */
  method HashBlocks(path: Path, mem: seq<octet>, base: nat, length: nat, init: State)
    returns (s: State, k: nat, left: nat)
    requires base + length <= |mem| && (path == Masked ==> base % 4 == 0)
    ensures left <= 12 && k + left == base + length && (path == Masked ==> k % 4 == 0)
    ensures Rounds(s, mem[k..k + left]) == Rounds(init, mem[base..base + length])
  {
    hide *;
    s, k, left := init, base, length;
    ghost var goal := Rounds(init, mem[base..base + length]);
    while left > 12
      invariant k + left == base + length && (path == Masked ==> k % 4 == 0)
      invariant Rounds(s, mem[k..k + left]) == goal
    {
      RoundsUnfolded(s, mem, k, left);
      s := AddBlock(path, mem, k, s);
      s := MixMacro(s);
      k, left := k + 12, left - 12;
    }
  }

  /**
   hash(). Memory is a sequence of bytes and the key its bytes base .. base + length; k is
   the read pointer. The masked path may read past the key, though not past memory, which
   ends on a word boundary. The path depends on the alignment of the key and on the build;
   the result depends on the key's bytes alone.
   */
  method Hash(mem: seq<octet>, base: nat, length: nat, initval: word, valgrind: bool) returns (h: word)
    requires base + length <= |mem| && |mem| % 4 == 0
    ensures h == HashOf(mem[base..base + length], initval)
  {
    hide Mix, Final, Absorb, InitWord, PadWord, Rounds;
    var path := if base % 4 == 0 then if valgrind then Valgrind else Masked
                else if base % 2 == 0 then Halves else Bytes;
    var w := InitWord(length, initval);
    var s, k, left := HashBlocks(path, mem, base, length, State(w, w, w));
    RoundsUnfolded(s, mem, k, left);
    if left == 0 {
      return s.c;
    }
    s := AddLastBlock(path, mem, k, left, s);
    s := FinalMacro(s);
    h := s.c;
  }
}
