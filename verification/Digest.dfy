/** The header digest of emscripten/opfs-pool.js (cyrb53) and what it detects. */
module Digest {
  import opened Words

  /** The two running 32-bit accumulators. */
  datatype Hash = Hash(h1: Word, h2: Word)

  const SEED := Hash(0xdeadbeef, 0x41c6ce57)

  /** What every corpus that starts with a zero byte is given. */
  const FREE_DIGEST := Hash(0xfecc5f80, 0xaccec037)

  function Absorb(h: Hash, v: Byte): Hash {
    Hash(Imul(XorWord(h.h1, v), 2654435761), Imul(XorWord(h.h2, v), 1597334677))
  }

  function AbsorbAll(h: Hash, s: Bytes): Hash {
    if s == [] then h else Absorb(AbsorbAll(h, s[..|s| - 1]), s[|s| - 1])
  }

  function MixA(h: Word): Word {
    Imul(Xor(h, Shr(h, 16)), 2246822507)
  }

  function MixB(h: Word): Word {
    Imul(Xor(h, Shr(h, 13)), 3266489909)
  }

  /** The second line of the finalizer reads the h1 the first line wrote. */
  function Finish(h: Hash): Hash {
    var h1 := XorWord(MixA(h.h1), MixB(h.h2));
    Hash(h1, XorWord(MixA(h.h2), MixB(h1)))
  }

  function DigestOf(corpus: Bytes): Hash
    requires |corpus| > 0
  {
    if corpus[0] == 0 then FREE_DIGEST else Finish(AbsorbAll(SEED, corpus))
  }

  /** The loop of computeDigest. */
  method ComputeDigest(corpus: Bytes) returns (d: Hash)
    requires |corpus| > 0
    ensures d == DigestOf(corpus)
  {
    if corpus[0] == 0 {
      return FREE_DIGEST;
    }
    var h1, h2 := SEED.h1, SEED.h2;
    for i := 0 to |corpus|
      invariant Hash(h1, h2) == AbsorbAll(SEED, corpus[..i])
    {
      assert corpus[..i + 1][..i] == corpus[..i];
      h1 := Imul(XorWord(h1, corpus[i]), 2654435761);
      h2 := Imul(XorWord(h2, corpus[i]), 1597334677);
    }
    assert corpus[..|corpus|] == corpus;
    h1 := XorWord(Imul(Xor(h1, Shr(h1, 16)), 2246822507), Imul(Xor(h2, Shr(h2, 13)), 3266489909));
    h2 := XorWord(Imul(Xor(h2, Shr(h2, 16)), 2246822507), Imul(Xor(h1, Shr(h1, 13)), 3266489909));
    d := Hash(h1, h2);
  }

  /** The finalizer is injective on the pair: h2 can be recovered first, then h1. */
  lemma FinishInjective(a: Hash, b: Hash)
    requires Finish(a) == Finish(b)
    ensures a == b
  {
    XorCancel(MixA(a.h2), MixA(b.h2), MixB(Finish(a).h1));
    MixAInjective(a.h2, b.h2);
    XorCancel(MixA(a.h1), MixA(b.h1), MixB(a.h2));
    MixAInjective(a.h1, b.h1);
  }

  lemma MixAInjective(x: Word, y: Word)
    requires MixA(x) == MixA(y)
    ensures x == y
  {
    var p, q := Xor(x, Shr(x, 16)), Xor(y, Shr(y, 16));
    ShiftXorStaysAWord(x);
    ShiftXorStaysAWord(y);
    ImulInjective(p, q, 2246822507, 2781581891, 1455126516);
    ShiftXorInjective(x, y, 16);
  }

  lemma ShiftXorStaysAWord(x: Word)
    ensures Xor(x, Shr(x, 16)) < LIMIT
  {
    ShrShrinks(x, 16);
    XorStaysAWord(x, Shr(x, 16));
  }

  lemma {:induction false} ShrShrinks(a: nat, k: nat)
    ensures Shr(a, k) <= a
    decreases k
  {
    if k != 0 {
      ShrShrinks(a / 2, k - 1);
    }
  }

  /** One step of the loop loses neither the state nor the byte. */
  lemma AbsorbInjective(a: Hash, b: Hash, u: Byte, v: Byte)
    requires Absorb(a, u) == Absorb(b, v)
    ensures u == v ==> a == b
    ensures a == b ==> u == v
  {
    ImulInjective(XorWord(a.h1, u), XorWord(b.h1, v), 2654435761, 244002641, 150801925);
    ImulInjective(XorWord(a.h2, u), XorWord(b.h2, v), 1597334677, 851723965, 316763349);
    if u == v {
      XorCancel(a.h1, b.h1, u);
      XorCancel(a.h2, b.h2, u);
    }
    if a == b {
      XorSymmetric(a.h1, u);
      XorSymmetric(a.h1, v);
      XorCancel(u, v, a.h1);
    }
  }

  /** Two states that differ still differ after absorbing the same bytes. */
  lemma {:induction false} AbsorbAllInjective(a: Hash, b: Hash, s: Bytes)
    requires AbsorbAll(a, s) == AbsorbAll(b, s)
    ensures a == b
  {
    if s != [] {
      AbsorbInjective(AbsorbAll(a, s[..|s| - 1]), AbsorbAll(b, s[..|s| - 1]), s[|s| - 1], s[|s| - 1]);
      AbsorbAllInjective(a, b, s[..|s| - 1]);
    }
  }

  lemma {:induction false} AbsorbAllConcat(h: Hash, s: Bytes, t: Bytes)
    ensures AbsorbAll(h, s + t) == AbsorbAll(AbsorbAll(h, s), t)
    decreases |t|
  {
    if t == [] {
      assert s + t == s;
    } else {
      assert (s + t)[..|s + t| - 1] == s + t[..|t| - 1];
      AbsorbAllConcat(h, s, t[..|t| - 1]);
    }
  }

  /** Changing one byte of a corpus, first byte still non-zero, always changes its digest. */
  lemma SingleByteChangeDetected(c: Bytes, k: nat, v: Byte)
    requires k < |c| && c[k] != v
    requires c[0] != 0 && c[k := v][0] != 0
    ensures DigestOf(c) != DigestOf(c[k := v])
  {
    var c' := c[k := v];
    if DigestOf(c) == DigestOf(c') {
      FinishInjective(AbsorbAll(SEED, c), AbsorbAll(SEED, c'));
      SplitAt(c, k);
      SplitAt(c', k);
      assert c[..k] == c'[..k] && c[k + 1..] == c'[k + 1..];
      var before := AbsorbAll(SEED, c[..k]);
      AbsorbAllInjective(Absorb(before, c[k]), Absorb(before, v), c[k + 1..]);
      AbsorbInjective(before, before, c[k], v);
    }
  }

  lemma SplitAt(c: Bytes, k: nat)
    requires k < |c|
    ensures AbsorbAll(SEED, c) == AbsorbAll(Absorb(AbsorbAll(SEED, c[..k]), c[k]), c[k + 1..])
  {
    assert c == c[..k + 1] + c[k + 1..];
    AbsorbAllConcat(SEED, c[..k + 1], c[k + 1..]);
    assert c[..k + 1][..k] == c[..k];
  }
}
