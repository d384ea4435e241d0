/** The deterministic hasher of det_hash.rs: a multiplicative hash over
    64-bit words, and the builder that seeds it. */
module DetHashing {

  /** 2^64: `u64` arithmetic is taken modulo this. */
  const WORD: int := 0x1_0000_0000_0000_0000

  newtype u64 = x: int | 0 <= x < 0x1_0000_0000_0000_0000
  newtype byte = x: int | 0 <= x < 256

  /** The seed and multiplier of `DetBuildHash::default()`. */
  const DEFAULT_INIT: u64 := 12938561897
  const DEFAULT_MUL: u64 := 97587301263

  /** One iteration of the `write` loop: the wrapping product with the
      multiplier, plus the byte, reduced to 64 bits. */
  function Step(val: u64, mul: u64, b: byte): (r: u64)
  {
    (((val as int * mul as int) % WORD + b as int) % WORD) as u64
  }

  /** The state after feeding the bytes, in order, to a hasher whose state
      is val. */
  function Fold(val: u64, mul: u64, bytes: seq<byte>): u64
  {
    if |bytes| == 0 then val else Step(Fold(val, mul, bytes[..|bytes| - 1]), mul, bytes[|bytes| - 1])
  }

  /** The hash as an exact integer: the bytes read as the digits of a
      number in base `mul`, after the leading digit val (Horner's scheme). */
  function Horner(val: int, mul: int, bytes: seq<byte>): int
  {
    if |bytes| == 0 then val else Horner(val, mul, bytes[..|bytes| - 1]) * mul + bytes[|bytes| - 1] as int
  }

  /** Reducing before or after one Horner step gives the same word. */
  lemma ReduceStep(P: int, mul: int, b: int)
    ensures ((P % WORD) * mul % WORD + b) % WORD == (P * mul + b) % WORD
  {
    var q, r := P / WORD, P % WORD;
    assert P == q * WORD + r;
    assert P * mul == (q * mul) * WORD + r * mul;
    assert r * mul == (r * mul / WORD) * WORD + r * mul % WORD;
    assert P * mul + b == (q * mul + r * mul / WORD) * WORD + (r * mul % WORD + b);
  }

  /** The hasher state is the Horner value of the bytes reduced modulo
      2^64: wrapping at each step loses nothing. */
  lemma {:induction false} FoldIsHorner(val: u64, mul: u64, bytes: seq<byte>)
    ensures Fold(val, mul, bytes) as int == Horner(val as int, mul as int, bytes) % WORD
  {
    if |bytes| > 0 {
      var init := bytes[..|bytes| - 1];
      FoldIsHorner(val, mul, init);
      ReduceStep(Horner(val as int, mul as int, init), mul as int, bytes[|bytes| - 1] as int);
    }
  }

  /** Writing a then b is writing a + b. */
  lemma {:induction false} FoldAppend(val: u64, mul: u64, a: seq<byte>, b: seq<byte>)
    ensures Fold(val, mul, a + b) == Fold(Fold(val, mul, a), mul, b)
  {
    if |b| == 0 {
      assert a + b == a;
    } else {
      var b' := b[..|b| - 1];
      FoldAppend(val, mul, a, b');
      assert (a + b)[..|a + b| - 1] == a + b' && (a + b)[|a + b| - 1] == b[|b| - 1];
      var v := Fold(Fold(val, mul, a), mul, b');
      assert Fold(val, mul, a + b) == Step(v, mul, b[|b| - 1]);
    }
  }

  /** The digest of the default builder's hasher after writing bytes: the
      Horner value from the default seed in base the default multiplier. */
  lemma DefaultDigest(bytes: seq<byte>)
    ensures Fold(DEFAULT_INIT, DEFAULT_MUL, bytes) as int == Horner(12938561897, 97587301263, bytes) % WORD
  {
    FoldIsHorner(DEFAULT_INIT, DEFAULT_MUL, bytes);
  }

  /** `DetHash`: the running value and the multiplier. */
  class DetHash {
    var val: u64
    var mul: u64

    constructor(val: u64, mul: u64)
      ensures this.val == val && this.mul == mul
    {
      this.val := val;
      this.mul := mul;
    }

    /** `finish`: the running value; the hasher is left as it is. */
    method Finish() returns (r: u64)
      ensures r == val
    {
      r := val;
    }

    /** `write`: fold the bytes into the running value, first to last. */
    method Write(bytes: seq<byte>)
      modifies this
      ensures mul == old(mul)
      ensures val == Fold(old(val), mul, bytes)
      ensures val as int == Horner(old(val) as int, mul as int, bytes) % WORD
    {
      ghost var v0 := val;
      for i := 0 to |bytes|
        invariant mul == old(mul)
        invariant val == Fold(v0, mul, bytes[..i])
      {
        assert bytes[..i + 1][..i] == bytes[..i];
        val := (((val as int * mul as int) % WORD + bytes[i] as int) % WORD) as u64;
      }
      assert bytes[..|bytes|] == bytes;
      FoldIsHorner(v0, mul, bytes);
    }
  }

  /** `DetBuildHash`: the seed and multiplier every hasher it builds
      starts from. */
  class DetBuildHash {
    var init: u64
    var mul: u64

    /** `default`: the fixed seed and multiplier. */
    constructor Default()
      ensures init == DEFAULT_INIT && mul == DEFAULT_MUL
    {
      init := DEFAULT_INIT;
      mul := DEFAULT_MUL;
    }

    /** `build_hasher`: a new hasher at the seed, with the multiplier. */
    method BuildHasher() returns (h: DetHash)
      ensures fresh(h) && h.val == init && h.mul == mul
    {
      h := new DetHash(init, mul);
    }

    /** `clone`: a new builder with the same fields. */
    method Clone() returns (c: DetBuildHash)
      ensures fresh(c) && c.init == init && c.mul == mul
    {
      c := new DetBuildHash.Default();
      c.init := init;
      c.mul := mul;
    }

    /** `clone_from`: copy source's fields into this builder. */
    method CloneFrom(source: DetBuildHash)
      modifies this
      ensures init == old(source.init) && mul == old(source.mul)
    {
      init := source.init;
      mul := source.mul;
    }
  }

  /** Two hashers built by equal builders and fed the same bytes, in one
      write or split over two, finish with the same value. */
  method SameDigest(b1: DetBuildHash, b2: DetBuildHash, a: seq<byte>, c: seq<byte>) returns (d1: u64, d2: u64)
    requires b1.init == b2.init && b1.mul == b2.mul
    ensures d1 == d2 == Fold(b1.init, b1.mul, a + c)
  {
    var h1 := b1.BuildHasher();
    h1.Write(a + c);
    d1 := h1.Finish();
    var h2 := b2.BuildHasher();
    h2.Write(a);
    h2.Write(c);
    d2 := h2.Finish();
    FoldAppend(b1.init, b1.mul, a, c);
  }
}
