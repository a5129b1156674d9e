/** `inv_checksum` of `ml_math_func.c`: the Bernstein hash, h = 33 h + c modulo 2^32. */
module Checksum {
  import opened Machine

  const SEED := 5381
  /** 33 times this number is one modulo 2^32. */
  const INVERSE_OF_33 := 1_041_204_193

  function Mix(h: u32, c: byte): u32 {
    U32(h * 33 + c)
  }

  function Hash(s: seq<byte>): u32 {
    if s == [] then SEED else Mix(Hash(s[..|s| - 1]), s[|s| - 1])
  }

  /** The loop of the source, which shifts and adds instead of multiplying. */
  method InvChecksum(str: seq<byte>) returns (hash: u32)
    ensures hash == Hash(str)
  {
    hide Mix, U32;
    hash := SEED;
    var i := 0;
    while i < |str|
      invariant i <= |str| && hash == Hash(str[..i])
    {
      var c: int := str[i];
      ghost var was := hash;
      var shifted := U32(hash * 32);
      hash := U32(shifted + hash + c);
      ShiftAndAdd(was, str[i]);
      i := i + 1;
      assert str[..i][..i - 1] == str[..i - 1];
    }
    assert str[..i] == str;
  }

  lemma ShiftAndAdd(h: u32, c: byte)
    ensures U32(U32(h * 32) + h + c) == Mix(h, c)
  {
  }

  // ----- error detection -----

  /** Multiplication by 33 is invertible, so different hashes stay different. */
  lemma MixInjective(h: u32, k: u32, c: byte)
    requires Mix(h, c) == Mix(k, c)
    ensures h == k
  {
    var d: int := h - k;
    var q := (h * 33 + c) / TWO_32 - (k * 33 + c) / TWO_32;
    assert 33 * d == q * TWO_32;
    assert 33 * INVERSE_OF_33 == 8 * TWO_32 + 1;
    assert d == TWO_32 * (q * INVERSE_OF_33 - 8 * d);
  }

  lemma MixOfByte(h: u32, c: byte, d: byte)
    ensures Mix(h, c) == Mix(h, d) <==> c == d
  {
  }

  /** Two strings that differ in one byte never have the same checksum. */
  lemma {:induction false} OneByteDetected(s: seq<byte>, t: seq<byte>, j: nat)
    requires |s| == |t| && j < |s| && s[j] != t[j]
    requires forall i :: 0 <= i < |s| && i != j ==> s[i] == t[i]
    ensures Hash(s) != Hash(t)
  {
    hide Mix;
    var n := |s| - 1;
    if j == n {
      assert s[..n] == t[..n];
      MixOfByte(Hash(s[..n]), s[n], t[n]);
    } else {
      OneByteDetected(s[..n], t[..n], j);
      if Hash(s) == Hash(t) {
        MixInjective(Hash(s[..n]), Hash(t[..n]), s[n]);
      }
    }
  }

  lemma {:induction false} SuffixKeepsDifference(s: seq<byte>, t: seq<byte>, tail: seq<byte>)
    ensures Hash(s + tail) == Hash(t + tail) <==> Hash(s) == Hash(t)
  {
    hide Mix;
    if tail == [] {
      assert s + tail == s && t + tail == t;
    } else {
      var n := |tail| - 1;
      assert (s + tail)[..|s + tail| - 1] == s + tail[..n];
      assert (t + tail)[..|t + tail| - 1] == t + tail[..n];
      SuffixKeepsDifference(s, t, tail[..n]);
      if Hash(s + tail) == Hash(t + tail) {
        MixInjective(Hash(s + tail[..n]), Hash(t + tail[..n]), tail[n]);
      }
    }
  }

  /** Two neighbouring bytes: the change goes unnoticed exactly when the second makes up for 33 times
      the first. */
  lemma TwoBytesDetected(p: seq<byte>, a: byte, b: byte, a': byte, b': byte, tail: seq<byte>)
    ensures Hash(p + [a, b] + tail) == Hash(p + [a', b'] + tail) <==> 33 * (a - a') + (b - b') == 0
  {
    hide Hash, Mix, U32;
    SuffixKeepsDifference(p + [a, b], p + [a', b'], tail);
    HashOfTwo(p, a, b);
    HashOfTwo(p, a', b');
    var h := Hash(p);
    MixTwice(h, a, b);
    MixTwice(h, a', b');
    CloseNumbers((h * 33 + a) * 33 + b, (h * 33 + a') * 33 + b');
  }

  lemma CloseNumbers(x: int, y: int)
    requires -TWO_32 < x - y < TWO_32
    ensures U32(x) == U32(y) <==> x == y
  {
  }

  lemma MixTwice(h: u32, a: byte, b: byte)
    ensures Mix(Mix(h, a), b) == U32((h * 33 + a) * 33 + b)
  {
    var x: int := h * 33 + a;
    assert U32(x) == x - TWO_32 * (x / TWO_32);
    WrapAgain(x * 33 + b, -33 * (x / TWO_32));
  }

  lemma WrapAgain(y: int, k: int)
    ensures U32(y + TWO_32 * k) == U32(y)
  {
  }

  lemma HashOfTwo(p: seq<byte>, a: byte, b: byte)
    ensures Hash(p + [a, b]) == Mix(Mix(Hash(p), a), b)
  {
    var s := p + [a, b];
    assert s[..|s| - 1] == p + [a];
    assert (p + [a])[..|p|] == p;
  }

  /** 33 too much in the second byte for one too little in the first. */
  lemma TwoBytesUnnoticed(p: seq<byte>)
    ensures Hash(p + [0, 33]) == Hash(p + [1, 0]) && p + [0, 33] != p + [1, 0]
  {
    hide Hash;
    TwoBytesDetected(p, 0, 33, 1, 0, []);
    assert p + [0, 33] + [] == p + [0, 33] && p + [1, 0] + [] == p + [1, 0];
    assert (p + [0, 33])[|p|] == 0 && (p + [1, 0])[|p|] == 1;
  }

  /** The hash of "a" and of "abc". */
  lemma KnownHashes()
    ensures Hash([97]) == 177_670 && Hash([97, 98, 99]) == 193_485_963
  {
    assert Hash([]) == SEED;
    assert [97][..0] == [] && [97, 98][..1] == [97] && [97, 98, 99][..2] == [97, 98];
    assert Hash([97]) == 177_670;
    assert Hash([97, 98]) == 5_863_208;
  }
}
