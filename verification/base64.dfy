/**
  Unpadded base64 decoding as Go's `base64.RawStdEncoding` and
  `base64.RawURLEncoding` perform it: the alphabet of section 4 (standard) or
  section 5 (URL and filename safe) of RFC 4648, no `=` padding, and the
  default non-strict mode, in which the unused low bits of a final partial
  quantum are ignored. Input is read in quanta of four characters; a final
  quantum of two or three characters yields one or two bytes, a final single
  character is an error. On an error the decoder still hands back the bytes of
  the complete quanta it decoded before the offending one.
 */
module Base64 {
  import opened Wrappers

  type byte = x: int | 0 <= x < 256
  type sextet = x: int | 0 <= x < 64

  datatype Alphabet = Std | Url

  /** The two characters that differ between the alphabets: values 62 and 63. */
  function Char62(a: Alphabet): char { if a.Std? then '+' else '-' }
  function Char63(a: Alphabet): char { if a.Std? then '/' else '_' }

  /** The value of character `c` in alphabet `a`, if it belongs to it. */
  function ValueOf(a: Alphabet, c: char): Option<sextet> {
    if 'A' <= c <= 'Z' then Some(c as int - 'A' as int)
    else if 'a' <= c <= 'z' then Some(c as int - 'a' as int + 26)
    else if '0' <= c <= '9' then Some(c as int - '0' as int + 52)
    else if c == Char62(a) then Some(62)
    else if c == Char63(a) then Some(63)
    else None
  }

  /** The character that encodes value `v` in alphabet `a`. */
  function CharOf(a: Alphabet, v: sextet): (c: char)
    ensures ValueOf(a, c) == Some(v)
  {
    if v < 26 then ('A' as int + v) as char
    else if v < 52 then ('a' as int + v - 26) as char
    else if v < 62 then ('0' as int + v - 52) as char
    else if v == 62 then Char62(a)
    else Char63(a)
  }

  predicate InAlphabet(a: Alphabet, c: char) {
    ValueOf(a, c).Some?
  }

  predicate AllInAlphabet(a: Alphabet, s: string) {
    forall i :: 0 <= i < |s| ==> InAlphabet(a, s[i])
  }

  /** What the decoder returns: the bytes it produced and whether it reported no error. */
  datatype Decoded = Decoded(bytes: seq<byte>, ok: bool)

  /** Decoded length of `n` characters of unpadded input (`DecodedLen` in Go). */
  function DecodedLen(n: nat): nat { n * 6 / 8 }

  /** The bytes carried by a quantum of two to four valid characters. */
  function QuantumBytes(a: Alphabet, q: string): (b: seq<byte>)
    requires 2 <= |q| <= 4 && AllInAlphabet(a, q)
    ensures |b| == |q| - 1
  {
    var c0 := ValueOf(a, q[0]).value;
    var c1 := ValueOf(a, q[1]).value;
    var c2 := if |q| > 2 then ValueOf(a, q[2]).value else 0;
    var c3 := if |q| > 3 then ValueOf(a, q[3]).value else 0;
    var b0 := c0 * 4 + c1 / 16;
    var b1 := (c1 % 16) * 16 + c2 / 4;
    var b2 := (c2 % 4) * 64 + c3;
    [b0, b1, b2][..|q| - 1]
  }

  /**
    Go's raw decoding of `s`. It succeeds exactly when every character is in the
    alphabet and the length does not leave a single character over, and then
    yields `DecodedLen(|s|)` bytes. On failure it yields whole 3-byte groups only.
   */
  function Decode(a: Alphabet, s: string): (r: Decoded)
    ensures r.ok <==> AllInAlphabet(a, s) && |s| % 4 != 1
    ensures r.ok ==> |r.bytes| == DecodedLen(|s|)
    ensures !r.ok ==> |r.bytes| % 3 == 0 && |r.bytes| <= DecodedLen(|s|)
    decreases |s|
  {
    if |s| == 0 then Decoded([], true)
    else if |s| == 1 then Decoded([], false)
    else
      var n := if |s| < 4 then |s| else 4;
      var q := s[..n];
      if !AllInAlphabet(a, q) then
        assert !AllInAlphabet(a, s) by { AlphabetSplit(a, s, n); }
        Decoded([], false)
      else
        var rest := Decode(a, s[n..]);
        var b := QuantumBytes(a, q) + rest.bytes;
        DecodeStep(a, s, n, rest);
        Decoded(b, rest.ok)
  }

  /**
    Whether the first quantum of `w` makes the decoder stop: a lone character,
    or a quantum of two to four characters with one outside the alphabet.
   */
  predicate BadFirstQuantum(a: Alphabet, w: string) {
    |w| == 1 || (|w| >= 2 && !AllInAlphabet(a, w[..if |w| < 4 then |w| else 4]))
  }

  /**
    What a failed decode hands back: for whole valid quanta `v` followed by a
    quantum the decoder stops at, the result is exactly the bytes of `v`,
    with the error reported; nothing after the bad quantum is decoded.
   */
  lemma {:induction false} DecodeStopsAtBadQuantum(a: Alphabet, v: string, w: string)
    requires |v| % 4 == 0 && AllInAlphabet(a, v)
    requires BadFirstQuantum(a, w)
    ensures Decode(a, v + w) == Decoded(Decode(a, v).bytes, false)
    decreases |v|
  {
    if |v| == 0 {
      assert v + w == w;
    } else {
      var s := v + w;
      assert s[..4] == v[..4];
      AlphabetSplit(a, v, 4);
      assert s[4..] == v[4..] + w;
      DecodeStopsAtBadQuantum(a, v[4..], w);
    }
  }

  /** One quantum of `n` valid characters followed by the decoding of the rest of `s`. */
  lemma DecodeStep(a: Alphabet, s: string, n: nat, rest: Decoded)
    requires 2 <= n <= 4 && n <= |s| && (n < 4 ==> |s| == n)
    requires AllInAlphabet(a, s[..n])
    requires rest.ok <==> AllInAlphabet(a, s[n..]) && (|s| - n) % 4 != 1
    requires rest.ok ==> |rest.bytes| == DecodedLen(|s| - n)
    requires !rest.ok ==> |rest.bytes| % 3 == 0 && |rest.bytes| <= DecodedLen(|s| - n)
    ensures rest.ok <==> AllInAlphabet(a, s) && |s| % 4 != 1
    ensures rest.ok ==> n - 1 + |rest.bytes| == DecodedLen(|s|)
    ensures !rest.ok ==> (n - 1 + |rest.bytes|) % 3 == 0 && n - 1 + |rest.bytes| <= DecodedLen(|s|)
  {
    AlphabetSplit(a, s, n);
    DecodedLenStep(|s|, n);
  }

  /** A string is in the alphabet exactly when both halves of any cut are. */
  lemma AlphabetSplit(a: Alphabet, s: string, n: nat)
    requires n <= |s|
    ensures AllInAlphabet(a, s) <==> AllInAlphabet(a, s[..n]) && AllInAlphabet(a, s[n..])
  {
    if AllInAlphabet(a, s[..n]) && AllInAlphabet(a, s[n..]) {
      forall i | 0 <= i < |s| ensures InAlphabet(a, s[i]) {
        if i >= n { assert s[i] == s[n..][i - n]; } else { assert s[i] == s[..n][i]; }
      }
    }
  }

  /** Lengths after taking one quantum of `n` characters off `m`. */
  lemma DecodedLenStep(m: nat, n: nat)
    requires 2 <= n <= 4 && n <= m && (n < 4 ==> m == n)
    ensures DecodedLen(m) == n - 1 + DecodedLen(m - n)
    ensures (m - n) % 4 != 1 <==> m % 4 != 1
  {
  }

  /** Unpadded encoding of three or fewer bytes: the partner of `QuantumBytes`. */
  function EncodeGroup(a: Alphabet, g: seq<byte>): (q: string)
    requires 1 <= |g| <= 3
    ensures |q| == |g| + 1 && AllInAlphabet(a, q)
  {
    var b0 := g[0];
    var b1 := if |g| > 1 then g[1] else 0;
    var b2 := if |g| > 2 then g[2] else 0;
    var q := [CharOf(a, b0 / 4), CharOf(a, (b0 % 4) * 16 + b1 / 16),
              CharOf(a, (b1 % 16) * 4 + b2 / 64), CharOf(a, b2 % 64)];
    q[..|g| + 1]
  }

  /** Unpadded base64 encoding (Go's `EncodeToString` on the same encoding). */
  function Encode(a: Alphabet, b: seq<byte>): (s: string)
    ensures AllInAlphabet(a, s)
    ensures |s| % 4 != 1
    decreases |b|
  {
    if |b| == 0 then ""
    else
      var n := if |b| < 3 then |b| else 3;
      var s := EncodeGroup(a, b[..n]) + Encode(a, b[n..]);
      assert forall i :: 0 <= i < |s| ==> InAlphabet(a, s[i]) by {
        forall i | 0 <= i < |s| ensures InAlphabet(a, s[i]) {
          if i < n + 1 { assert s[i] == EncodeGroup(a, b[..n])[i]; }
          else { assert s[i] == Encode(a, b[n..])[i - (n + 1)]; }
        }
      }
      s
  }

  /** The sextet arithmetic of one group undone: each byte is recovered from its sextets. */
  lemma SextetArithmetic(b0: byte, b1: byte, b2: byte)
    ensures (b0 / 4) * 4 + ((b0 % 4) * 16 + b1 / 16) / 16 == b0
    ensures (((b0 % 4) * 16 + b1 / 16) % 16) * 16 + ((b1 % 16) * 4 + b2 / 64) / 4 == b1
    ensures (((b1 % 16) * 4 + b2 / 64) % 4) * 64 + b2 % 64 == b2
  {
    var lo0 := b0 % 4;
    var hi1 := b1 / 16;
    assert (lo0 * 16 + hi1) / 16 == lo0 && (lo0 * 16 + hi1) % 16 == hi1;
    var lo1 := b1 % 16;
    var hi2 := b2 / 64;
    assert (lo1 * 4 + hi2) / 4 == lo1 && (lo1 * 4 + hi2) % 4 == hi2;
  }

  /** Decoding a group's characters gives the group's bytes back. */
  lemma GroupRoundTrip(a: Alphabet, g: seq<byte>)
    requires 1 <= |g| <= 3
    ensures QuantumBytes(a, EncodeGroup(a, g)) == g
  {
    var q := EncodeGroup(a, g);
    var b0 := g[0];
    var b1 := if |g| > 1 then g[1] else 0;
    var b2 := if |g| > 2 then g[2] else 0;
    SextetArithmetic(b0, b1, b2);
    var c0 := ValueOf(a, q[0]).value;
    var c1 := ValueOf(a, q[1]).value;
    var c2 := if |q| > 2 then ValueOf(a, q[2]).value else 0;
    var c3 := if |q| > 3 then ValueOf(a, q[3]).value else 0;
    assert c0 == b0 / 4;
    assert c1 == (b0 % 4) * 16 + b1 / 16;
    var d := QuantumBytes(a, q);
    assert d[0] == g[0];
    if |g| > 1 {
      assert c2 == (b1 % 16) * 4 + b2 / 64;
      assert d[1] == g[1];
    }
    if |g| > 2 {
      assert c3 == b2 % 64;
      assert d[2] == g[2];
    }
  }

  /** Round trip: decoding an encoding succeeds and returns the original bytes. */
  lemma {:induction false} DecodeEncode(a: Alphabet, b: seq<byte>)
    ensures Decode(a, Encode(a, b)) == Decoded(b, true)
    decreases |b|
  {
    if |b| > 0 {
      var n := if |b| < 3 then |b| else 3;
      var g := EncodeGroup(a, b[..n]);
      var s := Encode(a, b);
      assert s == g + Encode(a, b[n..]);
      DecodeEncode(a, b[n..]);
      GroupRoundTrip(a, b[..n]);
      if |b| < 3 {
        assert b[n..] == [];
        assert s == g;
        assert s[..|s|] == g;
      } else {
        assert s[..4] == g;
        assert s[4..] == Encode(a, b[n..]);
      }
      assert b == b[..n] + b[n..];
    }
  }
}
