/** The URL-safe Base64 of bearer tokens, against section 4 of RFC 4648 read bit by bit. */
module Base64 {
  import opened Prelude

  type Sextet = x: int | 0 <= x < 64

  /** The alphabets: upper-case letters, lower-case letters, digits and two marks. */
  function Letter(n: Sextet, marks: (char, char)): char {
    if n < 26 then (n + 65) as char
    else if n < 52 then (n + 71) as char
    else if n < 62 then (n - 4) as char
    else if n == 62 then marks.0 else marks.1
  }

  const STANDARD: (char, char) := ('+', '/')
  const URL_SAFE: (char, char) := ('-', '_')

  /** Two, three or four sextets for one, two or three bytes. */
  function ChunkSextets(chunk: seq<Byte>): seq<Sextet>
    requires 1 <= |chunk| <= 3
  {
    Regrouped(At(chunk, 0, 0), At(chunk, 1, 0), At(chunk, 2, 0))[..|chunk| + 1]
  }

  function Regrouped(a: Byte, b: Byte, c: Byte): (r: seq<Sextet>)
    ensures |r| == 4
  {
    [a / 4, (a as int) % 4 * 16 + b / 16, (b as int) % 16 * 4 + c / 64, c % 64]
  }

  function Sextets(input: seq<Byte>): seq<Sextet> {
    if input == [] then []
    else if |input| <= 3 then ChunkSextets(input)
    else ChunkSextets(input[..3]) + Sextets(input[3..])
  }

  function Spell(sextets: seq<Sextet>, marks: (char, char)): string {
    if sextets == [] then [] else [Letter(sextets[0], marks)] + Spell(sextets[1..], marks)
  }

  lemma {:induction false} SpellAppend(a: seq<Sextet>, b: seq<Sextet>, marks: (char, char))
    ensures Spell(a + b, marks) == Spell(a, marks) + Spell(b, marks)
  {
    if a == [] {
      assert a + b == b;
    } else {
      SpellAppend(a[1..], b, marks);
      assert (a + b)[0] == a[0] && (a + b)[1..] == a[1..] + b;
      Assoc([Letter(a[0], marks)], Spell(a[1..], marks), Spell(b, marks));
    }
  }

  /** The unpadded URL-safe text of a byte string. */
  function Encoded(input: seq<Byte>): string {
    Spell(Sextets(input), URL_SAFE)
  }

  lemma EncodedStep(input: seq<Byte>, i: nat)
    requires i < |input|
    ensures var end := if i + 3 <= |input| then i + 3 else |input|;
            Encoded(input[i..]) == Spell(ChunkSextets(input[i..end]), URL_SAFE) + Encoded(input[end..])
  {
    var rest := input[i..];
    if |rest| <= 3 {
      assert input[i..|input|] == rest && input[|input|..] == [];
    } else {
      assert rest[..3] == input[i..i + 3] && rest[3..] == input[i + 3..];
      SpellAppend(ChunkSextets(rest[..3]), Sextets(rest[3..]), URL_SAFE);
    }
  }

  method Base64Url(input: seq<Byte>) returns (output: string)
    ensures output == Encoded(input)
  {
    output := "";
    var i := 0;
    assert input[0..] == input;
    while i < |input|
      invariant 0 <= i <= |input|
      invariant output + Encoded(input[i..]) == Encoded(input)
    {
      var end := if i + 3 <= |input| then i + 3 else |input|;
      EncodedStep(input, i);
      var text := EncodeChunk(input[i..end]);
      Assoc(output, text, Encoded(input[end..]));
      output := output + text;
      i := end;
    }
    assert Encoded(input[i..]) == "";
  }

  method EncodeChunk(chunk: seq<Byte>) returns (output: string)
    requires 1 <= |chunk| <= 3
    ensures output == Spell(ChunkSextets(chunk), URL_SAFE)
  {
    var value: int := (At(chunk, 0, 0) as int) * 65536 + (At(chunk, 1, 0) as int) * 256 + At(chunk, 2, 0);
    output := [Letter(value / 262144 % 64, URL_SAFE), Letter(value / 4096 % 64, URL_SAFE)];
    if |chunk| > 1 { output := output + [Letter(value / 64 % 64, URL_SAFE)]; }
    if |chunk| > 2 { output := output + [Letter(value % 64, URL_SAFE)]; }
    Shifts(At(chunk, 0, 0), At(chunk, 1, 0), At(chunk, 2, 0));
    SpellFour(Regrouped(At(chunk, 0, 0), At(chunk, 1, 0), At(chunk, 2, 0)), |chunk| + 1);
  }

  lemma SpellFour(s: seq<Sextet>, n: nat)
    requires |s| == 4 && 2 <= n <= 4
    ensures Spell(s[..n], URL_SAFE) == [Letter(s[0], URL_SAFE), Letter(s[1], URL_SAFE)]
      + (if n > 2 then [Letter(s[2], URL_SAFE)] else []) + (if n > 3 then [Letter(s[3], URL_SAFE)] else [])
  {
    var s1, s2, s3 := s[..n][1..], s[..n][2..], if n > 2 then s[..n][3..] else [];
    assert s1[1..] == s2 && (n > 2 ==> s2[1..] == s3) && (n > 3 ==> s3[1..] == []);
    assert Spell(s[..n], URL_SAFE) == [Letter(s[0], URL_SAFE)] + Spell(s1, URL_SAFE);
    assert Spell(s1, URL_SAFE) == [Letter(s[1], URL_SAFE)] + Spell(s2, URL_SAFE);
    assert n > 2 ==> Spell(s2, URL_SAFE) == [Letter(s[2], URL_SAFE)] + Spell(s3, URL_SAFE);
    assert n > 3 ==> Spell(s3, URL_SAFE) == [Letter(s[3], URL_SAFE)];
    assert n == 2 ==> s2 == [];
    assert n == 3 ==> s3 == [];
  }

  lemma Multiple(d: int, m: int)
    requires m > 0
    ensures d == 0 || d * m >= m || d * m <= -m
  {
    if d >= 1 { assert d * m >= m; } else if d <= -1 { assert d * m <= -m; }
  }

  lemma Quotient(x: int, m: int, q: int, r: int)
    requires 0 < m && 0 <= r < m && x == q * m + r
    ensures x / m == q && x % m == r
  {
    var d := x / m - q;
    assert d * m == r - x % m by { assert x == x / m * m + x % m; }
    Multiple(d, m);
  }

  /** Shifting and masking the 24-bit value of a chunk regroups its bits. */
  lemma Shifts(a: Byte, b: Byte, c: Byte)
    ensures var value := (a as int) * 65536 + (b as int) * 256 + c;
            Regrouped(a, b, c) == [value / 262144 % 64, value / 4096 % 64, value / 64 % 64, value % 64]
  {
    ShiftsParts(a / 4, a % 4, b / 16, b % 16, c / 64, c % 64);
  }

  lemma ShiftsParts(a1: int, a0: int, b1: int, b0: int, c1: int, c0: int)
    requires 0 <= a1 < 64 && 0 <= a0 < 4 && 0 <= b1 < 16 && 0 <= b0 < 16 && 0 <= c1 < 4 && 0 <= c0 < 64
    ensures var value := (4 * a1 + a0) * 65536 + (16 * b1 + b0) * 256 + (64 * c1 + c0);
            && value / 262144 % 64 == a1 && value / 4096 % 64 == a0 * 16 + b1
            && value / 64 % 64 == b0 * 4 + c1 && value % 64 == c0
  {
    var value := (4 * a1 + a0) * 65536 + (16 * b1 + b0) * 256 + (64 * c1 + c0);
    var high, middle := a0 * 16 + b1, b0 * 4 + c1;
    Quotient(value, 262144, a1, high * 4096 + middle * 64 + c0);
    Quotient(value, 4096, a1 * 64 + high, middle * 64 + c0);
    Quotient(value, 64, (a1 * 64 + high) * 64 + middle, c0);
    Quotient(a1 * 64 + high, 64, a1, high);
    Quotient((a1 * 64 + high) * 64 + middle, 64, a1 * 64 + high, middle);
  }

  // The inverse.

  function ChunkBytes(sextets: seq<Sextet>): seq<Byte>
    requires 2 <= |sextets| <= 4
  {
    [(sextets[0] as int) * 4 + (sextets[1] as int) / 16]
    + (if |sextets| > 2 then [(sextets[1] as int) % 16 * 16 + (sextets[2] as int) / 4] else [])
    + (if |sextets| > 3 then [(sextets[2] as int) % 4 * 64 + (sextets[3] as int)] else [])
  }

  function Bytes(sextets: seq<Sextet>): seq<Byte> {
    if |sextets| < 2 then []
    else if |sextets| <= 4 then ChunkBytes(sextets)
    else ChunkBytes(sextets[..4]) + Bytes(sextets[4..])
  }

  lemma ChunkRoundTrip(chunk: seq<Byte>)
    requires 1 <= |chunk| <= 3
    ensures ChunkBytes(ChunkSextets(chunk)) == chunk
  {
    var a: int, b: int, c: int := At(chunk, 0, 0), At(chunk, 1, 0), At(chunk, 2, 0);
    Quotient(a % 4 * 16 + b / 16, 16, a % 4, b / 16);
    Quotient(b % 16 * 4 + c / 64, 4, b % 16, c / 64);
  }

  lemma {:induction false} SextetsRoundTrip(input: seq<Byte>)
    ensures Bytes(Sextets(input)) == input
    ensures |input| > 0 ==> |Sextets(input)| >= 2
  {
    if |input| > 3 {
      var first, rest := input[..3], input[3..];
      ChunkRoundTrip(first);
      SextetsRoundTrip(rest);
      assert Sextets(input)[..4] == ChunkSextets(first);
      assert Sextets(input)[4..] == Sextets(rest);
      assert first + rest == input;
    } else if |input| > 0 {
      ChunkRoundTrip(input);
    }
  }

  predicate UrlSafe(c: char) {
    'A' <= c <= 'Z' || 'a' <= c <= 'z' || '0' <= c <= '9' || c == '-' || c == '_'
  }

  function Value(c: char): Sextet {
    if 'A' <= c <= 'Z' then c as int - 65
    else if 'a' <= c <= 'z' then c as int - 71
    else if '0' <= c <= '9' then c as int + 4
    else if c == '-' then 62 else 63
  }

  function Values(text: string): seq<Sextet> {
    if text == "" then [] else [Value(text[0])] + Values(text[1..])
  }

  function Decoded(text: string): seq<Byte> {
    Bytes(Values(text))
  }

  lemma {:induction false} ValuesOfSpell(sextets: seq<Sextet>)
    ensures Values(Spell(sextets, URL_SAFE)) == sextets
    ensures |Spell(sextets, URL_SAFE)| == |sextets|
    ensures forall c :: c in Spell(sextets, URL_SAFE) ==> UrlSafe(c)
  {
    if sextets != [] {
      ValuesOfSpell(sextets[1..]);
      assert Spell(sextets, URL_SAFE)[1..] == Spell(sextets[1..], URL_SAFE);
    }
  }

  /** The text is URL-safe and loses nothing: every byte string comes back. */
  lemma EncodedRoundTrip(input: seq<Byte>)
    ensures Decoded(Encoded(input)) == input
    ensures forall c :: c in Encoded(input) ==> UrlSafe(c)
  {
    ValuesOfSpell(Sextets(input));
    SextetsRoundTrip(input);
  }

  lemma EncodedInjective(a: seq<Byte>, b: seq<Byte>)
    ensures Encoded(a) == Encoded(b) <==> a == b
  {
    EncodedRoundTrip(a);
    EncodedRoundTrip(b);
  }

  lemma {:induction false} EncodedLength(input: seq<Byte>)
    ensures |Encoded(input)| == |input| / 3 * 4 + (if |input| % 3 == 0 then 0 else |input| % 3 + 1)
  {
    ValuesOfSpell(Sextets(input));
    if |input| > 3 {
      EncodedLength(input[3..]);
      ValuesOfSpell(Sextets(input[3..]));
      assert |Sextets(input)| == 4 + |Sextets(input[3..])|;
    }
  }

  // Section 4 of RFC 4648: the sextets carry the bits of the bytes, in order, and zero bits to fill the last one.

  function Bits(x: nat, width: nat): (r: seq<bool>)
    ensures |r| == width
  {
    if width == 0 then [] else Bits(x / 2, width - 1) + [x % 2 == 1]
  }

  function BitString(xs: seq<nat>, width: nat): seq<bool> {
    if xs == [] then [] else Bits(xs[0], width) + BitString(xs[1..], width)
  }

  function Power(k: nat): nat {
    if k == 0 then 1 else 2 * Power(k - 1)
  }

  lemma Halved(z: nat, y: nat)
    ensures (2 * z + y) / 2 == z + y / 2 && (2 * z + y) % 2 == y % 2
  {
  }

  lemma Doubled(x: nat, p: nat)
    ensures x * (2 * p) == 2 * (x * p)
  {
  }

  lemma {:induction false} BitsJoin(x: nat, y: nat, w: nat, k: nat)
    requires y < Power(k)
    ensures Bits(x * Power(k) + y, w + k) == Bits(x, w) + Bits(y, k)
  {
    if k > 0 {
      var z := x * Power(k - 1);
      BitsJoin(x, y / 2, w, k - 1);
      Doubled(x, Power(k - 1));
      Halved(z, y);
      assert Bits(2 * z + y, w + k) == Bits(z + y / 2, w + k - 1) + [y % 2 == 1];
    }
  }

  lemma {:induction false} BitStringAppend(xs: seq<nat>, ys: seq<nat>, width: nat)
    ensures BitString(xs + ys, width) == BitString(xs, width) + BitString(ys, width)
  {
    if xs == [] {
      assert xs + ys == ys;
    } else {
      BitStringAppend(xs[1..], ys, width);
      assert (xs + ys)[0] == xs[0] && (xs + ys)[1..] == xs[1..] + ys;
      Assoc(Bits(xs[0], width), BitString(xs[1..], width), BitString(ys, width));
    }
  }

  lemma {:induction false} ZeroBits(width: nat)
    ensures forall i :: 0 <= i < width ==> !Bits(0, width)[i]
  {
    if width > 0 { ZeroBits(width - 1); }
  }

  /** `whole` is written as `high` in `w` bits followed by `low` in `k` bits. */
  predicate Joined(whole: nat, high: nat, w: nat, low: nat, k: nat) {
    Bits(whole, w + k) == Bits(high, w) + Bits(low, k)
  }

  lemma Join(whole: nat, high: nat, w: nat, low: nat, k: nat, p: nat)
    requires p == Power(k) && whole == high * p + low && low < p
    ensures Joined(whole, high, w, low, k)
  {
    BitsJoin(high, low, w, k);
  }

  lemma Powers()
    ensures Power(2) == 4 && Power(4) == 16 && Power(6) == 64
  {
    assert Power(3) == 8 && Power(5) == 32;
  }

  lemma RegroupedBits(bytes: seq<Byte>, sextets: seq<Sextet>)
    requires |bytes| == 3 && sextets == Regrouped(bytes[0], bytes[1], bytes[2])
    ensures BitString(bytes, 8) == BitString(sextets, 6)
  {
    var a: int, b: int, c: int := bytes[0], bytes[1], bytes[2];
    Powers();
    Join(a, a / 4, 6, a % 4, 2, 4);
    Join(b, b / 16, 4, b % 16, 4, 16);
    Join(c, c / 64, 2, c % 64, 6, 64);
    Join(sextets[1], a % 4, 2, b / 16, 4, 16);
    Join(sextets[2], b % 16, 4, c / 64, 2, 4);
    Reassemble(bytes, sextets, a % 4, b / 16, b % 16, c / 64);
  }

  lemma Reassemble(bytes: seq<nat>, sextets: seq<nat>, a0: nat, b1: nat, b0: nat, c1: nat)
    requires |bytes| == 3 && |sextets| == 4
    requires Joined(bytes[0], sextets[0], 6, a0, 2) && Joined(sextets[1], a0, 2, b1, 4)
    requires Joined(bytes[1], b1, 4, b0, 4) && Joined(sextets[2], b0, 4, c1, 2)
    requires Joined(bytes[2], c1, 2, sextets[3], 6)
    ensures BitString(bytes, 8) == BitString(sextets, 6)
  {
    ThreeBits(bytes);
    FourBits(sextets);
    Shuffle(Bits(sextets[0], 6), Bits(a0, 2), Bits(b1, 4), Bits(b0, 4), Bits(c1, 2), Bits(sextets[3], 6));
  }

  lemma Shuffle(a1: seq<bool>, a0: seq<bool>, b1: seq<bool>, b0: seq<bool>, c1: seq<bool>, c0: seq<bool>)
    ensures a1 + (a0 + b1) + (b0 + c1) + c0 == (a1 + a0) + (b1 + b0) + (c1 + c0)
  {
  }

  lemma FourBits(s: seq<nat>)
    requires |s| == 4
    ensures BitString(s, 6) == Bits(s[0], 6) + Bits(s[1], 6) + Bits(s[2], 6) + Bits(s[3], 6)
  {
    var t := s[1..];
    assert t[1..] == s[2..] && s[2..][1..] == s[3..] && s[3..][1..] == [];
    assert BitString(s[3..], 6) == Bits(s[3], 6);
    assert BitString(s[2..], 6) == Bits(s[2], 6) + Bits(s[3], 6);
    assert BitString(t, 6) == Bits(s[1], 6) + BitString(s[2..], 6);
  }

  lemma ThreeBits(s: seq<nat>)
    requires |s| == 3
    ensures BitString(s, 8) == Bits(s[0], 8) + Bits(s[1], 8) + Bits(s[2], 8)
  {
    var t := s[1..];
    assert t[1..] == s[2..] && s[2..][1..] == [];
    assert BitString(s[2..], 8) == Bits(s[2], 8);
  }

  lemma {:induction false} BitStringLength(xs: seq<nat>, width: nat)
    ensures |BitString(xs, width)| == |xs| * width
  {
    if xs != [] { BitStringLength(xs[1..], width); }
  }

  /** `whole` is `bits` filled up with fewer than six zero bits. */
  predicate Filled(bits: seq<bool>, whole: seq<bool>) {
    && bits <= whole && |whole| < |bits| + 6
    && forall i :: |bits| <= i < |whole| ==> !whole[i]
  }

  lemma ChunkBits(chunk: seq<Byte>)
    requires 1 <= |chunk| <= 3
    ensures Filled(BitString(chunk, 8), BitString(ChunkSextets(chunk), 6))
    ensures |chunk| == 3 ==> BitString(ChunkSextets(chunk), 6) == BitString(chunk, 8)
  {
    var bytes, sextets := Extended(chunk), Regrouped(At(chunk, 0, 0), At(chunk, 1, 0), At(chunk, 2, 0));
    RegroupedBits(bytes, sextets);
    PrefixBits(bytes, sextets, |chunk|);
  }

  function Extended(chunk: seq<Byte>): (r: seq<Byte>)
    requires 1 <= |chunk| <= 3
    ensures |r| == 3 && r[..|chunk|] == chunk && forall i :: 0 <= i < 3 ==> r[i] == At(chunk, i, 0)
  {
    [At(chunk, 0, 0), At(chunk, 1, 0), At(chunk, 2, 0)]
  }

  lemma PrefixBits(bytes: seq<Byte>, sextets: seq<Sextet>, n: nat)
    requires |bytes| == 3 && |sextets| == 4 && 1 <= n <= 3 && BitString(bytes, 8) == BitString(sextets, 6)
    requires forall i :: n <= i < 3 ==> bytes[i] == 0
    ensures Filled(BitString(bytes[..n], 8), BitString(sextets[..n + 1], 6))
    ensures n == 3 ==> BitString(sextets[..n + 1], 6) == BitString(bytes[..n], 8)
  {
    assert bytes == bytes[..n] + bytes[n..] && sextets == sextets[..n + 1] + sextets[n + 1..];
    BitStringAppend(bytes[..n], bytes[n..], 8);
    BitStringAppend(sextets[..n + 1], sextets[n + 1..], 6);
    BitStringLength(bytes[..n], 8);
    BitStringLength(sextets[..n + 1], 6);
    Zeros(bytes[n..]);
    Cut(BitString(bytes[..n], 8), BitString(bytes[n..], 8),
        BitString(sextets[..n + 1], 6), BitString(sextets[n + 1..], 6));
  }

  lemma {:induction false} Zeros(xs: seq<nat>)
    requires forall i :: 0 <= i < |xs| ==> xs[i] == 0
    ensures true !in BitString(xs, 8)
  {
    if xs != [] {
      ZeroBits(8);
      Zeros(xs[1..]);
    }
  }

  lemma Cut(bits: seq<bool>, zeros: seq<bool>, whole: seq<bool>, rest: seq<bool>)
    requires bits + zeros == whole + rest && true !in zeros && |bits| <= |whole| < |bits| + 6
    ensures Filled(bits, whole) && (|bits| == |whole| ==> bits == whole)
  {
    assert bits == (bits + zeros)[..|bits|] == whole[..|bits|];
    forall i | |bits| <= i < |whole| ensures !whole[i] {
      assert whole[i] == (bits + zeros)[i] == zeros[i - |bits|];
    }
  }

  /** The encoding is the one of section 4 of RFC 4648: the same bits, six at a time. */
  lemma {:induction false} SextetsCarryTheBits(input: seq<Byte>)
    ensures Filled(BitString(input, 8), BitString(Sextets(input), 6))
  {
    if |input| > 3 {
      var first, rest := input[..3], input[3..];
      ChunkBits(first);
      SextetsCarryTheBits(rest);
      BitStringAppend(first, rest, 8);
      BitStringAppend(ChunkSextets(first), Sextets(rest), 6);
      assert input == first + rest;
      FilledAfter(BitString(first, 8), BitString(rest, 8), BitString(Sextets(rest), 6));
    } else if |input| > 0 {
      ChunkBits(input);
    }
  }

  lemma FilledAfter(front: seq<bool>, bits: seq<bool>, whole: seq<bool>)
    requires Filled(bits, whole)
    ensures Filled(front + bits, front + whole)
  {
    assert whole[..|bits|] == bits;
    assert (front + whole)[..|front + bits|] == front + bits;
  }

  // What the browser computes: padded standard text, the two marks replaced, trailing padding removed.

  function Padding(n: nat): string {
    if n % 4 == 0 then "" else if n % 4 == 3 then "=" else "=="
  }

  /** `btoa`. */
  function Padded(input: seq<Byte>): string {
    var sextets := Sextets(input);
    Spell(sextets, STANDARD) + Padding(|sextets|)
  }

  /** Four characters for every three bytes begun. */
  lemma PaddedLength(input: seq<Byte>)
    ensures |Padded(input)| == 4 * ((|input| + 2) / 3)
  {
    EncodedLength(input);
    SpellLength(Sextets(input), STANDARD);
    SpellLength(Sextets(input), URL_SAFE);
    PaddingFills(|input| / 3, |input| % 3);
    assert |input| == 3 * (|input| / 3) + |input| % 3;
  }

  lemma PaddingFills(q: nat, r: nat)
    requires r < 3
    ensures var m := q * 4 + (if r == 0 then 0 else r + 1);
      m + |Padding(m)| == 4 * (q + (if r == 0 then 0 else 1)) && (3 * q + r + 2) / 3 == q + (if r == 0 then 0 else 1)
  {
  }

  lemma {:induction false} SpellLength(sextets: seq<Sextet>, marks: (char, char))
    ensures |Spell(sextets, marks)| == |sextets|
  {
    if sextets != [] { SpellLength(sextets[1..], marks); }
  }

  function ReplaceAll(text: string, from: char, to: char): (r: string)
    ensures |r| == |text| && forall i :: 0 <= i < |r| ==> r[i] == (if text[i] == from then to else text[i])
  {
    seq(|text|, i requires 0 <= i < |text| => if text[i] == from then to else text[i])
  }

  function StripPadding(text: string): string {
    if text != "" && text[|text| - 1] == '=' then StripPadding(text[..|text| - 1]) else text
  }

  function BrowserText(input: seq<Byte>): string {
    StripPadding(ReplaceAll(ReplaceAll(Padded(input), '+', '-'), '/', '_'))
  }

  lemma {:induction false} StripSuffix(text: string, padding: string)
    requires forall i :: 0 <= i < |padding| ==> padding[i] == '='
    requires text == "" || text[|text| - 1] != '='
    ensures StripPadding(text + padding) == text
  {
    if padding == "" {
      assert text + padding == text;
    } else {
      var shorter := padding[..|padding| - 1];
      StripSuffix(text, shorter);
      assert (text + padding)[..|text + padding| - 1] == text + shorter;
    }
  }

  lemma {:induction false} SpellAt(sextets: seq<Sextet>, marks: (char, char))
    ensures |Spell(sextets, marks)| == |sextets|
    ensures forall i :: 0 <= i < |sextets| ==> Spell(sextets, marks)[i] == Letter(sextets[i], marks)
  {
    if sextets != [] { SpellAt(sextets[1..], marks); }
  }

  lemma LetterReplaced(n: Sextet)
    ensures var c := Letter(n, STANDARD);
            var d := if c == '+' then '-' else c;
            Letter(n, URL_SAFE) == (if d == '/' then '_' else d) && Letter(n, URL_SAFE) != '='
  {
  }

  /** The browser and the gateway write the same text for every byte string. */
  lemma BrowserTextIsEncoded(input: seq<Byte>)
    ensures BrowserText(input) == Encoded(input)
  {
    var sextets := Sextets(input);
    SpellAt(sextets, STANDARD);
    SpellAt(sextets, URL_SAFE);
    var replaced := ReplaceAll(ReplaceAll(Padded(input), '+', '-'), '/', '_');
    forall i | 0 <= i < |sextets| ensures replaced[i] == Encoded(input)[i] != '=' {
      LetterReplaced(sextets[i]);
    }
    assert replaced == Encoded(input) + Padding(|sextets|);
    StripSuffix(Encoded(input), Padding(|sextets|));
  }
}
