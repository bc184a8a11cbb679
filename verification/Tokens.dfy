/** Bearer tokens at the gateway: the fixed-length comparison, the HTTP header and the console subprotocols. */
module Tokens {
  import opened Prelude
  import Base64

  // Bitwise operators on machine words, as functions of their binary digits.

  function Xor(a: nat, b: nat): nat
    decreases a + b
  {
    if a == 0 && b == 0 then 0
    else 2 * Xor(a / 2, b / 2) + (if a % 2 != b % 2 then 1 else 0)
  }

  function BitOr(a: nat, b: nat): nat
    decreases a + b
  {
    if a == 0 && b == 0 then 0
    else 2 * BitOr(a / 2, b / 2) + (if a % 2 == 1 || b % 2 == 1 then 1 else 0)
  }

  lemma {:induction false} XorZero(a: nat, b: nat)
    ensures Xor(a, b) == 0 <==> a == b
    decreases a + b
  {
    if a != 0 || b != 0 { XorZero(a / 2, b / 2); }
  }

  lemma {:induction false} BitOrZero(a: nat, b: nat)
    ensures BitOr(a, b) == 0 <==> a == 0 && b == 0
    decreases a + b
  {
    if a != 0 || b != 0 { BitOrZero(a / 2, b / 2); }
  }

  /** What the comparison decides. */
  ghost predicate Agree(left: seq<nat>, right: seq<nat>, bound: nat) {
    |left| == |right| && forall i :: 0 <= i < bound ==> At(left, i, 0) == At(right, i, 0)
  }

  /** Compares lengths, and bytes up to a fixed bound, without stopping early. */
  method ConstantTimeEqual(left: seq<nat>, right: seq<nat>, bound: nat) returns (equal: bool)
    ensures equal <==> Agree(left, right, bound)
  {
    var difference := Xor(|left|, |right|);
    XorZero(|left|, |right|);
    for index := 0 to bound
      invariant difference == 0 <==> Agree(left, right, index)
    {
      XorZero(At(left, index, 0), At(right, index, 0));
      BitOrZero(difference, Xor(At(left, index, 0), At(right, index, 0)));
      difference := BitOr(difference, Xor(At(left, index, 0), At(right, index, 0)));
    }
    equal := difference == 0;
  }

  lemma AgreeWithin(left: seq<nat>, right: seq<nat>, bound: nat)
    requires |left| <= bound || |right| <= bound
    ensures Agree(left, right, bound) <==> left == right
  {
    if Agree(left, right, bound) {
      forall i | 0 <= i < |left| ensures left[i] == right[i] { assert At(left, i, 0) == At(right, i, 0); }
    }
  }

  /** It decides equality with the bytes `right`, for every other argument, exactly when `right` fits the bound. */
  lemma AgreeIsEqualityIff(right: seq<Byte>, bound: nat)
    ensures (forall left: seq<Byte> :: Agree(left, right, bound) <==> left == right) <==> |right| <= bound
  {
    if |right| <= bound {
      forall left: seq<Byte> ensures Agree(left, right, bound) <==> left == right {
        AgreeWithin(left, right, bound);
      }
    } else {
      var other: seq<Byte> := right[bound := if right[bound] == 0 then 1 else 0];
      assert other[bound] != right[bound];
      assert Agree(other, right, bound);
    }
  }

  /** The bytes of visible ASCII text. */
  function Codes(text: string): (r: seq<nat>)
    ensures |r| == |text| && forall i :: 0 <= i < |r| ==> r[i] == text[i] as int
  {
    seq(|text|, i requires 0 <= i < |text| => text[i] as int)
  }

  lemma CodesInjective(a: string, b: string)
    ensures Codes(a) == Codes(b) <==> a == b
  {
    if Codes(a) == Codes(b) {
      forall i | 0 <= i < |a| ensures a[i] == b[i] { assert Codes(a)[i] == Codes(b)[i]; }
    }
  }

  method SameText(left: string, right: string, bound: nat) returns (equal: bool)
    requires |left| <= bound || |right| <= bound
    ensures equal <==> left == right
  {
    equal := ConstantTimeEqual(Codes(left), Codes(right), bound);
    CodesInjective(left, right);
    AgreeWithin(Codes(left), Codes(right), bound);
  }

  // The authorization header.

  const SCHEME: string := "Bearer "

  /** The bytes of a token that the gateway's configuration accepts. */
  predicate Configured(token: seq<Byte>) {
    32 <= |token| <= 512
  }

  method Authorized(header: Option<string>, expected: seq<Byte>) returns (ok: bool)
    requires Configured(expected)
    ensures ok <==> header.Some? && Codes(header.value) == Codes("Bearer ") + expected
  {
    var supplied := "";
    if header.Some? && SCHEME <= header.value {
      supplied := header.value[|SCHEME|..];
      assert Codes(header.value) == Codes(SCHEME) + Codes(supplied);
    } else if header.Some? {
      NotPrefixed(header.value, expected);
    }
    ok := ConstantTimeEqual(Codes(supplied), expected, 512);
    AgreeWithin(Codes(supplied), expected, 512);
  }

  lemma NotPrefixed(text: string, rest: seq<nat>)
    requires !(SCHEME <= text)
    ensures Codes(text) != Codes(SCHEME) + rest
  {
    if |SCHEME| <= |text| {
      var i :| 0 <= i < |SCHEME| && text[i] != SCHEME[i];
      assert Codes(text)[i] != (Codes(SCHEME) + rest)[i];
    }
  }

  // The subprotocols of a console connection.

  const CONSOLE_PROTOCOL: string := "kernmux-console-v1"
  const BEARER_PREFIX: string := "kernmux-bearer."
  const MAX_OFFER := 1024

  predicate White(c: char) {
    c == ' ' || c == '\t' || c == '\n' || c == '\r'
  }

  function TrimStart(s: string): (r: string)
    ensures |r| <= |s|
  {
    if s != "" && White(s[0]) then TrimStart(s[1..]) else s
  }

  function TrimEnd(s: string): (r: string)
    ensures |r| <= |s|
  {
    if s != "" && White(s[|s| - 1]) then TrimEnd(s[..|s| - 1]) else s
  }

  function Trim(s: string): (r: string)
    ensures |r| <= |s|
  {
    TrimEnd(TrimStart(s))
  }

  /** The pieces between commas; one empty piece for an empty text. */
  function Split(s: string): (r: seq<string>)
    ensures |r| >= 1 && forall i :: 0 <= i < |r| ==> |r[i]| <= |s|
  {
    if s == "" then [""]
    else
      var rest := Split(s[1..]);
      if s[0] == ',' then [""] + rest else [[s[0]] + rest[0]] + rest[1..]
  }

  function TrimAll(pieces: seq<string>): (r: seq<string>)
    ensures |r| == |pieces| && forall i :: 0 <= i < |r| ==> r[i] == Trim(pieces[i])
  {
    if pieces == [] then [] else [Trim(pieces[0])] + TrimAll(pieces[1..])
  }

  function Entries(offered: string): seq<string> {
    TrimAll(Split(offered))
  }

  function Count(entries: seq<string>, wanted: string): nat {
    if entries == [] then 0
    else Count(entries[..|entries| - 1], wanted) + (if entries[|entries| - 1] == wanted then 1 else 0)
  }

  function Expected(token: seq<Byte>): string {
    BEARER_PREFIX + Base64.Encoded(token)
  }

  /** One entry names the console protocol and one carries the token. */
  predicate Accepted(offered: string, token: seq<Byte>) {
    && |offered| <= MAX_OFFER
    && Count(Entries(offered), CONSOLE_PROTOCOL) == 1
    && Count(Entries(offered), Expected(token)) == 1
  }

  /** `saturating_add(1)` on an eight-bit counter. */
  function Bump(counter: nat): nat {
    if counter < 255 then counter + 1 else 255
  }

  function Clamped(n: nat): nat {
    if n <= 255 then n else 255
  }

  method ValidSubprotocols(offered: string, token: seq<Byte>) returns (ok: bool)
    ensures ok <==> Accepted(offered, token)
  {
    if |offered| > MAX_OFFER { return false; }
    var text := Base64.Base64Url(token);
    var expected := BEARER_PREFIX + text;
    var console, bearer := 0, 0;
    var entries := Entries(offered);
    for i := 0 to |entries|
      invariant console == Clamped(Count(entries[..i], CONSOLE_PROTOCOL))
      invariant bearer == Clamped(Count(entries[..i], expected))
    {
      var protocol := entries[i];
      assert entries[..i + 1][..i] == entries[..i];
      if protocol == CONSOLE_PROTOCOL {
        console := Bump(console);
        Distinct(token);
      } else if BEARER_PREFIX <= protocol {
        var same := SameText(protocol, expected, 1024);
        if same { bearer := Bump(bearer); }
      }
    }
    assert entries[..|entries|] == entries;
    ok := console == 1 && bearer == 1;
  }

  lemma Distinct(token: seq<Byte>)
    ensures Expected(token) != CONSOLE_PROTOCOL
  {
    assert Expected(token)[8] == 'b' && CONSOLE_PROTOCOL[8] == 'c';
  }

  // The browser's side: the two protocols it asks for, joined as `WebSocket` joins them.

  function Offer(token: seq<Byte>): string {
    CONSOLE_PROTOCOL + ", " + (BEARER_PREFIX + Base64.BrowserText(token))
  }

  predicate Plain(s: string) {
    forall i :: 0 <= i < |s| ==> s[i] != ',' && !White(s[i])
  }

  lemma {:induction false} SplitPlain(s: string)
    requires ',' !in s
    ensures Split(s) == [s]
  {
    if s != "" {
      SplitPlain(s[1..]);
      assert [s[0]] + s[1..] == s;
    }
  }

  lemma {:induction false} SplitAtComma(a: string, b: string)
    requires ',' !in a
    ensures Split(a + "," + b) == [a] + Split(b)
  {
    var s := a + "," + b;
    if a == "" {
      assert s[1..] == b;
    } else {
      SplitAtComma(a[1..], b);
      assert s[1..] == a[1..] + "," + b;
      assert [a[0]] + a[1..] == a;
    }
  }

  lemma TrimPlain(s: string)
    requires Plain(s)
    ensures Trim(s) == s && Trim(" " + s) == s
  {
    assert (" " + s)[1..] == s;
  }

  lemma ExpectedPlain(token: seq<Byte>)
    ensures Plain(Expected(token))
  {
    Base64.EncodedRoundTrip(token);
    var text := Base64.Encoded(token);
    assert Plain(BEARER_PREFIX);
    forall i | 0 <= i < |text| ensures text[i] != ',' && !White(text[i]) {
      assert text[i] in text;
    }
  }

  lemma TwoEntries(a: string, b: string)
    requires Plain(a) && Plain(b)
    ensures Entries(a + ", " + b) == [a, b]
  {
    assert a + ", " + b == a + "," + (" " + b);
    SplitAtComma(a, " " + b);
    SplitPlain(" " + b);
    TrimPlain(a);
    TrimPlain(b);
  }

  lemma ConsolePlain()
    ensures Plain(CONSOLE_PROTOCOL)
  {
  }

  lemma OfferEntries(token: seq<Byte>)
    ensures Entries(Offer(token)) == [CONSOLE_PROTOCOL, Expected(token)]
    ensures |Offer(token)| == 35 + |Base64.Encoded(token)|
  {
    Base64.BrowserTextIsEncoded(token);
    ExpectedPlain(token);
    ConsolePlain();
    TwoEntries(CONSOLE_PROTOCOL, Expected(token));
  }

  /** A browser gets through exactly when it holds the gateway's token and its offer fits the header limit. */
  lemma BrowserAcceptedIff(held: seq<Byte>, token: seq<Byte>)
    ensures Accepted(Offer(held), token) <==> held == token && |held| <= 741
  {
    OfferEntries(held);
    Base64.EncodedLength(held);
    Base64.EncodedInjective(held, token);
    Distinct(held);
    Distinct(token);
    var entries := Entries(Offer(held));
    assert entries[..1] == [CONSOLE_PROTOCOL];
    assert Expected(held) == Expected(token) <==> held == token by {
      assert Expected(held)[|BEARER_PREFIX|..] == Base64.Encoded(held);
      assert Expected(token)[|BEARER_PREFIX|..] == Base64.Encoded(token);
    }
    CountPair(CONSOLE_PROTOCOL, Expected(held), CONSOLE_PROTOCOL);
    CountPair(CONSOLE_PROTOCOL, Expected(held), Expected(token));
  }

  lemma CountPair(a: string, b: string, wanted: string)
    ensures Count([a, b], wanted) == (if a == wanted then 1 else 0) + (if b == wanted then 1 else 0)
  {
    assert [a, b][..1] == [a];
    assert Count([a], wanted) == if a == wanted then 1 else 0;
  }
}
