/** UTF-8 (section 3 of RFC 3629), with a decoder that replaces what it cannot decode. */
module Utf8 {
  import opened Bytes

  /** A Unicode scalar value: any code point but a surrogate. */
  type Scalar = c: int | 0 <= c < 0xD800 || 0xE000 <= c < 0x110000

  type Text = seq<Scalar>

  const REPLACEMENT: Scalar := 0xFFFD

  function EncodeOne(c: Scalar): (bytes: Octets)
    ensures 1 <= |bytes| <= 4
  {
    if c < 0x80 then [c]
    else if c < 0x800 then [0xC0 + c / 0x40, 0x80 + c % 0x40]
    else if c < 0x10000 then [0xE0 + c / 0x1000, 0x80 + c / 0x40 % 0x40, 0x80 + c % 0x40]
    else [0xF0 + c / 0x40000, 0x80 + c / 0x1000 % 0x40, 0x80 + c / 0x40 % 0x40, 0x80 + c % 0x40]
  }

  function Encode(text: Text): Octets {
    if text == [] then [] else EncodeOne(text[0]) + Encode(text[1..])
  }

  predicate Continuation(b: byte) { 0x80 <= b < 0xC0 }

  /** How many bytes a sequence with this first byte has; 0 for a byte that starts none. */
  function Length(first: byte): (n: nat)
    ensures n <= 4
  {
    if first < 0x80 then 1
    else if 0xC2 <= first < 0xE0 then 2
    else if 0xE0 <= first < 0xF0 then 3
    else if 0xF0 <= first < 0xF5 then 4
    else 0
  }

  /** The second byte is restricted where overlong forms, surrogates and values past the end would start. */
  predicate SecondOk(first: byte, b: byte) {
    && Continuation(b)
    && (first == 0xE0 ==> b >= 0xA0) && (first == 0xED ==> b < 0xA0)
    && (first == 0xF0 ==> b >= 0x90) && (first == 0xF4 ==> b < 0x90)
  }

  /** How many leading bytes are the start of some encoded scalar. */
  function GoodPrefix(bytes: Octets): (n: nat)
    requires bytes != []
    ensures n <= |bytes| && n <= Length(bytes[0])
  {
    var length := Length(bytes[0]);
    if length == 0 then 0
    else if length == 1 || |bytes| == 1 || !SecondOk(bytes[0], bytes[1]) then 1
    else if length == 2 || |bytes| == 2 || !Continuation(bytes[2]) then 2
    else if length == 3 || |bytes| == 3 || !Continuation(bytes[3]) then 3
    else 4
  }

  function ValueOf(bytes: Octets): Scalar
    requires bytes != [] && 0 < GoodPrefix(bytes) == Length(bytes[0])
  {
    var n, first: int := Length(bytes[0]), bytes[0];
    if n == 1 then first
    else
      var second: int := bytes[1];
      if n == 2 then (first - 0xC0) * 0x40 + (second - 0x80)
      else
        var third: int := bytes[2];
        if n == 3 then (first - 0xE0) * 0x1000 + (second - 0x80) * 0x40 + (third - 0x80)
        else
          var fourth: int := bytes[3];
          (first - 0xF0) * 0x40000 + (second - 0x80) * 0x1000 + (third - 0x80) * 0x40 + (fourth - 0x80)
  }

  /** errors="replace": every maximal ill-formed start becomes one replacement character, and so does a
      byte that can start nothing. */
  function DecodeReplace(bytes: Octets): Text {
    if bytes == [] then []
    else
      var n := GoodPrefix(bytes);
      if n == 0 then [REPLACEMENT] + DecodeReplace(bytes[1..])
      else if n == Length(bytes[0]) then [ValueOf(bytes)] + DecodeReplace(bytes[n..])
      else [REPLACEMENT] + DecodeReplace(bytes[n..])
  }

  lemma EncodedOne(c: Scalar, rest: Octets)
    ensures var bytes := EncodeOne(c) + rest;
            && GoodPrefix(bytes) == |EncodeOne(c)| == Length(bytes[0]) && ValueOf(bytes) == c
  {
    var bytes := EncodeOne(c) + rest;
    if 0x800 <= c < 0x10000 {
      assert c / 0x40 / 0x40 == c / 0x1000;
    } else if 0x10000 <= c {
      assert c / 0x40 / 0x40 == c / 0x1000 && c / 0x1000 / 0x40 == c / 0x40000;
    }
  }

  lemma {:induction false} RoundTrip(text: Text)
    ensures DecodeReplace(Encode(text)) == text
  {
    if text != [] {
      var one, rest := EncodeOne(text[0]), Encode(text[1..]);
      EncodedOne(text[0], rest);
      assert (one + rest)[|one|..] == rest;
      RoundTrip(text[1..]);
    }
  }

  /** No byte is replaced. */
  predicate WellFormed(bytes: Octets) {
    bytes == [] ||
    (var n := GoodPrefix(bytes); 0 < n == Length(bytes[0]) && WellFormed(bytes[n..]))
  }

  lemma LastDigit(q: int, r: int)
    requires 0 <= r < 0x40
    ensures (q * 0x40 + r) / 0x40 == q && (q * 0x40 + r) % 0x40 == r
  { }

  lemma ThreeDigits(a: int, b: int, c: int)
    requires 0 <= b < 0x40 && 0 <= c < 0x40
    ensures var v := a * 0x1000 + b * 0x40 + c;
            v / 0x1000 == a && v / 0x40 % 0x40 == b && v % 0x40 == c && v / 0x40 == a * 0x40 + b
  {
    var v := a * 0x1000 + b * 0x40 + c;
    LastDigit(a * 0x40 + b, c);
    assert v == (a * 0x40 + b) * 0x40 + c;
    LastDigit(a, b);
    assert v / 0x1000 == v / 0x40 / 0x40;
  }

  lemma FourDigits(a: int, b: int, c: int, d: int)
    requires 0 <= b < 0x40 && 0 <= c < 0x40 && 0 <= d < 0x40
    ensures var v := a * 0x40000 + b * 0x1000 + c * 0x40 + d;
            v / 0x40000 == a && v / 0x1000 % 0x40 == b && v / 0x40 % 0x40 == c && v % 0x40 == d
  {
    var v := a * 0x40000 + b * 0x1000 + c * 0x40 + d;
    ThreeDigits(a * 0x40 + b, c, d);
    assert v == (a * 0x40 + b) * 0x1000 + c * 0x40 + d;
    LastDigit(a, b);
    assert v / 0x40000 == v / 0x1000 / 0x40;
  }

  lemma EncodedValue(bytes: Octets)
    requires bytes != [] && 0 < GoodPrefix(bytes) == Length(bytes[0])
    ensures EncodeOne(ValueOf(bytes)) == bytes[..Length(bytes[0])]
  {
    var n, c: int, first: int := Length(bytes[0]), ValueOf(bytes), bytes[0];
    if n >= 2 {
      var second: int := bytes[1] - 0x80;
      if n == 2 {
        LastDigit(first - 0xC0, second);
      } else {
        var third: int := bytes[2] - 0x80;
        if n == 3 {
          ThreeDigits(first - 0xE0, second, third);
        } else {
          var fourth: int := bytes[3] - 0x80;
          FourDigits(first - 0xF0, second, third, fourth);
        }
      }
    }
  }

  lemma {:induction false} EncodedIsWellFormed(text: Text)
    ensures WellFormed(Encode(text))
  {
    if text != [] {
      var one, rest := EncodeOne(text[0]), Encode(text[1..]);
      EncodedOne(text[0], rest);
      assert (one + rest)[|one|..] == rest;
      EncodedIsWellFormed(text[1..]);
    }
  }

  lemma {:induction false} DecodedEncodes(bytes: Octets)
    requires WellFormed(bytes)
    ensures Encode(DecodeReplace(bytes)) == bytes
  {
    hide EncodeOne, ValueOf, GoodPrefix;
    if bytes != [] {
      var n := GoodPrefix(bytes);
      EncodedValue(bytes);
      DecodedEncodes(bytes[n..]);
      assert DecodeReplace(bytes)[1..] == DecodeReplace(bytes[n..]);
      assert bytes == bytes[..n] + bytes[n..];
    }
  }

  /** Decoding loses nothing exactly on what some text encodes to. */
  lemma LosslessIffWellFormed(bytes: Octets)
    ensures Encode(DecodeReplace(bytes)) == bytes <==> WellFormed(bytes)
  {
    if WellFormed(bytes) { DecodedEncodes(bytes); }
    EncodedIsWellFormed(DecodeReplace(bytes));
  }

  /** A second byte that is allowed after this first one. */
  function SecondFor(first: byte): (b: byte)
    ensures SecondOk(first, b)
  {
    if first == 0xE0 then 0xA0 else if first == 0xF0 then 0x90 else 0x80
  }

  lemma CompletedStart(bytes: Octets, k: nat) returns (c: Scalar)
    requires bytes != [] && 0 < k <= GoodPrefix(bytes)
    ensures k <= |EncodeOne(c)| && EncodeOne(c)[..k] == bytes[..k]
  {
    var n := Length(bytes[0]);
    var second := if k >= 2 then bytes[1] else SecondFor(bytes[0]);
    var third: byte := if k >= 3 then bytes[2] else 0x80;
    var fourth: byte := if k >= 4 then bytes[3] else 0x80;
    var whole: Octets := [bytes[0], second, third, fourth];
    assert GoodPrefix(whole) == n;
    EncodedValue(whole);
    c := ValueOf(whole);
    assert bytes[..k] == whole[..k] && whole[..n][..k] == whole[..k];
  }

  lemma StartIsGood(bytes: Octets, k: nat, c: Scalar)
    requires bytes != [] && k <= |bytes| && k <= |EncodeOne(c)| && EncodeOne(c)[..k] == bytes[..k]
    ensures k <= GoodPrefix(bytes)
  {
    var one := EncodeOne(c);
    EncodedOne(c, []);
    assert one + [] == one;
    assert forall i | 0 <= i < k :: one[..k][i] == one[i] && bytes[..k][i] == bytes[i];
    assert k > 0 ==> one[0] == bytes[0];
    assert k > 1 ==> one[1] == bytes[1];
    assert k > 2 ==> one[2] == bytes[2];
    assert k > 3 ==> one[3] == bytes[3];
  }

  /** What one replacement character stands for is the longest start of an encoded scalar (or a single
      byte that starts none). */
  lemma MaximalStart(bytes: Octets, k: nat)
    requires bytes != [] && 0 < k <= |bytes|
    ensures k <= GoodPrefix(bytes) <==> exists c: Scalar :: k <= |EncodeOne(c)| && EncodeOne(c)[..k] == bytes[..k]
  {
    if k <= GoodPrefix(bytes) {
      var c := CompletedStart(bytes, k);
    }
    forall c: Scalar | k <= |EncodeOne(c)| && EncodeOne(c)[..k] == bytes[..k] ensures k <= GoodPrefix(bytes) {
      StartIsGood(bytes, k, c);
    }
  }

  /** Some scalar's encoding begins with the first k bytes. */
  ghost predicate Starts(bytes: Octets, k: nat)
    requires k <= |bytes|
  {
    exists c: Scalar :: k <= |EncodeOne(c)| && EncodeOne(c)[..k] == bytes[..k]
  }

  /** An encoded scalar is decoded, wherever it stands. */
  lemma DecodeScalar(c: Scalar, rest: Octets)
    ensures DecodeReplace(EncodeOne(c) + rest) == [c] + DecodeReplace(rest)
  {
    EncodedOne(c, rest);
    assert (EncodeOne(c) + rest)[|EncodeOne(c)|..] == rest;
  }

  /** Where none stands, one replacement character takes the longest start of a scalar, or a byte that
      starts none, and decoding goes on behind it. */
  lemma DecodeStray(bytes: Octets, k: nat)
    requires 0 < k <= |bytes| && !HoldsScalar(bytes)
    requires (k == 1 || Starts(bytes, k)) && forall j | k < j <= |bytes| :: !Starts(bytes, j)
    ensures DecodeReplace(bytes) == [REPLACEMENT] + DecodeReplace(bytes[k..])
  {
    hide HoldsScalar, Starts, GoodPrefix, Length, ValueOf, DecodeReplace;
    DecodeNext(bytes);
    StartsIff(bytes, k);
    if GoodPrefix(bytes) > 0 {
      StartsIff(bytes, GoodPrefix(bytes));
      if GoodPrefix(bytes) == Length(bytes[0]) { WholeScalar(bytes); }
    }
  }

  lemma DecodeNext(bytes: Octets)
    requires bytes != []
    ensures var n := GoodPrefix(bytes);
            DecodeReplace(bytes) ==
            if n > 0 && n == Length(bytes[0]) then [ValueOf(bytes)] + DecodeReplace(bytes[n..])
            else [REPLACEMENT] + DecodeReplace(bytes[if n == 0 then 1 else n..])
  { }

  ghost predicate HoldsScalar(bytes: Octets) { exists c: Scalar :: EncodeOne(c) <= bytes }

  lemma WholeScalar(bytes: Octets)
    requires bytes != [] && 0 < GoodPrefix(bytes) == Length(bytes[0])
    ensures HoldsScalar(bytes)
  {
    EncodedValue(bytes);
    assert EncodeOne(ValueOf(bytes)) <= bytes;
  }

  lemma StartsIff(bytes: Octets, k: nat)
    requires 0 < k <= |bytes|
    ensures Starts(bytes, k) <==> k <= GoodPrefix(bytes)
  {
    MaximalStart(bytes, k);
  }

  lemma {:induction false} EncodeJoin(a: Text, b: Text)
    ensures Encode(a + b) == Encode(a) + Encode(b)
  {
    if a == [] {
      assert a + b == b;
    } else {
      assert (a + b)[1..] == a[1..] + b;
      EncodeJoin(a[1..], b);
    }
  }

  function Replacements(k: nat): (text: Text)
    ensures |text| == k && forall c | c in text :: c == REPLACEMENT
  {
    seq(k, _ => REPLACEMENT)
  }

  lemma {:induction false} EncodedReplacements(k: nat)
    ensures |Encode(Replacements(k))| == 3 * k
  {
    if k > 0 {
      assert Replacements(k)[1..] == Replacements(k - 1);
      EncodedReplacements(k - 1);
    }
  }

  lemma {:induction false} StrayBytes(stray: Octets, rest: Octets)
    requires forall b | b in stray :: Continuation(b)
    ensures DecodeReplace(stray + rest) == Replacements(|stray|) + DecodeReplace(rest)
  {
    if stray == [] {
      assert stray + rest == rest;
    } else {
      var bytes := stray + rest;
      assert bytes[1..] == stray[1..] + rest;
      StrayBytes(stray[1..], rest);
      assert Continuation(bytes[0]);
      assert DecodeReplace(bytes) == [REPLACEMENT] + DecodeReplace(bytes[1..]);
      assert Replacements(|stray|) == [REPLACEMENT] + Replacements(|stray| - 1);
      assert [REPLACEMENT] + (Replacements(|stray| - 1) + DecodeReplace(rest))
             == Replacements(|stray|) + DecodeReplace(rest);
    }
  }

  lemma InsideOne(c: Scalar, i: nat)
    requires 0 < i < |EncodeOne(c)|
    ensures Continuation(EncodeOne(c)[i])
  { }

  /** A cut anywhere in an encoded text leaves at most three stray bytes before whole characters. */
  lemma {:induction false} Cut(text: Text, at: nat) returns (stray: Octets, from: nat)
    requires at <= |Encode(text)|
    ensures |stray| <= 3 && (forall b | b in stray :: Continuation(b)) && from <= |text|
    ensures Encode(text)[at..] == stray + Encode(text[from..])
    ensures |Encode(text)| - at == |stray| + |Encode(text[from..])|
    ensures at > 0 ==> from > 0 && |Encode(text[from - 1..])| > |Encode(text)| - at
    ensures at == 0 ==> from == 0
  {
    if at == 0 {
      assert text[0..] == text && Encode(text)[0..] == [] + Encode(text);
      return [], 0;
    }
    var one, rest := EncodeOne(text[0]), Encode(text[1..]);
    if at <= |one| {
      stray, from := one[at..], 1;
      forall b | b in stray ensures Continuation(b) {
        var i :| 0 <= i < |stray| && stray[i] == b;
        InsideOne(text[0], at + i);
      }
      assert (one + rest)[at..] == one[at..] + rest;
      assert text[0..] == text;
    } else {
      stray, from := Cut(text[1..], at - |one|);
      assert (one + rest)[at..] == rest[at - |one|..];
      assert text[1..][from..] == text[from + 1..];
      assert from > 0 ==> text[1..][from - 1..] == text[from..];
      from := from + 1;
    }
  }
}
