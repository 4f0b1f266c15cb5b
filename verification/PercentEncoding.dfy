/** Percent-encoding (section 2.1 of RFC 3986) of texts through UTF-8. */
module PercentEncoding {
  import opened Bytes
  import opened Utf8

  const PERCENT: Scalar := 0x25
  const SLASH: Scalar := 0x2F
  const COLON: Scalar := 0x3A

  predicate IsDigit(c: int) { 0x30 <= c <= 0x39 }

  predicate IsUnreserved(c: int) {
    IsDigit(c) || 0x41 <= c <= 0x5A || 0x61 <= c <= 0x7A || c == 0x2D || c == 0x2E || c == 0x5F || c == 0x7E
  }

  predicate IsHexDigit(c: int) { IsDigit(c) || 0x41 <= c <= 0x46 || 0x61 <= c <= 0x66 }

  function HexDigit(v: int): (c: Scalar)
    requires 0 <= v < 16
    ensures IsHexDigit(c) && c != PERCENT
  {
    if v < 10 then 0x30 + v else 0x41 + v - 10
  }

  function HexValue(c: int): (v: int)
    requires IsHexDigit(c)
    ensures 0 <= v < 16
  {
    if IsDigit(c) then c - 0x30 else if c >= 0x61 then c - 0x61 + 10 else c - 0x41 + 10
  }

  /** The bytes that quote leaves alone: unreserved, the slash, and the colon where it is declared safe. */
  predicate IsSafe(b: byte, colon: bool) { IsUnreserved(b) || b == SLASH || (colon && b == COLON) }

  function QuoteByte(b: byte, colon: bool): (text: Text)
    ensures 1 <= |text| <= 3
  {
    if IsSafe(b, colon) then var c: int := b; [c] else [PERCENT, HexDigit(b / 16), HexDigit(b % 16)]
  }

  function QuoteBytes(bytes: Octets, colon: bool): Text {
    if bytes == [] then [] else QuoteByte(bytes[0], colon) + QuoteBytes(bytes[1..], colon)
  }

  function Quote(text: Text, colon: bool): Text { QuoteBytes(Encode(text), colon) }

  /** A percent sign and two hex digits. */
  predicate EscapeAt(text: Text, i: nat) {
    i + 2 < |text| && text[i] == PERCENT && IsHexDigit(text[i + 1]) && IsHexDigit(text[i + 2])
  }

  ghost predicate HasEscape(text: Text) { exists i :: EscapeAt(text, i) }

  predicate IsAscii(text: Text) { forall i | 0 <= i < |text| :: text[i] < 0x80 }

  /** Escapes become their byte; everything else stays. */
  function UnquoteToBytes(text: Text): (bytes: Octets)
    requires IsAscii(text)
    ensures |bytes| <= |text|
  {
    if text == [] then []
    else if EscapeAt(text, 0) then [HexValue(text[1]) * 16 + HexValue(text[2])] + UnquoteToBytes(text[3..])
    else
      var c: int := text[0];
      [c] + UnquoteToBytes(text[1..])
  }

  function AsciiRun(text: Text): (n: nat)
    ensures n <= |text| && IsAscii(text[..n]) && (n < |text| ==> text[n] >= 0x80)
  {
    if text == [] || text[0] >= 0x80 then 0
    else
      var n := AsciiRun(text[1..]);
      assert text[..n + 1] == [text[0]] + text[1..][..n];
      n + 1
  }

  /** Every run of ASCII characters is unescaped and decoded with replacement; other characters stay. */
  function Unquote(text: Text): Text {
    if text == [] then []
    else if text[0] >= 0x80 then [text[0]] + Unquote(text[1..])
    else
      var n := AsciiRun(text);
      assert n > 0;
      DecodeReplace(UnquoteToBytes(text[..n])) + Unquote(text[n..])
  }

  // ---------------------------------------------------------------- quoting and back

  lemma {:induction false} QuoteJoin(a: Octets, b: Octets, colon: bool)
    ensures QuoteBytes(a + b, colon) == QuoteBytes(a, colon) + QuoteBytes(b, colon)
  {
    if a == [] {
      assert a + b == b;
    } else {
      assert (a + b)[1..] == a[1..] + b;
      QuoteJoin(a[1..], b, colon);
    }
  }

  predicate QuotedChar(c: int) { IsUnreserved(c) || c == SLASH || c == COLON || c == PERCENT }

  lemma {:induction false} QuotedChars(bytes: Octets, colon: bool)
    ensures forall i | 0 <= i < |QuoteBytes(bytes, colon)| :: QuotedChar(QuoteBytes(bytes, colon)[i])
    ensures IsAscii(QuoteBytes(bytes, colon))
  {
    if bytes != [] { QuotedChars(bytes[1..], colon); }
  }

  lemma UnquoteOne(b: byte, colon: bool, rest: Text)
    requires IsAscii(rest)
    ensures IsAscii(QuoteByte(b, colon) + rest)
    ensures UnquoteToBytes(QuoteByte(b, colon) + rest) == [b] + UnquoteToBytes(rest)
  {
    var text := QuoteByte(b, colon) + rest;
    if IsSafe(b, colon) {
      assert text[0] != PERCENT && text[1..] == rest;
    } else {
      assert EscapeAt(text, 0) && text[3..] == rest;
      assert HexValue(text[1]) == b / 16 && HexValue(text[2]) == b % 16;
    }
  }

  lemma {:induction false} UnquotedPrefix(bytes: Octets, colon: bool, rest: Text)
    requires IsAscii(rest)
    ensures IsAscii(QuoteBytes(bytes, colon) + rest)
    ensures UnquoteToBytes(QuoteBytes(bytes, colon) + rest) == bytes + UnquoteToBytes(rest)
  {
    hide UnquoteToBytes, QuoteByte;
    if bytes == [] {
      assert QuoteBytes(bytes, colon) + rest == rest;
    } else {
      UnquotedPrefix(bytes[1..], colon, rest);
      UnquoteOne(bytes[0], colon, QuoteBytes(bytes[1..], colon) + rest);
      assert QuoteBytes(bytes, colon) + rest == QuoteByte(bytes[0], colon) + (QuoteBytes(bytes[1..], colon) + rest);
      assert bytes + UnquoteToBytes(rest) == [bytes[0]] + (bytes[1..] + UnquoteToBytes(rest));
    }
  }

  lemma UnquotedBytes(bytes: Octets, colon: bool)
    ensures IsAscii(QuoteBytes(bytes, colon)) && UnquoteToBytes(QuoteBytes(bytes, colon)) == bytes
  {
    UnquotedPrefix(bytes, colon, []);
    assert QuoteBytes(bytes, colon) + [] == QuoteBytes(bytes, colon);
  }

  lemma AsciiRunAll(text: Text)
    requires IsAscii(text)
    ensures AsciiRun(text) == |text|
  { }

  lemma UnquoteAscii(text: Text)
    requires IsAscii(text)
    ensures Unquote(text) == DecodeReplace(UnquoteToBytes(text))
  {
    if text != [] {
      AsciiRunAll(text);
      assert text[..|text|] == text && text[|text|..] == [];
    }
  }

  /** Unquoting once undoes quoting, whatever the text. */
  lemma UnquoteQuote(text: Text, colon: bool)
    ensures Unquote(Quote(text, colon)) == text
  {
    UnquotedBytes(Encode(text), colon);
    UnquoteAscii(Quote(text, colon));
    RoundTrip(text);
  }

  // ---------------------------------------------------------------- unquoting twice

  lemma {:induction false} DecodeNotLonger(bytes: Octets)
    ensures |DecodeReplace(bytes)| <= |bytes|
  {
    if bytes != [] {
      var n := GoodPrefix(bytes);
      DecodeNotLonger(bytes[if n == 0 then 1 else n..]);
    }
  }

  lemma {:induction false} DecodeAscii(text: Text, bytes: Octets)
    requires IsAscii(text) && |bytes| == |text| && forall i | 0 <= i < |text| :: bytes[i] == text[i]
    ensures DecodeReplace(bytes) == text
  {
    if text != [] {
      DecodeAscii(text[1..], bytes[1..]);
    }
  }

  lemma {:induction false} UnquoteWithout(text: Text)
    requires IsAscii(text) && !HasEscape(text)
    ensures var bytes := UnquoteToBytes(text);
            |bytes| == |text| && forall i | 0 <= i < |text| :: bytes[i] == text[i]
  {
    if text != [] {
      forall i: nat ensures !EscapeAt(text[1..], i) { assert EscapeAt(text[1..], i) ==> EscapeAt(text, i + 1); }
      assert !EscapeAt(text, 0);
      UnquoteWithout(text[1..]);
    }
  }

  lemma {:induction false} UnquoteShorter(text: Text, i: nat)
    requires IsAscii(text) && EscapeAt(text, i)
    ensures |UnquoteToBytes(text)| < |text|
  {
    if !EscapeAt(text, 0) {
      assert EscapeAt(text[1..], i - 1);
      UnquoteShorter(text[1..], i - 1);
    }
  }

  lemma RunFixed(run: Text)
    requires IsAscii(run)
    ensures DecodeReplace(UnquoteToBytes(run)) == run <==> !HasEscape(run)
    ensures |DecodeReplace(UnquoteToBytes(run))| <= |run|
    ensures HasEscape(run) ==> |DecodeReplace(UnquoteToBytes(run))| < |run|
  {
    DecodeNotLonger(UnquoteToBytes(run));
    if HasEscape(run) {
      var i :| EscapeAt(run, i);
      UnquoteShorter(run, i);
    } else {
      UnquoteWithout(run);
      DecodeAscii(run, UnquoteToBytes(run));
    }
  }

  /** No escape spans a character that is not ASCII. */
  lemma EscapeSplit(text: Text, n: nat)
    requires n <= |text| && (n < |text| ==> text[n] >= 0x80)
    ensures HasEscape(text) <==> HasEscape(text[..n]) || HasEscape(text[n..])
  {
    if i: nat :| EscapeAt(text[..n], i) { assert EscapeAt(text, i); }
    if i: nat :| EscapeAt(text[n..], i) { assert EscapeAt(text, n + i); }
    if i: nat :| EscapeAt(text, i) {
      assert text[i..i + 3] == [text[i], text[i + 1], text[i + 2]];
      if i + 2 < n { assert EscapeAt(text[..n], i); } else if i >= n { assert EscapeAt(text[n..], i - n); }
    }
  }

  lemma {:induction false} UnquoteNotLonger(text: Text)
    ensures |Unquote(text)| <= |text|
  {
    if text != [] {
      if text[0] >= 0x80 {
        UnquoteNotLonger(text[1..]);
      } else {
        var n := AsciiRun(text);
        DecodeNotLonger(UnquoteToBytes(text[..n]));
        UnquoteNotLonger(text[n..]);
      }
    }
  }

  /** Unquoting leaves a text alone exactly when it holds no escape; any escape makes it shorter. */
  lemma {:induction false} UnquoteFixed(text: Text)
    ensures Unquote(text) == text <==> !HasEscape(text)
    ensures HasEscape(text) ==> |Unquote(text)| < |text|
  {
    hide UnquoteToBytes, DecodeReplace, HasEscape, EscapeAt;
    if text == [] {
      NoEscapeInEmpty();
    } else if text[0] >= 0x80 {
      UnquoteFixed(text[1..]);
      EscapeSkip(text);
    } else {
      var n := AsciiRun(text);
      RunFixed(text[..n]);
      UnquoteFixed(text[n..]);
      UnquoteNotLonger(text[n..]);
      EscapeSplit(text, n);
      SplitEqual(DecodeReplace(UnquoteToBytes(text[..n])), Unquote(text[n..]), text, n);
    }
  }

  lemma NoEscapeInEmpty()
    ensures !HasEscape([])
  { }

  lemma EscapeSkip(text: Text)
    requires text != [] && text[0] >= 0x80
    ensures HasEscape(text) <==> HasEscape(text[1..])
  {
    if i: nat :| EscapeAt(text[1..], i) { assert EscapeAt(text, i + 1); }
    if i: nat :| EscapeAt(text, i) { assert EscapeAt(text[1..], i - 1); }
  }

  lemma SplitEqual(a: Text, b: Text, text: Text, n: nat)
    requires n <= |text| && |a| <= n && |b| <= |text| - n
    ensures a + b == text <==> a == text[..n] && b == text[n..]
  {
    if a + b == text {
      assert |a| + |b| == |text|;
      assert a == (a + b)[..n] && b == (a + b)[n..];
    }
  }

  /** A byte is quoted exactly when it is none of these characters; the colon where it is not declared safe. */
  lemma QuotedIff(b: byte, colon: bool)
    ensures var c := b as char;
            QuoteByte(b, colon) == [b as int] <==>
              'a' <= c <= 'z' || 'A' <= c <= 'Z' || '0' <= c <= '9' || c in "-._~/" || (colon && c == ':')
  { }

  // ---------------------------------------------------------------- what unquoting does to any text

  /** Both cases of a hex digit mean the same, and the digits are told apart. */
  lemma HexCases(v: int, c: int)
    requires 0 <= v < 16 && IsHexDigit(c)
    ensures HexValue(HexDigit(v)) == v && (0x41 <= c <= 0x46 ==> HexValue(c + 0x20) == HexValue(c))
    ensures 0x41 <= c <= 0x66 ==> HexValue(c) >= 10
  { }

  /** An escape becomes its byte and any other character stays, wherever the rest begins. */
  lemma UnescapeFirst(text: Text)
    requires IsAscii(text) && text != []
    ensures UnquoteToBytes(text) ==
            if EscapeAt(text, 0) then [HexValue(text[1]) * 16 + HexValue(text[2])] + UnquoteToBytes(text[3..])
            else [text[0] as int] + UnquoteToBytes(text[1..])
  { }

  /** A character that is not ASCII stays, and separates what is unquoted before and behind it. */
  lemma {:induction false} UnquoteAround(a: Text, c: Scalar, b: Text)
    requires c >= 0x80
    ensures Unquote(a + [c] + b) == Unquote(a) + [c] + Unquote(b)
  {
    hide Unquote, AsciiRun, UnquoteToBytes, DecodeReplace;
    var text := a + [c] + b;
    if a == [] {
      assert text[1..] == b;
      UnquoteNone();
      UnquoteSkip(text);
    } else if a[0] >= 0x80 {
      assert text[1..] == a[1..] + [c] + b;
      UnquoteAround(a[1..], c, b);
      UnquoteSkip(text);
      UnquoteSkip(a);
    } else {
      var n := AsciiRun(a);
      RunStops(a, [c] + b);
      assert a + ([c] + b) == text;
      UnquoteRun(text, n);
      UnquoteRun(a, n);
      assert text[..n] == a[..n] && text[n..] == a[n..] + [c] + b;
      UnquoteAround(a[n..], c, b);
    }
  }

  lemma UnquoteNone()
    ensures Unquote([]) == []
  { }

  lemma UnquoteSkip(text: Text)
    requires text != [] && text[0] >= 0x80
    ensures Unquote(text) == [text[0]] + Unquote(text[1..])
  { }

  lemma UnquoteRun(text: Text, n: nat)
    requires text != [] && text[0] < 0x80 && n == AsciiRun(text)
    ensures n > 0 && Unquote(text) == DecodeReplace(UnquoteToBytes(text[..n])) + Unquote(text[n..])
  { }

  lemma {:induction false} RunStops(a: Text, b: Text)
    requires b != [] && b[0] >= 0x80
    ensures AsciiRun(a + b) == AsciiRun(a)
  {
    if a == [] {
      assert a + b == b;
    } else if a[0] < 0x80 {
      assert (a + b)[1..] == a[1..] + b;
      RunStops(a[1..], b);
    }
  }

  lemma UnquoteHead(text: Text)
    requires text != [] && text[0] == SLASH
    ensures Unquote(text) != [] && Unquote(text)[0] == SLASH
  {
    var n := AsciiRun(text);
    assert text[..n][0] == SLASH;
    var bytes := UnquoteToBytes(text[..n]);
    assert bytes[0] == SLASH;
  }
}
