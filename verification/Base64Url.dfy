/** The URL-safe base64 alphabet (section 5 of RFC 4648), written without padding and read leniently. */
module Base64Url {
  import opened Wrappers
  import opened Bytes

  type Sextet = v: int | 0 <= v < 64

  function CharOf(v: Sextet): char {
    if v < 26 then 'A' + v as char
    else if v < 52 then 'a' + (v - 26) as char
    else if v < 62 then '0' + (v - 52) as char
    else if v == 62 then '-' else '_'
  }

  /** The decoder reads both alphabets. */
  function SextetOf(c: char): Option<Sextet> {
    if 'A' <= c <= 'Z' then Some((c - 'A') as int)
    else if 'a' <= c <= 'z' then Some((c - 'a') as int + 26)
    else if '0' <= c <= '9' then Some((c - '0') as int + 52)
    else if c == '-' || c == '+' then Some(62)
    else if c == '_' || c == '/' then Some(63)
    else None
  }

  lemma CharRoundTrip(v: Sextet)
    ensures SextetOf(CharOf(v)) == Some(v) && CharOf(v) != '=' && CharOf(v) as int < 128
  { }

  function EncodePadded(bytes: Octets): (s: string)
    ensures |s| % 4 == 0
  {
    if bytes == [] then ""
    else
      var a: int := bytes[0];
      if |bytes| == 1 then [CharOf(a / 4), CharOf(a % 4 * 16), '=', '=']
      else
        var b: int := bytes[1];
        if |bytes| == 2 then [CharOf(a / 4), CharOf(a % 4 * 16 + b / 16), CharOf(b % 16 * 4), '=']
        else
          var c: int := bytes[2];
          [CharOf(a / 4), CharOf(a % 4 * 16 + b / 16), CharOf(b % 16 * 4 + c / 64), CharOf(c % 64)] +
              EncodePadded(bytes[3..])
  }

  /** rstrip("="). */
  function Stripped(s: string): string {
    if s != "" && s[|s| - 1] == '=' then Stripped(s[..|s| - 1]) else s
  }

  function Encode(bytes: Octets): string { Stripped(EncodePadded(bytes)) }

  /** As many "=" as minus the length modulo 4. */
  function Padding(s: string): string {
    match (4 - |s| % 4) % 4
    case 0 => ""
    case 1 => "="
    case 2 => "=="
    case _ => "==="
  }

  /** The lenient reader: quad counts the characters of the current group, left holds the bits not yet
      written, pads the "=" seen since the last character. Other characters are skipped; enough padding
      ends the input. None is a padding error. */
  function Read(s: string, quad: nat, left: nat, pads: nat): Option<Octets>
    requires quad < 4 && left < 64 && (quad == 2 ==> left < 16) && (quad == 3 ==> left < 4)
  {
    if s == "" then (if quad == 0 then Some([]) else None)
    else if s[0] == '=' then
      if quad >= 2 && quad + pads + 1 >= 4 then Some([])
      else Read(s[1..], quad, left, if quad >= 2 then pads + 1 else pads)
    else if SextetOf(s[0]).None? then Read(s[1..], quad, left, pads)
    else
      var v: int := SextetOf(s[0]).value;
      match quad
      case 0 => Read(s[1..], 1, v, 0)
      case 1 => Then(left * 4 + v / 16, Read(s[1..], 2, v % 16, 0))
      case 2 => Then(left * 16 + v / 4, Read(s[1..], 3, v % 4, 0))
      case _ => Then(left * 64 + v, Read(s[1..], 0, 0, 0))
  }

  function Then(b: byte, rest: Option<Octets>): Option<Octets> {
    if rest.None? then None else Some([b] + rest.value)
  }

  function Decode(s: string): Option<Octets> { Read(s, 0, 0, 0) }

  // ---------------------------------------------------------------- round trip

  lemma ReadChar(v: Sextet, rest: string, quad: nat, left: nat, pads: nat)
    requires quad < 4 && left < 64 && (quad == 2 ==> left < 16) && (quad == 3 ==> left < 4)
    ensures Read([CharOf(v)] + rest, quad, left, pads) ==
            (match quad
             case 0 => Read(rest, 1, v, 0)
             case 1 => Then(left * 4 + v / 16, Read(rest, 2, v % 16, 0))
             case 2 => Then(left * 16 + v / 4, Read(rest, 3, v % 4, 0))
             case _ => Then(left * 64 + v, Read(rest, 0, 0, 0)))
  {
    hide CharOf, SextetOf, Then;
    CharRoundTrip(v);
    assert ([CharOf(v)] + rest)[1..] == rest;
  }

  lemma ReadGroup(a: byte, b: byte, c: byte, rest: string)
    ensures var group := [CharOf(a / 4), CharOf(a % 4 * 16 + b / 16), CharOf(b % 16 * 4 + c / 64), CharOf(c % 64)];
            Read(group + rest, 0, 0, 0) == Then(a, Then(b, Then(c, Read(rest, 0, 0, 0))))
  {
    hide Read, CharOf, Then;
    var v0: Sextet, v1: Sextet, v2: Sextet, v3: Sextet := a / 4, a % 4 * 16 + b / 16, b % 16 * 4 + c / 64, c % 64;
    var group := [CharOf(v0), CharOf(v1), CharOf(v2), CharOf(v3)];
    var r3 := [CharOf(v3)] + rest;
    var r2 := [CharOf(v2)] + r3;
    var r1 := [CharOf(v1)] + r2;
    assert group + rest == [CharOf(v0)] + r1;
    ReadChar(v0, r1, 0, 0, 0);
    ReadChar(v1, r2, 1, v0, 0);
    ReadChar(v2, r3, 2, v1 % 16, 0);
    ReadChar(v3, rest, 3, v2 % 4, 0);
    assert v0 * 4 + v1 / 16 == a && v1 % 16 * 16 + v2 / 4 == b && v2 % 4 * 64 + v3 == c;
  }

  lemma ReadLast(a: byte)
    ensures Read([CharOf(a / 4), CharOf(a % 4 * 16), '=', '='], 0, 0, 0) == Some([a])
  {
    hide CharOf, Read;
    var v0: Sextet, v1: Sextet := a / 4, a % 4 * 16;
    assert [CharOf(v0), CharOf(v1), '=', '='] == [CharOf(v0)] + ([CharOf(v1)] + "==");
    ReadChar(v0, [CharOf(v1)] + "==", 0, 0, 0);
    ReadChar(v1, "==", 1, v0, 0);
    assert v0 * 4 + v1 / 16 == a;
    ReadPads(2, v1 % 16);
    assert [a] + [] == [a];
  }

  lemma ReadPads(quad: nat, left: nat)
    requires (quad == 2 && left < 16) || (quad == 3 && left < 4)
    ensures quad == 2 ==> Read("==", quad, left, 0) == Some([])
    ensures quad == 3 ==> Read("=", quad, left, 0) == Some([])
  {
    assert "=="[1..] == "=";
    assert quad == 2 ==> Read("=", 2, left, 1) == Some([]);
  }

  lemma ReadLastTwo(a: byte, b: byte)
    ensures Read([CharOf(a / 4), CharOf(a % 4 * 16 + b / 16), CharOf(b % 16 * 4), '='], 0, 0, 0) == Some([a, b])
  {
    hide CharOf, Read;
    var v0: Sextet, v1: Sextet, v2: Sextet := a / 4, a % 4 * 16 + b / 16, b % 16 * 4;
    var r2 := [CharOf(v2)] + "=";
    var r1 := [CharOf(v1)] + r2;
    assert [CharOf(v0), CharOf(v1), CharOf(v2), '='] == [CharOf(v0)] + r1;
    ReadChar(v0, r1, 0, 0, 0);
    ReadChar(v1, r2, 1, v0, 0);
    ReadChar(v2, "=", 2, v1 % 16, 0);
    assert v0 * 4 + v1 / 16 == a && v1 % 16 * 16 + v2 / 4 == b;
    ReadPads(3, v2 % 4);
    assert [b] + [] == [b] && [a] + [b] == [a, b];
  }

  lemma {:induction false} PaddedRoundTrip(bytes: Octets)
    ensures Decode(EncodePadded(bytes)) == Some(bytes)
  {
    hide CharOf, Read;
    if |bytes| == 0 {
      assert Read("", 0, 0, 0) == Some([]) by { EmptyInput(); }
    } else if |bytes| == 1 {
      ReadLast(bytes[0]);
      assert bytes == [bytes[0]];
    } else if |bytes| == 2 {
      ReadLastTwo(bytes[0], bytes[1]);
      assert bytes == [bytes[0], bytes[1]];
    } else {
      PaddedRoundTrip(bytes[3..]);
      ReadGroup(bytes[0], bytes[1], bytes[2], EncodePadded(bytes[3..]));
      assert bytes == [bytes[0]] + ([bytes[1]] + ([bytes[2]] + bytes[3..]));
    }
  }

  lemma EmptyInput()
    ensures Read("", 0, 0, 0) == Some([])
  { }

  /** The characters that carry data. */
  function Core(bytes: Octets): (s: string)
    ensures bytes != [] ==> s != ""
    ensures |s| % 4 == (match |bytes| % 3 case 0 => 0 case 1 => 2 case _ => 3)
  {
    if bytes == [] then ""
    else
      var a: int := bytes[0];
      if |bytes| == 1 then [CharOf(a / 4), CharOf(a % 4 * 16)]
      else
        var b: int := bytes[1];
        if |bytes| == 2 then [CharOf(a / 4), CharOf(a % 4 * 16 + b / 16), CharOf(b % 16 * 4)]
        else
          var c: int := bytes[2];
          [CharOf(a / 4), CharOf(a % 4 * 16 + b / 16), CharOf(b % 16 * 4 + c / 64), CharOf(c % 64)] + Core(bytes[3..])
  }

  predicate Data(s: string) { forall c | c in s :: c != '=' && c as int < 128 }

  lemma {:induction false} CoreIsData(bytes: Octets)
    ensures Data(Core(bytes))
  {
    if |bytes| > 2 { CoreIsData(bytes[3..]); }
  }

  lemma {:induction false} PaddedCore(bytes: Octets)
    ensures EncodePadded(bytes) == Core(bytes) + Padding(Core(bytes))
  {
    hide CharOf;
    if |bytes| > 2 {
      PaddedCore(bytes[3..]);
      assert |Core(bytes)| == 4 + |Core(bytes[3..])|;
    }
  }

  lemma StripOne(s: string)
    ensures Stripped(s + "=") == Stripped(s)
  {
    assert (s + "=")[..|s|] == s;
  }

  lemma StripPadding(s: string)
    requires Data(s)
    ensures Stripped(s + Padding(s)) == s
  {
    assert Stripped(s) == s by { assert s != "" ==> s[|s| - 1] in s; }
    hide Stripped, Data;
    StripOne(s);
    StripOne(s + "=");
    StripOne(s + "==");
    assert s + "==" == (s + "=") + "=" && s + "===" == (s + "==") + "=" && s + "" == s;
  }

  /** Stripping the padding and rebuilding it from the length gives the padded form back. */
  lemma RepadStripped(bytes: Octets)
    ensures Encode(bytes) + Padding(Encode(bytes)) == EncodePadded(bytes)
    ensures (bytes == [] <==> Encode(bytes) == "") && Data(Encode(bytes))
  {
    PaddedCore(bytes);
    CoreIsData(bytes);
    StripPadding(Core(bytes));
  }

  /** Reading what was written, with the padding put back, returns the bytes. */
  lemma RoundTrip(bytes: Octets)
    ensures Decode(Encode(bytes) + Padding(Encode(bytes))) == Some(bytes)
  {
    RepadStripped(bytes);
    PaddedRoundTrip(bytes);
  }

  // ---------------------------------------------------------------- what else is read

  predicate InAlphabet(s: string) { forall i | 0 <= i < |s| :: SextetOf(s[i]).Some? }

  /** Characters of neither alphabet are skipped wherever they stand. */
  lemma {:induction false} JunkIsSkipped(a: string, c: char, b: string, quad: nat, left: nat, pads: nat)
    requires quad < 4 && left < 64 && (quad == 2 ==> left < 16) && (quad == 3 ==> left < 4)
    requires c != '=' && SextetOf(c).None?
    ensures Read(a + [c] + b, quad, left, pads) == Read(a + b, quad, left, pads)
  {
    hide SextetOf, Then;
    if a == "" {
      assert (a + [c] + b)[1..] == b && a + b == b;
    } else {
      assert (a + [c] + b)[1..] == a[1..] + [c] + b && (a + b)[1..] == a[1..] + b;
      if a[0] == '=' {
        JunkIsSkipped(a[1..], c, b, quad, left, if quad >= 2 then pads + 1 else pads);
      } else if SextetOf(a[0]).None? {
        JunkIsSkipped(a[1..], c, b, quad, left, pads);
      } else {
        var v: int := SextetOf(a[0]).value;
        JunkIsSkipped(a[1..], c, b, (quad + 1) % 4,
            match quad case 0 => v case 1 => v % 16 case 2 => v % 4 case _ => 0, 0);
      }
    }
  }

  function Equals(k: nat): (s: string)
    ensures |s| == k && forall i | 0 <= i < k :: s[i] == '='
  {
    seq(k, _ => '=')
  }

  /** Reading ends at the "=" that completes a group of at least two characters, whatever follows. */
  lemma {:induction false} ReadTail(k: nat, rest: string, quad: nat, left: nat, pads: nat)
    requires quad < 4 && left < 64 && (quad == 2 ==> left < 16) && (quad == 3 ==> left < 4)
    ensures quad >= 2 && k > 0 && quad + pads + k >= 4 ==> Read(Equals(k) + rest, quad, left, pads) == Some([])
    ensures quad < 2 || k == 0 || quad + pads + k < 4 ==>
              Read(Equals(k), quad, left, pads) == if quad == 0 then Some([]) else None
    decreases k
  {
    if k > 0 {
      assert (Equals(k) + rest)[1..] == Equals(k - 1) + rest && (Equals(k) + rest)[0] == '=';
      assert Equals(k)[1..] == Equals(k - 1);
      ReadTail(k - 1, rest, quad, left, if quad >= 2 then pads + 1 else pads);
    }
  }

  function After(bytes: Octets, rest: Option<Octets>): Option<Octets> {
    if rest.None? then None else Some(bytes + rest.value)
  }

  /** What stands behind characters of the alphabets does not change what they read as. */
  lemma {:induction false} ReadAlphabet(s: string, t: string, u: string, quad: nat, left: nat)
    returns (bytes: Octets, left': nat)
    requires InAlphabet(s) && quad < 4 && left < 64 && (quad == 2 ==> left < 16) && (quad == 3 ==> left < 4)
    ensures var last := (quad + |s|) % 4;
            && left' < 64 && (last == 2 ==> left' < 16) && (last == 3 ==> left' < 4)
            && Read(s + t, quad, left, 0) == After(bytes, Read(t, last, left', 0))
            && Read(s + u, quad, left, 0) == After(bytes, Read(u, last, left', 0))
  {
    hide SextetOf, Read;
    if s == "" {
      bytes, left' := [], left;
      assert s + t == t && s + u == u;
      AfterNothing(Read(t, quad, left, 0));
      AfterNothing(Read(u, quad, left, 0));
    } else {
      assert s[0] != '=' by { NoPad(s[0]); }
      assert (s + t)[1..] == s[1..] + t && (s + u)[1..] == s[1..] + u;
      var v: int := SextetOf(s[0]).value;
      var next := match quad case 0 => v case 1 => v % 16 case 2 => v % 4 case _ => 0;
      var rest: Octets;
      rest, left' := ReadAlphabet(s[1..], t, u, (quad + 1) % 4, next);
      bytes := (match quad case 0 => [] case 1 => [left * 4 + v / 16] case 2 => [left * 16 + v / 4]
                           case _ => [left * 64 + v]) + rest;
      ReadData(s + t, quad, left);
      ReadData(s + u, quad, left);
      AfterAfter(quad, left, v, rest, Read(t, (quad + |s|) % 4, left', 0));
      AfterAfter(quad, left, v, rest, Read(u, (quad + |s|) % 4, left', 0));
    }
  }

  lemma AfterNothing(rest: Option<Octets>)
    ensures After([], rest) == rest
  {
    if rest.Some? { assert [] + rest.value == rest.value; }
  }

  lemma AfterAfter(quad: nat, left: nat, v: nat, bytes: Octets, rest: Option<Octets>)
    requires quad < 4 && left < 64 && v < 64 && (quad == 2 ==> left < 16) && (quad == 3 ==> left < 4)
    ensures var first: Octets := match quad case 0 => [] case 1 => [left * 4 + v / 16]
                                            case 2 => [left * 16 + v / 4] case _ => [left * 64 + v];
            (if quad == 0 then After(bytes, rest) else Then(first[0], After(bytes, rest)))
            == After(first + bytes, rest)
  {
    if rest.Some? && quad == 0 { assert [] + bytes == bytes; }
    if rest.Some? && quad > 0 {
      var first: byte := match quad case 1 => left * 4 + v / 16 case 2 => left * 16 + v / 4 case _ => left * 64 + v;
      assert [first] + (bytes + rest.value) == [first] + bytes + rest.value;
    }
  }

  lemma ReadData(s: string, quad: nat, left: nat)
    requires quad < 4 && left < 64 && (quad == 2 ==> left < 16) && (quad == 3 ==> left < 4)
    requires s != "" && s[0] != '=' && SextetOf(s[0]).Some?
    ensures var v: int := SextetOf(s[0]).value;
            Read(s, quad, left, 0) ==
            match quad
            case 0 => Read(s[1..], 1, v, 0)
            case 1 => Then(left * 4 + v / 16, Read(s[1..], 2, v % 16, 0))
            case 2 => Then(left * 16 + v / 4, Read(s[1..], 3, v % 4, 0))
            case _ => Then(left * 64 + v, Read(s[1..], 0, 0, 0))
  { }

  lemma NoPad(c: char)
    requires SextetOf(c).Some?
    ensures c != '='
  { }

  /** A text over either alphabet followed by "=" signs decodes exactly when they complete its last group,
      and a group of one character cannot be completed. */
  lemma DecodesIffPadded(s: string, k: nat)
    requires InAlphabet(s)
    ensures Decode(s + Equals(k)).Some? <==> |s| % 4 == 0 || (|s| % 4 >= 2 && |s| % 4 + k >= 4)
  {
    hide Read;
    var _, left := ReadAlphabet(s, Equals(k), "", 0, 0);
    ReadTail(k, "", |s| % 4, left, 0);
    assert Equals(k) + "" == Equals(k);
  }

  /** More padding than needed, and anything behind it, is ignored. */
  lemma EndsAtPadding(s: string, k: nat, rest: string)
    requires InAlphabet(s) && |s| % 4 >= 2 && |s| % 4 + k >= 4
    ensures Decode(s + Equals(k) + rest) == Decode(s + Padding(s))
  {
    hide Read;
    var last, padding := |s| % 4, Equals(4 - |s| % 4);
    assert padding == Padding(s) && padding + "" == padding && s + Equals(k) + rest == s + (Equals(k) + rest);
    var _, left := ReadAlphabet(s, Equals(k) + rest, padding, 0, 0);
    ReadTail(k, rest, last, left, 0);
    ReadTail(4 - last, "", last, left, 0);
  }

  /** With its padding rebuilt, a text over either alphabet decodes unless its length is one more than a
      multiple of four. */
  lemma DecodesIffLength(s: string)
    requires InAlphabet(s)
    ensures Decode(s + Padding(s)).Some? <==> |s| % 4 != 1
  {
    DecodesIffPadded(s, |Padding(s)|);
    assert Equals(|Padding(s)|) == Padding(s);
  }
}
