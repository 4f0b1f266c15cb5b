/** The file names artifacts are retained under. */
module StoredNames {
  import opened Strings

  function Digit(n: nat): char
    requires n < 10
  {
    '0' + n as char
  }

  predicate IsDigit(c: char) { '0' <= c <= '9' }

  function Decimal(n: nat): (s: string)
    ensures s != [] && forall c | c in s :: IsDigit(c)
  {
    if n < 10 then [Digit(n)] else Decimal(n / 10) + [Digit(n % 10)]
  }

  /** The number a run of digits stands for. */
  function Value(s: string): nat
    requires forall c | c in s :: IsDigit(c)
  {
    if s == [] then 0
    else
      assert IsDigit(s[|s| - 1]);
      10 * Value(s[..|s| - 1]) + (s[|s| - 1] - '0') as nat
  }

  function ZeroFill(s: string, width: nat): (r: string)
    requires forall c | c in s :: IsDigit(c)
    ensures forall c | c in r :: IsDigit(c)
    decreases width - |s|
  {
    if |s| >= width then s else ZeroFill("0" + s, width)
  }

  lemma {:induction false} ValueOfZero(s: string)
    requires forall c | c in s :: IsDigit(c)
    ensures Value("0" + s) == Value(s)
  {
    if s == [] {
      assert "0" + s == "0";
      assert Value("0") == 10 * Value("0"[..0]) + 0;
    } else {
      assert ("0" + s)[..|"0" + s| - 1] == "0" + s[..|s| - 1];
      ValueOfZero(s[..|s| - 1]);
    }
  }

  lemma {:induction false} ValueOfFill(s: string, width: nat)
    requires forall c | c in s :: IsDigit(c)
    ensures Value(ZeroFill(s, width)) == Value(s)
    decreases width - |s|
  {
    if |s| < width {
      ValueOfZero(s);
      ValueOfFill("0" + s, width);
    }
  }

  lemma {:induction false} ValueOfDecimal(n: nat)
    ensures Value(Decimal(n)) == n
  {
    if n >= 10 {
      ValueOfDecimal(n / 10);
      assert Decimal(n)[..|Decimal(n)| - 1] == Decimal(n / 10);
    } else {
      assert Decimal(n)[..0] == [];
    }
  }

  /** The suffix of a path whose last component is this name. */
  function Suffix(name: string): string {
    var i := LastDot(name, |name|);
    if 0 < i < |name| - 1 then name[i..] else ""
  }

  predicate IsAlphanumeric(c: char) { IsDigit(c) || 'a' <= c <= 'z' || 'A' <= c <= 'Z' }

  predicate SafeSuffix(s: string) {
    2 <= |s| <= 11 && s[0] == '.' && forall c | c in s[1..] :: IsAlphanumeric(c)
  }

  function Lower(s: string): (r: string)
    ensures |r| == |s| && forall i | 0 <= i < |s| ::
              if 'A' <= s[i] <= 'Z' then 'a' <= r[i] <= 'z' && r[i] - 'a' == s[i] - 'A' else r[i] == s[i]
  {
    if s == [] then []
    else [if 'A' <= s[0] <= 'Z' then s[0] - 'A' + 'a' else s[0]] + Lower(s[1..])
  }

  /** Four-digit index, sixteen characters of the name's digest, and the suffix if it is a plain one. */
  function StoredName(index: nat, name: string, digest: string): string {
    ZeroFill(Decimal(index), 4) + "-" + digest + Lower(if SafeSuffix(Suffix(name)) then Suffix(name) else "")
  }

  function LeadingDigits(s: string): (r: string)
    ensures r <= s && forall c | c in r :: IsDigit(c)
  {
    if s == [] || !IsDigit(s[0]) then [] else [s[0]] + LeadingDigits(s[1..])
  }

  lemma {:induction false} LeadingDigitsStop(digits: string, rest: string)
    requires forall c | c in digits :: IsDigit(c)
    requires rest != [] && !IsDigit(rest[0])
    ensures LeadingDigits(digits + rest) == digits
  {
    if digits == [] {
      assert digits + rest == rest;
    } else {
      assert (digits + rest)[1..] == digits[1..] + rest;
      LeadingDigitsStop(digits[1..], rest);
    }
  }

  /** The position of an artifact can be read back from its stored name. */
  lemma IndexOfStored(index: nat, name: string, digest: string)
    ensures Value(LeadingDigits(StoredName(index, name, digest))) == index
  {
    var digits := ZeroFill(Decimal(index), 4);
    var tail := "-" + digest + Lower(if SafeSuffix(Suffix(name)) then Suffix(name) else "");
    assert StoredName(index, name, digest) == digits + tail;
    LeadingDigitsStop(digits, tail);
    ValueOfFill(Decimal(index), 4);
    ValueOfDecimal(index);
  }

  /** So stored names of different positions differ, whatever names and digests the artifacts have. */
  lemma StoredNamesDistinct(i: nat, j: nat, a: string, b: string, digestA: string, digestB: string)
    ensures StoredName(i, a, digestA) == StoredName(j, b, digestB) ==> i == j
  {
    IndexOfStored(i, a, digestA);
    IndexOfStored(j, b, digestB);
  }

  // ---------------------------------------------------------------- the shape of a stored name

  /** A name with a stem before its last dot and a short plain extension behind it. */
  predicate HasExtension(name: string, stem: string, ext: string) {
    && name == stem + "." + ext && stem != "" && 1 <= |ext| <= 10
    && forall c | c in ext :: '0' <= c <= '9' || 'A' <= c <= 'Z' || 'a' <= c <= 'z'
  }

  /** The extension is kept, in lower case. */
  lemma ExtensionKept(index: nat, name: string, digest: string, stem: string, ext: string)
    requires HasExtension(name, stem, ext)
    ensures StoredName(index, name, digest) == ZeroFill(Decimal(index), 4) + "-" + digest + ("." + Lower(ext))
  {
    hide LastDot, Lower, ZeroFill, Decimal;
    var i := LastDot(name, |name|);
    forall j | |stem| < j < |name| ensures name[j] != '.' { assert name[j] == ext[j - |stem| - 1] && name[j] in ext; }
    assert name[|stem|] == '.' && i == |stem|;
    assert name[i..] == "." + ext && ("." + ext)[1..] == ext;
    assert Suffix(name) == "." + ext && SafeSuffix("." + ext);
    LowerDot(ext);
  }

  lemma LowerDot(ext: string)
    ensures Lower("." + ext) == "." + Lower(ext)
  {
    assert ("." + ext)[1..] == ext;
  }

  /** Anything else that looks like one is dropped. */
  lemma ExtensionDropped(index: nat, name: string, digest: string)
    ensures (forall stem, ext :: !HasExtension(name, stem, ext)) ==>
              StoredName(index, name, digest) == ZeroFill(Decimal(index), 4) + "-" + digest
  {
    hide SafeSuffix, HasExtension, Suffix, ZeroFill, Decimal;
    if SafeSuffix(Suffix(name)) { SafeIsExtension(name); }
  }

  lemma SafeIsExtension(name: string)
    requires SafeSuffix(Suffix(name))
    ensures exists stem, ext :: HasExtension(name, stem, ext)
  {
    hide LastDot;
    var i, suffix := LastDot(name, |name|), Suffix(name);
    assert suffix == name[i..] && suffix[1..] == name[i + 1..];
    assert name == name[..i] + "." + name[i + 1..];
    assert HasExtension(name, name[..i], name[i + 1..]);
  }

  lemma {:induction false} FilledLength(s: string, width: nat)
    requires forall c | c in s :: IsDigit(c)
    ensures |ZeroFill(s, width)| == if |s| < width then width else |s|
    decreases width - |s|
  {
    if |s| < width { FilledLength("0" + s, width); }
  }

  /** The position has at least four digits, and no more unless it needs them. */
  lemma IndexWidth(index: nat)
    ensures var digits := ZeroFill(Decimal(index), 4);
            |digits| >= 4 && (index < 10000 ==> |digits| == 4) && (|digits| > 4 ==> digits[0] != '0')
  {
    FilledLength(Decimal(index), 4);
    DecimalShape(index);
  }

  lemma {:induction false} DecimalShape(n: nat)
    ensures n < 10000 ==> |Decimal(n)| <= 4
    ensures n < 1000 ==> |Decimal(n)| <= 3
    ensures n < 100 ==> |Decimal(n)| <= 2
    ensures n > 0 ==> Decimal(n)[0] != '0'
  {
    if n >= 10 { DecimalShape(n / 10); }
  }
}
