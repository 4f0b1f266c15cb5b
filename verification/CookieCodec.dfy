/** Signed JSON cookies. */
module CookieCodec {
  import opened Wrappers
  import opened Bytes
  import opened Strings
  import Base64Url
  import Utf8

  /** What json.loads finds: an object, or some other value. */
  datatype Loaded<P> = Object(payload: P) | OtherValue

  /** json.dumps, json.loads (None for invalid text) and the hex HMAC under the service secret. */
  datatype Codec<!P> = Codec(dumps: P -> Utf8.Text, loads: Octets -> Option<Loaded<P>>, sign: string -> string)

  /** What decoding ends in; Raises stands for the exception compare_digest throws on non-ASCII text. */
  datatype Decoded<T> = Nothing | Value(value: T) | Raises

  predicate IsAscii(s: string) { forall c | c in s :: c as int < 128 }

  predicate IsHex(s: string) { forall c | c in s :: '0' <= c <= '9' || 'a' <= c <= 'f' }

  /** Loading what was dumped gives the object back, a dumped object is not empty text, signatures are hex. */
  ghost predicate CodecOk<P(!new)>(codec: Codec<P>) {
    && (forall p :: codec.dumps(p) != [] && codec.loads(Utf8.Encode(codec.dumps(p))) == Some(Object(p)))
    && (forall s :: IsHex(codec.sign(s)))
  }

  function SignedValue<P>(codec: Codec<P>, value: string): string { value + "." + codec.sign(value) }

  predicate DotFree(s: string) { forall j | 0 <= j < |s| :: s[j] != '.' }

  function DecodeSignedValue<P>(codec: Codec<P>, cookie: Option<string>): Decoded<string> {
    if cookie.None? then Nothing
    else
      var i := LastDot(cookie.value, |cookie.value|);
      if i < 0 then Nothing
      else
        var raw, signature := cookie.value[..i], cookie.value[i + 1..];
        if !IsAscii(signature) then Raises else if signature == codec.sign(raw) then Value(raw) else Nothing
  }

  function EncodeSignedJson<P>(codec: Codec<P>, payload: P): string {
    SignedValue(codec, Base64Url.Encode(Utf8.Encode(codec.dumps(payload))))
  }

  function DecodeSignedJsonCookie<P>(codec: Codec<P>, cookie: Option<string>): Decoded<P> {
    match DecodeSignedValue(codec, cookie)
    case Raises => Raises
    case Nothing => Nothing
    case Value(encoded) =>
      if encoded == "" || !IsAscii(encoded) then Nothing
      else
        var bytes := Base64Url.Decode(encoded + Base64Url.Padding(encoded));
        if bytes.None? then Nothing
        else
          match codec.loads(bytes.value)
          case Some(Object(payload)) => Value(payload)
          case _ => Nothing
  }

  /** The last dot splits off a part without dots, and there is only one way to do so. */
  lemma LastDotOf(raw: string, rest: string)
    requires DotFree(rest)
    ensures var s := raw + "." + rest; LastDot(s, |s|) == |raw| && s[..|raw|] == raw && s[|raw| + 1..] == rest
  {
    hide LastDot;
    var s := raw + "." + rest;
    assert s[|raw|] == '.' && s[..|raw|] == raw && s[|raw| + 1..] == rest;
    assert forall j | |raw| < j < |s| :: s[j] == rest[j - |raw| - 1];
  }

  lemma HexIsPlain(s: string)
    requires IsHex(s)
    ensures DotFree(s) && IsAscii(s)
  {
    assert forall j | 0 <= j < |s| :: s[j] in s;
  }

  lemma SplitAtLastDot(s: string)
    ensures var i := LastDot(s, |s|);
            if i < 0 then DotFree(s) else s == s[..i] + "." + s[i + 1..] && DotFree(s[i + 1..])
  {
    hide LastDot;
    var i := LastDot(s, |s|);
    if i >= 0 {
      assert s == s[..i] + [s[i]] + s[i + 1..];
    }
  }

  /** A value is recovered from exactly one cookie, its signed form, whatever dots it contains. */
  lemma DecodedIffSigned<P(!new)>(codec: Codec<P>, cookie: string, raw: string)
    requires IsHex(codec.sign(raw))
    ensures DecodeSignedValue(codec, Some(cookie)) == Value(raw) <==> cookie == SignedValue(codec, raw)
  {
    hide LastDot;
    HexIsPlain(codec.sign(raw));
    LastDotOf(raw, codec.sign(raw));
    SplitAtLastDot(cookie);
  }

  predicate HasForeign(s: string) { exists c | c in s :: c as int >= 0x80 }

  /** The only way to an exception is a signature part that is not ASCII. */
  lemma RaisesIffNotAscii<P(!new)>(codec: Codec<P>, cookie: string)
    ensures DecodeSignedValue(codec, Some(cookie)) == Raises <==>
              exists raw, rest :: DotFree(rest) && HasForeign(rest) && cookie == raw + "." + rest
  {
    hide LastDot, DotFree;
    SplitAtLastDot(cookie);
    forall raw, rest | DotFree(rest) && HasForeign(rest) && cookie == raw + "." + rest
      ensures DecodeSignedValue(codec, Some(cookie)) == Raises
    {
      LastDotOf(raw, rest);
    }
    var i := LastDot(cookie, |cookie|);
    if DecodeSignedValue(codec, Some(cookie)) == Raises {
      assert DotFree(cookie[i + 1..]) && HasForeign(cookie[i + 1..]);
    }
  }

  /** Decoding the cookie of an object gives the object back. */
  lemma CookieRoundTrip<P(!new)>(codec: Codec<P>, payload: P)
    requires CodecOk(codec)
    ensures DecodeSignedJsonCookie(codec, Some(EncodeSignedJson(codec, payload))) == Value(payload)
  {
    var bytes := Utf8.Encode(codec.dumps(payload));
    assert bytes != [] by { Utf8.RoundTrip(codec.dumps(payload)); }
    var encoded := Base64Url.Encode(bytes);
    DecodedIffSigned(codec, SignedValue(codec, encoded), encoded);
    Base64Url.RepadStripped(bytes);
    Base64Url.RoundTrip(bytes);
  }

  /** And nothing is read from a cookie that does not end in the signature of the rest. */
  lemma AcceptedIsSigned<P(!new)>(codec: Codec<P>, cookie: string) returns (encoded: string)
    requires CodecOk(codec) && DecodeSignedJsonCookie(codec, Some(cookie)).Value?
    ensures cookie == encoded + "." + codec.sign(encoded) && encoded != "" && !HasForeign(encoded)
    ensures forall other :: cookie == SignedValue(codec, other) ==> other == encoded
    ensures var bytes := Base64Url.Decode(encoded + Base64Url.Padding(encoded));
            bytes.Some? && codec.loads(bytes.value)
                           == Some(Object(DecodeSignedJsonCookie(codec, Some(cookie)).value))
  {
    encoded := DecodeSignedValue(codec, Some(cookie)).value;
    DecodedIffSigned(codec, cookie, encoded);
    forall other | cookie == SignedValue(codec, other) ensures other == encoded {
      DecodedIffSigned(codec, cookie, other);
    }
  }
}
