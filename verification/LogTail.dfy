/** The bounded tails of container logs. */
module LogTail {
  import opened Wrappers
  import opened Bytes
  import opened Utf8

  /** A text value holds no surrogates; a bytes value is decoded with replacement first. */
  datatype Log = Str(text: Text) | Raw(bytes: Octets)

  datatype Tail = Tail(text: Text, truncated: bool, byteCount: nat)

  function TextOf(log: Log): Text {
    match log
    case Str(text) => text
    case Raw(bytes) => DecodeReplace(bytes)
  }

  function TailText(value: Option<Log>, maxBytes: int): Tail {
    if value.None? then Tail([], false, 0)
    else
      var text := TextOf(value.value);
      var encoded := Encode(text);
      if maxBytes <= 0 then Tail([], |encoded| > 0, |encoded|)
      else if |encoded| <= maxBytes then Tail(text, false, |encoded|)
      else Tail(DecodeReplace(encoded[|encoded| - maxBytes..]), true, |encoded|)
  }

  /** The longest run of whole characters at the end that fits n bytes. */
  ghost predicate LongestSuffix(text: Text, from: nat, n: nat) {
    && from <= |text| && |Encode(text[from..])| <= n
    && (from > 0 ==> |Encode(text[from - 1..])| > n)
  }

  /** At most three replacement characters and then the longest run of whole characters at the end that fits;
      the replacements fill up the limit, and there are none when everything fits. */
  ghost predicate TailOf(tail: Text, text: Text, limit: nat) {
    exists from: nat, replaced: nat ::
      && LongestSuffix(text, from, limit) && tail == Replacements(replaced) + text[from..] && replaced <= 3
      && replaced == if from == 0 then 0 else limit - |Encode(text[from..])|
  }

  /** A tail of n bytes is at most three replacement characters and then the longest suffix of whole
      characters that fits. The characters stand for the bytes of the one that was cut, so encoding the
      tail again takes at most six bytes more than the limit. */
  lemma TailMeaning(log: Log, maxBytes: int) returns (from: nat, replaced: nat)
    requires maxBytes > 0
    ensures var text, tail := TextOf(log), TailText(Some(log), maxBytes);
            && LongestSuffix(text, from, maxBytes) && replaced <= 3
            && tail.text == Replacements(replaced) + text[from..]
            && tail.byteCount == |Encode(text)| && (tail.truncated <==> tail.byteCount > maxBytes)
            && (!tail.truncated ==> tail.text == text)
            && (tail.truncated ==>
                  && from > 0 && replaced + |Encode(text[from..])| == maxBytes
                  && |Encode(tail.text)| == maxBytes + 2 * replaced)
            && |Encode(tail.text)| <= maxBytes + 6
  {
    hide Encode, DecodeReplace, TextOf, Replacements;
    var text := TextOf(log);
    var encoded := Encode(text);
    if |encoded| <= maxBytes {
      assert text[0..] == text && Replacements(0) + text == text;
      return 0, 0;
    }
    var stray: Octets;
    stray, from := Cut(text, |encoded| - maxBytes);
    replaced := |stray|;
    StrayBytes(stray, Encode(text[from..]));
    RoundTrip(text[from..]);
    EncodeJoin(Replacements(replaced), text[from..]);
    EncodedReplacements(replaced);
  }

  // ---------------------------------------------------------------- the event payload

  datatype Payload = Payload(stdout: Text, stderr: Text, stdoutTruncated: bool, stderrTruncated: bool, truncated: bool,
                             maxBytes: int, stdoutBytes: nat, stderrBytes: nat)

  /** What each stream may take: everything for the combined stream, else one half each. */
  function Budgets(maxBytes: int, combined: bool): (b: (int, int))
    ensures b.0 + b.1 == maxBytes
    ensures maxBytes >= 0 ==> b.0 >= 0 && b.1 >= 0
    ensures !combined ==> b.1 <= b.0 <= b.1 + 1
  {
    if combined then (maxBytes, 0) else ((maxBytes + 1) / 2, maxBytes / 2)
  }

  function ContainerLogPayload(stdout: Option<Log>, stderr: Option<Log>, maxBytes: int, combined: bool,
                               stdoutWasTruncated: bool, stderrWasTruncated: bool,
                               stdoutObserved: Option<nat>, stderrObserved: Option<nat>): Payload
  {
    var budgets := Budgets(maxBytes, combined);
    var out, err := TailText(stdout, budgets.0), TailText(stderr, budgets.1);
    var outTruncated, errTruncated := out.truncated || stdoutWasTruncated, err.truncated || stderrWasTruncated;
    Payload(out.text, err.text, outTruncated, errTruncated, outTruncated || errTruncated, maxBytes,
            if stdoutObserved.None? then out.byteCount else stdoutObserved.value,
            if stderrObserved.None? then err.byteCount else stderrObserved.value)
  }

  /** What a missing value, or one of these bytes, counts as. */
  function Shown(value: Option<Log>): Text { if value.None? then [] else TextOf(value.value) }

  lemma TailIs(value: Option<Log>, maxBytes: int)
    ensures if maxBytes <= 0 then TailText(value, maxBytes).text == []
            else TailOf(TailText(value, maxBytes).text, Shown(value), maxBytes)
  {
    if maxBytes > 0 {
      if value.None? {
        assert LongestSuffix([], 0, maxBytes) && [] == Replacements(0) + [][0..];
      } else {
        var from, replaced := TailMeaning(value.value, maxBytes);
        if from == 0 {
          var text := TextOf(value.value);
          assert text[0..] == text && Replacements(0) + text == text;
          assert TailText(value, maxBytes).text == Replacements(0) + text[0..];
        } else {
          WholeUnlessCut(TextOf(value.value), from, maxBytes);
        }
      }
    }
  }

  lemma WholeUnlessCut(text: Text, from: nat, n: nat)
    requires LongestSuffix(text, from, n) && from > 0
    ensures |Encode(text)| > n
  {
    EncodeJoin(text[..from - 1], text[from - 1..]);
    assert text == text[..from - 1] + text[from - 1..];
  }

  /** Bytes are shown as the text they encode, and as their decoding with replacement if they encode none. */
  lemma RawIsDecoded(text: Text, bytes: Octets, maxBytes: int)
    ensures TailText(Some(Raw(Encode(text))), maxBytes) == TailText(Some(Str(text)), maxBytes)
    ensures TailText(Some(Raw(bytes)), maxBytes) == TailText(Some(Str(DecodeReplace(bytes))), maxBytes)
  {
    hide Encode, DecodeReplace;
    RoundTrip(text);
  }

  lemma TailBound(value: Option<Log>, maxBytes: int)
    ensures |Encode(TailText(value, maxBytes).text)| <= if maxBytes <= 0 || value.None? then 0 else maxBytes + 6
    ensures !TailText(value, maxBytes).truncated ==>
              TailText(value, maxBytes).text == if value.None? then [] else TextOf(value.value)
    ensures TailText(value, maxBytes).truncated <==>
              value.Some? && |Encode(TextOf(value.value))| > if maxBytes < 0 then 0 else maxBytes
  {
    if value.Some? && maxBytes > 0 {
      var from, replaced := TailMeaning(value.value, maxBytes);
    } else if value.Some? && Encode(TextOf(value.value)) == [] {
      RoundTrip(TextOf(value.value));
    }
  }

  function Size(log: Option<Log>): nat { if log.None? then 0 else |Encode(TextOf(log.value))| }

  /** Each stream is the tail of its share of the limit. */
  lemma PayloadTails(stdout: Option<Log>, stderr: Option<Log>, maxBytes: int, combined: bool,
                     stdoutWasTruncated: bool, stderrWasTruncated: bool,
                     stdoutObserved: Option<nat>, stderrObserved: Option<nat>)
    requires maxBytes >= 0
    ensures var p := ContainerLogPayload(stdout, stderr, maxBytes, combined, stdoutWasTruncated, stderrWasTruncated,
                                         stdoutObserved, stderrObserved);
            && p.maxBytes == maxBytes
            && TailOf(p.stdout, Shown(stdout), if combined then maxBytes else maxBytes - maxBytes / 2)
            && TailOf(p.stderr, Shown(stderr), if combined then 0 else maxBytes / 2)
  {
    hide TailOf, TailText;
    var budgets := Budgets(maxBytes, combined);
    TailIs(stdout, budgets.0);
    TailIs(stderr, budgets.1);
    NothingFits(Shown(stdout));
    NothingFits(Shown(stderr));
  }

  lemma NothingFits(text: Text)
    ensures TailOf([], text, 0)
  {
    assert text[|text|..] == [] && [] == Replacements(0) + text[|text|..];
    if text != [] {
      assert Encode(text[|text| - 1..]) == EncodeOne(text[|text| - 1]) + Encode(text[|text| - 1..][1..]);
    }
    assert LongestSuffix(text, |text|, 0);
  }

  /** The two tails together re-encode to at most twelve bytes more than the limit. A stream is marked
      exactly when it exceeds its half of the limit or was cut before; a payload that is not marked carries
      both streams whole; sizes are those observed, or else those of the streams. */
  lemma PayloadBound(stdout: Option<Log>, stderr: Option<Log>, maxBytes: int, combined: bool,
                     stdoutWasTruncated: bool, stderrWasTruncated: bool,
                     stdoutObserved: Option<nat>, stderrObserved: Option<nat>)
    ensures var p := ContainerLogPayload(stdout, stderr, maxBytes, combined, stdoutWasTruncated, stderrWasTruncated,
                                         stdoutObserved, stderrObserved);
            var limit := if maxBytes < 0 then 0 else maxBytes;
            && |Encode(p.stdout)| + |Encode(p.stderr)| <= limit + 12
            && (p.stdoutTruncated <==>
                  stdoutWasTruncated || Size(stdout) > if combined then limit else limit - limit / 2)
            && (p.stderrTruncated <==>
                  stderrWasTruncated || Size(stderr) > if combined then 0 else limit / 2)
            && (p.truncated <==> p.stdoutTruncated || p.stderrTruncated)
            && (!p.truncated ==>
                  && p.stdout == (if stdout.None? then [] else TextOf(stdout.value))
                  && p.stderr == (if stderr.None? then [] else TextOf(stderr.value)))
            && p.stdoutBytes == (if stdoutObserved.Some? then stdoutObserved.value else Size(stdout))
            && p.stderrBytes == (if stderrObserved.Some? then stderrObserved.value else Size(stderr))
  {
    hide Encode, TextOf, DecodeReplace;
    var budgets := Budgets(maxBytes, combined);
    TailBound(stdout, budgets.0);
    TailBound(stderr, budgets.1);
  }
}
