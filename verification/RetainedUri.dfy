/** The URI a retained artifact is recorded under, and its resolution when the artifact is served. */
module RetainedUri {
  import opened Wrappers
  import opened Bytes
  import opened Utf8
  import opened PercentEncoding
  import StoredNames
  import Retention

  type Segments = seq<Text>

  const DOT: Scalar := 0x2E
  const QUESTION: Scalar := 0x3F
  const HASH: Scalar := 0x23

  /** A component of a resolved path: not empty, not "." or "..", no slash, no NUL. */
  predicate IsComponent(c: Text) {
    c != [] && c != [DOT] && c != [DOT, DOT] && forall i | 0 <= i < |c| :: c[i] != SLASH && c[i] != 0
  }

  predicate IsPath(p: Segments) { forall i | 0 <= i < |p| :: IsComponent(p[i]) }

  /** An absolute path as text; the root itself has none and is written "/". */
  function PathText(p: Segments): Text {
    if p == [] then [] else [SLASH] + p[0] + PathText(p[1..])
  }

  function StripSlashes(text: Text): Text {
    if text != [] && text[|text| - 1] == SLASH then StripSlashes(text[..|text| - 1]) else text
  }

  /** What follows "file:" and the two slashes in the recorded URI. */
  function RetainedUriRest(root: Segments, relative: Segments): Text {
    var rootText: Text := if root == [] then [SLASH] else PathText(root);
    var relativeText := PathText(relative);
    StripSlashes(Quote(rootText, true)) + [SLASH] + Quote(if relativeText == [] then [] else relativeText[1..], false)
  }

  // ---------------------------------------------------------------- resolution

  /** Up to the first of these characters. */
  function Before(text: Text, slash: bool): (n: nat)
    ensures n <= |text|
    ensures forall i | 0 <= i < n :: !(text[i] == QUESTION || text[i] == HASH || (slash && text[i] == SLASH))
    ensures n < |text| ==> text[n] == QUESTION || text[n] == HASH || (slash && text[n] == SLASH)
  {
    if text == [] || text[0] == QUESTION || text[0] == HASH || (slash && text[0] == SLASH) then 0
    else 1 + Before(text[1..], slash)
  }

  function Segment(text: Text): (n: nat)
    ensures n <= |text|
    ensures forall i | 0 <= i < n :: text[i] != SLASH
    ensures n < |text| ==> text[n] == SLASH
  {
    if text == [] || text[0] == SLASH then 0 else 1 + Segment(text[1..])
  }

  /** The components of a path text; empty ones and "." are dropped. */
  function Components(text: Text): Segments
    decreases |text|
  {
    if text == [] then []
    else if text[0] == SLASH then Components(text[1..])
    else
      var n := Segment(text);
      (if text[..n] == [DOT] then [] else [text[..n]]) + Components(text[n..])
  }

  /** Take ".." lexically. */
  function Resolve(p: Segments, done: Segments): Segments {
    if p == [] then done
    else if p[0] == [DOT, DOT] then Resolve(p[1..], if done == [] then [] else done[..|done| - 1])
    else Resolve(p[1..], done + [p[0]])
  }

  /** Resolve a candidate path against a base and accept only what lies under the root. */
  function Locate(root: Segments, base: Segments, candidate: Text): (path: Option<Segments>)
    ensures path.Some? ==> |root| <= |path.value| && path.value[..|root|] == root
  {
    if 0 in candidate then None
    else
      var absolute := candidate != [] && candidate[0] == SLASH;
      var resolved := Resolve((if absolute then [] else base) + Components(candidate), []);
      if |root| <= |resolved| && resolved[..|root|] == root then Some(resolved) else None
  }

  const FILE_PREFIX: Text := [0x66, 0x69, 0x6C, 0x65, COLON, SLASH, SLASH]
  const ARTIFACT_PREFIX: Text := [0x61, 0x72, 0x74, 0x69, 0x66, 0x61, 0x63, 0x74, COLON, SLASH, SLASH]
  const LOCALHOST: Text := [0x6C, 0x6F, 0x63, 0x61, 0x6C, 0x68, 0x6F, 0x73, 0x74]

  predicate HasAuthority(uri: Text) {
    exists i | 0 <= i < |uri| - 2 :: uri[i] == COLON && uri[i + 1] == SLASH && uri[i + 2] == SLASH
  }

  function UntilHash(text: Text): (n: nat)
    ensures n <= |text|
  {
    if text == [] || text[0] == HASH then 0 else 1 + UntilHash(text[1..])
  }

  /** A query or fragment that is not empty, in what follows the path. */
  predicate HasQueryOrFragment(text: Text) {
    text != [] &&
    (if text[0] == HASH then |text| > 1
     else var n := UntilHash(text[1..]); n > 0 || |text| > n + 2)
  }

  function WithoutLeadingSlashes(text: Text): Text {
    if text != [] && text[0] == SLASH then WithoutLeadingSlashes(text[1..]) else text
  }

  /** A file URI: no authority but localhost, and the path decoded twice. */
  function FileUriPath(root: Segments, rest: Text): Option<Segments> {
    var n := Before(rest, true);
    if n != 0 && rest[..n] != LOCALHOST then None
    else Locate(root, root, Unquote(Unquote(rest[n..][..Before(rest[n..], false)])))
  }

  /** An artifact locator: only the declared name, below the mounted directory. */
  function ArtifactUriPath(root: Segments, rest: Text, name: Text, mounted: Option<Segments>): Option<Segments> {
    var n := Before(rest, false);
    if mounted.None? || HasQueryOrFragment(rest[n..]) then None
    else
      var relative := WithoutLeadingSlashes(Unquote(rest[..n]));
      if relative != name then None else Locate(root, mounted.value, relative)
  }

  /** Where the file of a recorded artifact is read from, if anywhere. */
  function ArtifactFilePath(root: Segments, uri: Text, name: Text, mounted: Option<Segments>): (path: Option<Segments>)
    ensures path.Some? ==> |root| <= |path.value| && path.value[..|root|] == root
    ensures ARTIFACT_PREFIX <= uri && path.Some? ==> mounted.Some? && path == Locate(root, mounted.value, name)
  {
    if ARTIFACT_PREFIX <= uri then ArtifactUriPath(root, uri[|ARTIFACT_PREFIX|..], name, mounted)
    else if FILE_PREFIX <= uri then FileUriPath(root, uri[|FILE_PREFIX|..])
    else if HasAuthority(uri) then None
    else Locate(root, root, uri)
  }

  // ---------------------------------------------------------------- lemmas

  lemma {:induction false} PathTextJoin(a: Segments, b: Segments)
    ensures PathText(a + b) == PathText(a) + PathText(b)
  {
    if a == [] {
      assert a + b == b;
    } else {
      assert (a + b)[1..] == a[1..] + b;
      PathTextJoin(a[1..], b);
    }
  }

  lemma SegmentIs(c: Text, rest: Text)
    requires IsComponent(c) && (rest == [] || rest[0] == SLASH)
    ensures Segment(c + rest) == |c|
  {
    hide Segment;
    assert forall i | 0 <= i < |c| :: (c + rest)[i] == c[i];
    assert rest != [] ==> (c + rest)[|c|] == rest[0];
  }

  lemma ComponentsNext(c: Text, rest: Text)
    requires IsComponent(c) && (rest == [] || rest[0] == SLASH)
    ensures Components([SLASH] + c + rest) == [c] + Components(rest)
  {
    hide IsComponent, Segment;
    var text := [SLASH] + c + rest;
    SegmentIs(c, rest);
    assert text[1..] == c + rest;
    assert c != [] && c[0] != SLASH && c != [DOT] by { ComponentHead(c); }
    assert (c + rest)[..|c|] == c && (c + rest)[|c|..] == rest;
  }

  lemma ComponentHead(c: Text)
    requires IsComponent(c)
    ensures c != [] && c[0] != SLASH && c != [DOT] && c[|c| - 1] != SLASH
  { }

  lemma {:induction false} ComponentsOfPath(p: Segments)
    requires IsPath(p)
    ensures Components(PathText(p)) == p
  {
    hide Components, IsComponent;
    if p == [] {
      NoComponents();
    } else {
      ComponentsOfPath(p[1..]);
      ComponentsNext(p[0], PathText(p[1..]));
    }
  }

  lemma NoComponents()
    ensures Components([]) == []
  { }

  lemma {:induction false} ResolvePath(p: Segments, done: Segments)
    requires IsPath(p)
    ensures Resolve(p, done) == done + p
  {
    if p != [] {
      assert IsComponent(p[0]);
      ResolvePath(p[1..], done + [p[0]]);
      assert done + [p[0]] + p[1..] == done + p;
    }
  }

  /** Resolving never makes a path text longer. */
  lemma {:induction false} ResolveNotLonger(p: Segments, done: Segments)
    ensures |PathText(Resolve(p, done))| <= |PathText(done)| + |PathText(p)|
  {
    if p != [] {
      if p[0] == [DOT, DOT] {
        if done != [] {
          PathTextJoin(done[..|done| - 1], [done[|done| - 1]]);
          assert done == done[..|done| - 1] + [done[|done| - 1]];
        }
        ResolveNotLonger(p[1..], if done == [] then [] else done[..|done| - 1]);
      } else {
        PathTextJoin(done, [p[0]]);
        assert PathText([p[0]]) == [SLASH] + p[0] + PathText([]);
        ResolveNotLonger(p[1..], done + [p[0]]);
      }
    }
  }

  lemma {:induction false} ComponentsNotLonger(text: Text)
    ensures |PathText(Components(text))| <= |text| + if text == [] || text[0] == SLASH then 0 else 1
    decreases |text|
  {
    if text == [] {
    } else if text[0] == SLASH {
      ComponentsNotLonger(text[1..]);
    } else {
      var n := Segment(text);
      ComponentsNotLonger(text[n..]);
      var one := if text[..n] == [DOT] then [] else [text[..n]];
      PathTextJoin(one, Components(text[n..]));
      assert Components(text) == one + Components(text[n..]);
      assert PathText([text[..n]]) == [SLASH] + text[..n] + PathText([]);
      assert |PathText(one)| <= n + 1;
    }
  }

  lemma PathHead(p: Segments)
    ensures p != [] ==> PathText(p) != [] && PathText(p)[0] == SLASH
  { }

  lemma {:induction false} PathTextClean(p: Segments)
    requires IsPath(p)
    ensures 0 !in PathText(p)
    ensures p != [] ==> PathText(p)[|PathText(p)| - 1] != SLASH
  {
    if p != [] {
      PathTextClean(p[1..]);
      assert IsComponent(p[0]) && 0 !in p[0];
      assert p[1..] == [] ==> PathText(p) == [SLASH] + p[0];
    }
  }

  lemma QuoteText(a: Text, b: Text, colon: bool)
    ensures Quote(a + b, colon) == Quote(a, colon) + Quote(b, colon)
  {
    EncodeJoin(a, b);
    QuoteJoin(Encode(a), Encode(b), colon);
  }

  lemma QuoteSlash(colon: bool)
    ensures Quote([SLASH], colon) == [SLASH]
  {
    assert Encode([SLASH]) == EncodeOne(SLASH) + Encode([]);
    assert Encode([SLASH]) == [0x2F];
    assert QuoteBytes([0x2F], colon) == QuoteByte(0x2F, colon) + QuoteBytes([], colon);
  }

  lemma LastByte(c: Scalar)
    requires c != SLASH
    ensures EncodeOne(c)[|EncodeOne(c)| - 1] != SLASH
  { }

  lemma QuotedLastByte(bytes: Octets, colon: bool)
    requires bytes != [] && bytes[|bytes| - 1] != SLASH
    ensures var q := QuoteBytes(bytes, colon); q != [] && q[|q| - 1] != SLASH
  {
    hide QuoteByte;
    var front, last := bytes[..|bytes| - 1], bytes[|bytes| - 1];
    assert bytes == front + [last];
    QuoteJoin(front, [last], colon);
    assert QuoteBytes([last], colon) == QuoteByte(last, colon) + QuoteBytes([], colon);
    assert QuoteByte(last, colon)[|QuoteByte(last, colon)| - 1] != SLASH by { QuotedByteEnd(last, colon); }
  }

  lemma QuotedByteEnd(b: byte, colon: bool)
    requires b != SLASH
    ensures QuoteByte(b, colon)[|QuoteByte(b, colon)| - 1] != SLASH
  { }

  lemma QuotedLast(text: Text, colon: bool)
    requires text != [] && text[|text| - 1] != SLASH
    ensures var q := Quote(text, colon); q != [] && q[|q| - 1] != SLASH
  {
    hide EncodeOne, QuoteBytes;
    var front, last := text[..|text| - 1], text[|text| - 1];
    assert text == front + [last];
    EncodeJoin(front, [last]);
    assert [last][1..] == [];
    assert Encode([last]) == EncodeOne(last) + Encode([]) == EncodeOne(last);
    LastByte(last);
    QuotedLastByte(Encode(text), colon);
  }

  /** The recorded URI is the quoted text of the committed path; only the colon is treated differently in
      the two parts, and decoding does not see that. */
  lemma UriText(root: Segments, relative: Segments)
    requires IsPath(root) && IsPath(relative) && relative != []
    ensures RetainedUriRest(root, relative) == Quote(PathText(root), true) + Quote(PathText(relative), false)
  {
    var relativeText := PathText(relative);
    PathHead(relative);
    assert relativeText == [SLASH] + relativeText[1..];
    QuoteText([SLASH], relativeText[1..], false);
    QuoteSlash(false);
    QuoteSlash(true);
    if root == [] {
      assert StripSlashes([SLASH]) == [];
      assert Quote([], true) == [];
    } else {
      PathTextClean(root);
      QuotedLast(PathText(root), true);
    }
  }

  /** The first unquoting gives the committed path back. */
  lemma UnquoteUri(root: Segments, relative: Segments)
    requires IsPath(root) && IsPath(relative) && relative != []
    ensures Unquote(RetainedUriRest(root, relative)) == PathText(root + relative)
  {
    hide EncodeOne, QuoteBytes, UnquoteToBytes, DecodeReplace, AsciiRun, Unquote;
    var a, b := PathText(root), PathText(relative);
    UriText(root, relative);
    PathTextJoin(root, relative);
    UnquotedBytes(Encode(b), false);
    UnquotedPrefix(Encode(a), true, Quote(b, false));
    UnquoteAscii(RetainedUriRest(root, relative));
    EncodeJoin(a, b);
    Utf8.RoundTrip(a + b);
  }

  /** The URL parser finds no authority, query or fragment in it. */
  lemma UriParses(root: Segments, relative: Segments)
    requires IsPath(root) && IsPath(relative) && relative != []
    ensures var rest := RetainedUriRest(root, relative);
            rest != [] && rest[0] == SLASH && Before(rest, true) == 0 && Before(rest, false) == |rest|
  {
    hide Quote, Before;
    var a, b := PathText(root), PathText(relative);
    var rest := RetainedUriRest(root, relative);
    UriText(root, relative);
    AllQuoted(a, true);
    AllQuoted(b, false);
    assert forall i | 0 <= i < |rest| :: QuotedChar(rest[i]);
    PathHead(root);
    PathHead(relative);
    if root == [] {
      assert Quote(a, true) == [] by { QuoteNothing(true); }
      QuotedHead(b, false);
    } else {
      QuotedHead(a, true);
    }
    BeforeHead(rest);
  }

  lemma AllQuoted(text: Text, colon: bool)
    ensures forall i | 0 <= i < |Quote(text, colon)| :: QuotedChar(Quote(text, colon)[i])
  {
    QuotedChars(Encode(text), colon);
  }

  lemma QuoteNothing(colon: bool)
    ensures Quote([], colon) == []
  { }

  lemma QuotedHead(text: Text, colon: bool)
    requires text != [] && text[0] == SLASH
    ensures Quote(text, colon) != [] && Quote(text, colon)[0] == SLASH
  {
    hide Quote;
    assert text == [SLASH] + text[1..];
    QuoteText([SLASH], text[1..], colon);
    QuoteSlash(colon);
  }

  lemma BeforeHead(rest: Text)
    requires rest != [] && rest[0] == SLASH
    ensures Before(rest, true) == 0
  { }

  // ---------------------------------------------------------------- where a candidate leads

  /** Walking a path one directory at a time: "..", the parent; any other component, into it. */
  ghost predicate Walks(steps: seq<Segments>, p: Segments) {
    && |steps| == |p| + 1
    && forall i | 0 <= i < |p| ::
         if p[i] == [DOT, DOT] then steps[i + 1] == (if steps[i] == [] then [] else steps[i][..|steps[i]| - 1])
         else steps[i + 1] == steps[i] + [p[i]]
  }

  /** The walk from here exists and ends where the path resolves to. */
  lemma {:induction false} ResolveWalks(p: Segments, start: Segments) returns (steps: seq<Segments>)
    ensures Walks(steps, p) && steps[0] == start && steps[|p|] == Resolve(p, start)
  {
    if p == [] {
      steps := [start];
    } else {
      var next := if p[0] != [DOT, DOT] then start + [p[0]] else if start == [] then [] else start[..|start| - 1];
      var rest := ResolveWalks(p[1..], next);
      steps := [start] + rest;
    }
  }

  lemma {:induction false} WalkEnds(steps: seq<Segments>, p: Segments)
    requires Walks(steps, p)
    ensures steps[|p|] == Resolve(p, steps[0])
  {
    if p != [] {
      assert Walks(steps[1..], p[1..]) by {
        forall i | 0 <= i < |p| - 1 ensures p[1..][i] == p[i + 1] && steps[1..][i] == steps[i + 1] { }
      }
      WalkEnds(steps[1..], p[1..]);
    }
  }

  /** A component, or "..". */
  predicate IsStep(c: Text) { IsComponent(c) || c == [DOT, DOT] }

  lemma {:induction false} ComponentsAreSteps(text: Text)
    requires 0 !in text
    ensures forall i | 0 <= i < |Components(text)| :: IsStep(Components(text)[i])
    decreases |text|
  {
    if text != [] && text[0] == SLASH {
      ComponentsAreSteps(text[1..]);
    } else if text != [] {
      var n := Segment(text);
      ComponentsAreSteps(text[n..]);
      assert forall i | 0 <= i < n :: text[..n][i] == text[i] && text[i] in text;
      assert n > 0;
    }
  }

  lemma {:induction false} WalkStaysPath(steps: seq<Segments>, p: Segments, i: nat)
    requires Walks(steps, p) && IsPath(steps[0]) && i <= |p| && forall j | 0 <= j < |p| :: IsStep(p[j])
    ensures IsPath(steps[i])
  {
    hide IsComponent;
    if i > 0 {
      WalkStaysPath(steps, p, i - 1);
      assert IsStep(p[i - 1]);
    }
  }

  /** A candidate is accepted exactly when the walk along its components, from the base or the root of the
      file system, ends under the root; it is then the path that walk ends in, without a "." or "..". */
  lemma LocateWalks(root: Segments, base: Segments, candidate: Text, steps: seq<Segments>)
    requires IsPath(base) && Walks(steps, Components(candidate))
    requires steps[0] == if candidate != [] && candidate[0] == SLASH then [] else base
    ensures var end := steps[|steps| - 1];
            Locate(root, base, candidate) ==
            if 0 !in candidate && |root| <= |end| && end[..|root|] == root then Some(end) else None
    ensures 0 !in candidate ==> IsPath(steps[|steps| - 1])
  {
    hide Components, IsComponent;
    var p := Components(candidate);
    WalkEnds(steps, p);
    if candidate != [] && candidate[0] == SLASH {
      assert [] + p == p;
    } else {
      ResolvePath(base, []);
      ResolveJoin(base, p, []);
      assert [] + base == base;
    }
    if 0 !in candidate {
      ComponentsAreSteps(candidate);
      WalkStaysPath(steps, p, |p|);
    }
  }

  lemma {:induction false} ResolveJoin(a: Segments, b: Segments, done: Segments)
    ensures Resolve(a + b, done) == Resolve(b, Resolve(a, done))
  {
    if a == [] {
      assert a + b == b;
    } else {
      assert (a + b)[1..] == a[1..] + b && (a + b)[0] == a[0];
      ResolveJoin(a[1..], b, if a[0] != [DOT, DOT] then done + [a[0]]
                             else if done == [] then [] else done[..|done| - 1]);
    }
  }

  /** Whatever is located is a path under the root. */
  lemma LocatedIsPath(root: Segments, base: Segments, candidate: Text)
    requires IsPath(base) && Locate(root, base, candidate).Some?
    ensures var path := Locate(root, base, candidate).value;
            IsPath(path) && |root| <= |path| && path[..|root|] == root
  {
    hide Components, IsPath, Walks;
    var steps := ResolveWalks(Components(candidate), if candidate != [] && candidate[0] == SLASH then [] else base);
    LocateWalks(root, base, candidate, steps);
  }

  /** Slashes separate components, and of the pieces between them only "" and "." are dropped. */
  lemma {:induction false} ComponentsJoin(a: Text, b: Text)
    ensures Components(a + [SLASH] + b) == Components(a) + Components(b)
    decreases |a|
  {
    var text := a + [SLASH] + b;
    if a == [] {
      assert text[1..] == b;
    } else if a[0] == SLASH {
      assert text[1..] == a[1..] + [SLASH] + b;
      ComponentsJoin(a[1..], b);
    } else {
      var n := Segment(a);
      SegmentJoin(a, [SLASH] + b);
      assert a + ([SLASH] + b) == text;
      assert text[..n] == a[..n] && text[n..] == a[n..] + [SLASH] + b;
      ComponentsJoin(a[n..], b);
    }
  }

  lemma {:induction false} SegmentJoin(a: Text, b: Text)
    requires b != [] && b[0] == SLASH
    ensures Segment(a + b) == Segment(a)
  {
    if a == [] {
      assert a + b == b;
    } else if a[0] != SLASH {
      assert (a + b)[1..] == a[1..] + b;
      SegmentJoin(a[1..], b);
    }
  }

  lemma ComponentsOfPiece(piece: Text)
    requires SLASH !in piece
    ensures Components(piece) == if piece == [] || piece == [DOT] then [] else [piece]
  {
    if piece != [] {
      assert piece[0] in piece;
      var n := Segment(piece);
      if n < |piece| {
        SlashAt(piece, n);
      }
      assert piece[..n] == piece && piece[n..] == [];
    }
  }

  lemma SlashAt(text: Text, n: nat)
    requires n < |text| && text[n] == SLASH
    ensures SLASH in text
  { }

  // ---------------------------------------------------------------- what the two kinds of URI mean

  predicate IsPart(part: Text, slash: bool) { QUESTION !in part && HASH !in part && (slash ==> SLASH !in part) }

  /** Nothing, or a query or fragment. */
  predicate IsTail(tail: Text) { tail == [] || tail[0] == QUESTION || tail[0] == HASH }

  lemma {:induction false} BeforeIs(part: Text, rest: Text, slash: bool)
    requires IsPart(part, slash) && (IsTail(rest) || (slash && rest[0] == SLASH))
    ensures Before(part + rest, slash) == |part|
  {
    if part == [] {
      assert part + rest == rest;
    } else {
      assert part[0] in part && forall c | c in part[1..] :: c in part;
      assert (part + rest)[1..] == part[1..] + rest;
      BeforeIs(part[1..], rest, slash);
    }
  }

  /** A file URI with this authority, path and tail: served for no authority or "localhost" only, from its
      path decoded twice. */
  lemma FileUriMeans(root: Segments, authority: Text, path: Text, tail: Text, name: Text, mounted: Option<Segments>)
    requires IsPart(authority, true) && IsPart(path, false) && IsTail(tail) && (path != [] ==> path[0] == SLASH)
    ensures ArtifactFilePath(root, FILE_PREFIX + (authority + path + tail), name, mounted) ==
            if authority == [] || authority == LOCALHOST then Locate(root, root, Unquote(Unquote(path))) else None
  {
    hide Locate, Unquote, Before, ArtifactFilePath, FileUriPath, IsPart;
    var rest := authority + path + tail;
    FileBranch(root, rest, name, mounted);
    assert rest == authority + (path + tail);
    BeforeIs(authority, path + tail, true);
    BeforeIs(path, tail, false);
    FileUriIs(root, authority, path, tail);
  }

  lemma FileUriIs(root: Segments, authority: Text, path: Text, tail: Text)
    requires Before(authority + (path + tail), true) == |authority| && Before(path + tail, false) == |path|
    ensures FileUriPath(root, authority + (path + tail)) ==
            if authority == [] || authority == LOCALHOST then Locate(root, root, Unquote(Unquote(path))) else None
  {
    hide Locate, Unquote, Before;
    var rest := authority + (path + tail);
    assert rest[..|authority|] == authority && rest[|authority|..] == path + tail;
    assert (path + tail)[..|path|] == path;
  }

  lemma {:induction false} UntilHashIs(part: Text, rest: Text)
    requires HASH !in part && (rest == [] || rest[0] == HASH)
    ensures UntilHash(part + rest) == |part|
  {
    if part == [] {
      assert part + rest == rest;
    } else {
      assert part[0] in part && forall c | c in part[1..] :: c in part;
      assert (part + rest)[1..] == part[1..] + rest;
      UntilHashIs(part[1..], rest);
    }
  }

  /** A locator with a query or fragment that is not empty is refused; any other one is served exactly when
      its body, decoded once and without leading slashes, is the declared name. */
  lemma LocatorMeans(root: Segments, body: Text, tail: Text, name: Text, mounted: Option<Segments>)
    requires IsPart(body, false) && IsTail(tail)
    ensures ArtifactFilePath(root, ARTIFACT_PREFIX + (body + tail), name, mounted) ==
            if mounted.Some? && tail in {[], [QUESTION], [HASH], [QUESTION, HASH]}
               && WithoutLeadingSlashes(Unquote(body)) == name
            then Locate(root, mounted.value, name) else None
  {
    hide Locate, Unquote, Before;
    var rest := body + tail;
    assert (ARTIFACT_PREFIX + rest)[|ARTIFACT_PREFIX|..] == rest;
    BeforeIs(body, tail, false);
    assert rest[..|body|] == body && rest[|body|..] == tail;
    TailEmpty(tail);
  }

  lemma TailEmpty(tail: Text)
    requires IsTail(tail)
    ensures HasQueryOrFragment(tail) <==> tail !in {[], [QUESTION], [HASH], [QUESTION, HASH]}
  {
    if tail != [] && tail[0] == QUESTION {
      var n := UntilHash(tail[1..]);
      assert tail == [QUESTION] + tail[1..];
      assert tail == [QUESTION, HASH] ==> tail[1..] == [HASH];
      if n == 0 && |tail| == 2 { assert tail[1..][0] == HASH && tail == [QUESTION, HASH]; }
      if |tail| == 1 { assert tail == [QUESTION]; }
    } else if tail != [] {
      assert tail == [HASH] + tail[1..];
      if |tail| == 1 { assert tail == [HASH]; }
    }
  }

  /** Any other URI is refused if "://" stands anywhere in it, and else taken as a path. */
  lemma PathMeans(root: Segments, uri: Text, name: Text, mounted: Option<Segments>)
    requires !(ARTIFACT_PREFIX <= uri) && !(FILE_PREFIX <= uri)
    ensures ArtifactFilePath(root, uri, name, mounted) ==
            if exists a, b :: uri == a + [COLON, SLASH, SLASH] + b then None else Locate(root, root, uri)
  {
    hide Locate;
    if i :| 0 <= i < |uri| - 2 && uri[i] == COLON && uri[i + 1] == SLASH && uri[i + 2] == SLASH {
      assert uri == uri[..i] + [COLON, SLASH, SLASH] + uri[i + 3..];
    }
    if a, b :| uri == a + [COLON, SLASH, SLASH] + b {
      assert uri[|a|] == COLON && uri[|a| + 1] == SLASH && uri[|a| + 2] == SLASH;
    }
  }

  /** Leading slashes go, and nothing else. */
  lemma {:induction false} LeadingSlashes(text: Text)
    ensures var rest := WithoutLeadingSlashes(text);
            && |rest| <= |text| && text[|text| - |rest|..] == rest && (rest == [] || rest[0] != SLASH)
            && forall i | 0 <= i < |text| - |rest| :: text[i] == SLASH
  {
    if text != [] && text[0] == SLASH { LeadingSlashes(text[1..]); }
  }

  // ---------------------------------------------------------------- main results

  /** An escape in the committed path is one in the root's text: the relative part has no percent sign. */
  lemma EscapeInRoot(root: Segments, relative: Segments)
    requires IsPath(relative) && relative != [] && PERCENT !in PathText(relative)
    ensures HasEscape(PathText(root + relative)) <==> HasEscape(PathText(root))
  {
    var a, b := PathText(root), PathText(relative);
    PathTextJoin(root, relative);
    PathHead(relative);
    if i: nat :| EscapeAt(a, i) { assert EscapeAt(a + b, i); }
    if i: nat :| EscapeAt(a + b, i) {
      assert forall k | 0 <= k < |b| :: b[k] in b;
      assert i < |a|;
      assert (a + b)[|a|] == SLASH && !IsHexDigit(SLASH);
      assert EscapeAt(a, i);
    }
  }

  lemma FileBranch(root: Segments, rest: Text, name: Text, mounted: Option<Segments>)
    ensures ArtifactFilePath(root, FILE_PREFIX + rest, name, mounted) == FileUriPath(root, rest)
  {
    var uri := FILE_PREFIX + rest;
    assert uri[0] != ARTIFACT_PREFIX[0] && uri[|FILE_PREFIX|..] == rest;
  }

  /** Serving a retained artifact finds the committed file exactly when the storage root's path holds no
      percent sign followed by two hex digits: the path is decoded twice but was encoded once. */
  lemma RetainedUriResolves(root: Segments, relative: Segments, name: Text, mounted: Option<Segments>)
    requires IsPath(root) && IsPath(relative) && relative != [] && PERCENT !in PathText(relative)
    ensures ArtifactFilePath(root, FILE_PREFIX + RetainedUriRest(root, relative), name, mounted)
            == Some(root + relative)
            <==> !HasEscape(PathText(root))
  {
    hide Unquote, HasEscape, Quote, RetainedUriRest, Components, Before, IsComponent, ArtifactFilePath;
    var rest, path, text := RetainedUriRest(root, relative), root + relative, PathText(root + relative);
    FileBranch(root, rest, name, mounted);
    UnquoteUri(root, relative);
    UriParses(root, relative);
    assert rest[0..] == rest && rest[..|rest|] == rest;
    EscapeInRoot(root, relative);
    UnquoteFixed(text);
    PathHead(path);
    UnquoteHead(text);
    var decoded := Unquote(text);
    if HasEscape(text) {
      ComponentsNotLonger(decoded);
      ResolveNotLonger(Components(decoded), []);
      assert [] + Components(decoded) == Components(decoded);
    } else {
      PathTextClean(path);
      ComponentsOfPath(path);
      ResolvePath(path, []);
      assert [] + Components(decoded) == path && path[..|root|] == root;
    }
  }

  lemma ComponentAlone(c: Text)
    requires IsComponent(c)
    ensures Components(c) == [c] && WithoutLeadingSlashes(c) == c && 0 !in c
  {
    SegmentIs(c, []);
    assert c + [] == c && c[..|c|] == c && c[|c|..] == [];
  }

  lemma {:induction false} NothingAfter(text: Text)
    requires forall i | 0 <= i < |text| :: QuotedChar(text[i])
    ensures Before(text, false) == |text|
  {
    var n := Before(text, false);
  }

  /** An artifact locator is decoded once: quoting any name that is a path component finds that very file
      below the mounted directory, percent signs included. */
  lemma LocatorResolves(root: Segments, name: Text, mounted: Segments)
    requires IsPath(mounted) && IsComponent(name) && |root| <= |mounted| && mounted[..|root|] == root
    ensures ArtifactFilePath(root, ARTIFACT_PREFIX + Quote(name, false), name, Some(mounted)) == Some(mounted + [name])
  {
    hide Unquote, Quote, Components, IsComponent, Before, Resolve;
    var rest := Quote(name, false);
    assert (ARTIFACT_PREFIX + rest)[|ARTIFACT_PREFIX|..] == rest;
    AllQuoted(name, false);
    NothingAfter(rest);
    assert rest[|rest|..] == [] && rest[..|rest|] == rest;
    UnquoteQuote(name, false);
    ComponentAlone(name);
    ComponentHead(name);
    ResolvePath(mounted + [name], []);
    assert [] + (mounted + [name]) == mounted + [name];
  }

  function TextOf(s: string): (text: Text)
    ensures |text| == |s| && forall i | 0 <= i < |s| :: text[i] == s[i] as int
  {
    seq(|s|, i requires 0 <= i < |s| => s[i] as int)
  }

  /** The names that retention accepts are those of one path component (or empty), of at most 255 characters
      and without backslashes and control characters: so a locator finds them again. */
  lemma SafeNameIff(name: string)
    ensures Retention.SafeName(name) <==>
              && |name| <= 255 && (name == "" || IsComponent(TextOf(name)))
              && forall c | c in name :: c != '\\' && c !in seq(32, i requires 0 <= i < 32 => i as char)
  {
    var text := TextOf(name);
    assert name == "." ==> text == [DOT];
    assert text == [DOT] ==> name[0] == '.' && name == ".";
    assert name == ".." ==> text == [DOT, DOT];
    assert text == [DOT, DOT] ==> name[0] == '.' && name[1] == '.' && name == "..";
    forall c | c in name ensures (c as int < 32) <==> c in seq(32, i requires 0 <= i < 32 => i as char) {
      if c as int < 32 { assert seq(32, i requires 0 <= i < 32 => i as char)[c as int] == c; }
    }
    forall i | 0 <= i < |name| ensures name[i] in name { }
  }

  predicate IsPlain(c: char) { StoredNames.IsAlphanumeric(c) || c == '-' || c == '.' }

  lemma {:induction false} LowerPlain(s: string)
    requires forall c | c in s :: StoredNames.IsAlphanumeric(c) || c == '.'
    ensures forall c | c in StoredNames.Lower(s) :: IsPlain(c)
  {
    if s != [] {
      assert s[0] in s;
      LowerPlain(s[1..]);
    }
  }

  /** A stored name is a path component without a percent sign, so the hypotheses above hold of it. */
  lemma StoredNameIsComponent(index: nat, name: string, digest: string)
    requires |digest| == 16 && forall c | c in digest :: StoredNames.IsAlphanumeric(c)
    ensures var stored := StoredNames.StoredName(index, name, digest);
            && (forall c | c in stored :: c as int < 128)
            && IsComponent(TextOf(stored)) && PERCENT !in TextOf(stored)
  {
    var suffix := if StoredNames.SafeSuffix(StoredNames.Suffix(name)) then StoredNames.Suffix(name) else "";
    assert suffix != "" ==> suffix == ['.'] + suffix[1..];
    LowerPlain(suffix);
    var stored := StoredNames.StoredName(index, name, digest);
    assert forall c | c in stored :: IsPlain(c);
    assert |stored| >= 17;
    forall i | 0 <= i < |stored|
      ensures TextOf(stored)[i] != SLASH && TextOf(stored)[i] != 0 && TextOf(stored)[i] != PERCENT
    {
      assert stored[i] in stored;
    }
  }
}
