/** The per-token, per-route rate limiter with windows that start at a request. */
module RateLimit {
  // Microseconds.
  const MINUTE := 60_000_000

  datatype Row = Row(windowStartedAt: int, count: nat)

  function KeyOf(token: string, route: string): string { token + ":" + route }

  /** The request that started the window request i is counted in. */
  function WindowStart(times: seq<int>, i: nat): (w: nat)
    requires i < |times|
    ensures w <= i
  {
    if i == 0 then 0
    else
      var w := WindowStart(times, i - 1);
      if times[i] - times[w] >= MINUTE then i else w
  }

  /** Request i is accepted exactly when fewer than max requests of its window came before it. */
  predicate Accepts(times: seq<int>, max: int, i: nat)
    requires i < |times|
  {
    i - WindowStart(times, i) < max
  }

  function RowAfter(times: seq<int>): Row
    requires times != []
  {
    var w := WindowStart(times, |times| - 1);
    Row(times[w], |times| - w)
  }

  function AcceptedIn(times: seq<int>, max: int, lo: nat, hi: nat): nat
    requires lo <= hi <= |times|
    decreases hi - lo
  {
    if lo == hi then 0 else AcceptedIn(times, max, lo, hi - 1) + if Accepts(times, max, hi - 1) then 1 else 0
  }

  ghost predicate NonDecreasing(times: seq<int>) {
    forall i, j | 0 <= i < j < |times| :: times[i] <= times[j]
  }

  lemma {:induction false} WindowStartPrefix(times: seq<int>, more: seq<int>, i: nat)
    requires i < |times|
    ensures WindowStart(times + more, i) == WindowStart(times, i)
  {
    if i > 0 { WindowStartPrefix(times, more, i - 1); }
  }

  lemma NextRow(before: seq<int>, now: int)
    ensures var times := before + [now];
            RowAfter(times) == if before == [] || now - RowAfter(before).windowStartedAt >= MINUTE then Row(now, 1)
                               else Row(RowAfter(before).windowStartedAt, RowAfter(before).count + 1)
  {
    if before != [] { WindowStartPrefix(before, [now], |before| - 1); }
  }

  lemma AcceptsByCount(times: seq<int>, max: int)
    requires times != []
    ensures Accepts(times, max, |times| - 1) <==> RowAfter(times).count <= max
  { }

  /** The counter rows as the store keeps them, one per key. */
  class RateLimiter {
    var rows: map<string, Row>
    // The times of the counted requests of every key.
    ghost var history: map<string, seq<int>>

    ghost predicate Valid()
      reads this
    {
      && rows.Keys == history.Keys
      && forall key | key in rows :: history[key] != [] && rows[key] == RowAfter(history[key])
    }

    ghost function Times(key: string): seq<int>
      reads this
    {
      if key in history then history[key] else []
    }

    constructor ()
      ensures Valid() && rows == map[] && history == map[]
    {
      rows, history := map[], map[];
    }

    method IncrementRateLimit(key: string, now: int, reset: bool) returns (row: Row)
      modifies this`rows
      ensures key in rows && row == rows[key] && rows == old(rows)[key := row]
      ensures row == if key !in old(rows) || reset then Row(now, 1)
                     else Row(old(rows)[key].windowStartedAt, old(rows)[key].count + 1)
    {
      row := if key !in rows || reset then Row(now, 1) else Row(rows[key].windowStartedAt, rows[key].count + 1);
      rows := rows[key := row];
    }

    /** One request: the answer is that of the closed form over all requests counted for this token and
        route; other rows are not touched, and a limit of zero or less counts nothing. */
    method CheckRateLimit(token: string, route: string, maxPerMinute: int, now: int) returns (accepted: bool)
      requires Valid()
      modifies this
      ensures Valid()
      ensures maxPerMinute <= 0 ==> accepted && rows == old(rows) && history == old(history)
      ensures maxPerMinute > 0 ==>
                var key, times := KeyOf(token, route), old(Times(KeyOf(token, route))) + [now];
                && history == old(history)[key := times]
                && (forall other | other != key :: other in rows <==> other in old(rows))
                && (forall other | other in rows && other != key :: rows[other] == old(rows)[other])
                && (accepted <==> Accepts(times, maxPerMinute, |times| - 1))
    {
      hide RowAfter, Accepts, KeyOf;
      if maxPerMinute <= 0 { return true; }
      var key := KeyOf(token, route);
      ghost var before := Times(key);
      ghost var times := before + [now];
      NextRow(before, now);
      AcceptsByCount(times, maxPerMinute);
      var existing := IncrementRateLimit(key, now, false);
      if now - existing.windowStartedAt >= MINUTE {
        existing := IncrementRateLimit(key, now, true);
      }
      history := history[key := times];
      return existing.count <= maxPerMinute;
    }
  }

  // ---------------------------------------------------------------- bounds

  lemma {:induction false} SameWindow(times: seq<int>, v: nat, j: nat, i: nat)
    requires i < |times| && v <= j <= i && WindowStart(times, i) == v
    ensures WindowStart(times, j) == v
  {
    if j < i { SameWindow(times, v, j, i - 1); }
  }

  /** Of the requests lo..hi of one window, at most those among its first max are accepted. */
  lemma {:induction false} WindowBound(times: seq<int>, max: nat, w: nat, lo: nat, hi: nat)
    requires w <= lo <= hi <= |times| && (forall j | lo <= j < hi :: WindowStart(times, j) == w)
    ensures AcceptedIn(times, max, lo, hi) ==
            (if hi - w <= max then hi - lo else if lo - w < max then max - (lo - w) else 0)
    decreases hi - lo
  {
    if lo < hi { WindowBound(times, max, w, lo, hi - 1); }
  }

  lemma {:induction false} AcceptedSplit(times: seq<int>, max: int, lo: nat, mid: nat, hi: nat)
    requires lo <= mid <= hi <= |times|
    ensures AcceptedIn(times, max, lo, hi) == AcceptedIn(times, max, lo, mid) + AcceptedIn(times, max, mid, hi)
    decreases hi - mid
  {
    if mid < hi { AcceptedSplit(times, max, lo, mid, hi - 1); }
  }

  /** A denied request finds exactly max accepted before it in its window, which all began less than a
      minute ago. */
  lemma DeniedMeansFull(times: seq<int>, max: nat, i: nat)
    requires i < |times| && NonDecreasing(times) && max > 0 && !Accepts(times, max, i)
    ensures var w := WindowStart(times, i);
            AcceptedIn(times, max, w, i) == max && forall j | w <= j <= i :: times[i] - times[j] < MINUTE
  {
    var w := WindowStart(times, i);
    forall j | w <= j < i ensures WindowStart(times, j) == w { SameWindow(times, w, j, i); }
    WindowBound(times, max, w, w, i);
    WithinMinute(times, i);
  }

  lemma WithinMinute(times: seq<int>, i: nat)
    requires i < |times| && NonDecreasing(times)
    ensures times[i] - times[WindowStart(times, i)] < MINUTE
  { }

  /** In any half-open span of a minute at most 2 * max - 1 requests are accepted: two windows can meet in
      it, and then the request that opened the first lies before it. */
  lemma SpanBound(times: seq<int>, max: nat, lo: nat, hi: nat)
    requires NonDecreasing(times) && max > 0 && lo < hi <= |times| && times[hi - 1] - times[lo] < MINUTE
    ensures AcceptedIn(times, max, lo, hi) <= 2 * max - 1
  {
    hide WindowStart, AcceptedIn;
    var w := WindowStart(times, hi - 1);
    if w <= lo {
      forall j | lo <= j < hi ensures WindowStart(times, j) == w { SameWindow(times, w, j, hi - 1); }
      WindowBound(times, max, w, lo, hi);
    } else {
      forall j | w <= j < hi ensures WindowStart(times, j) == w { SameWindow(times, w, j, hi - 1); }
      WindowBound(times, max, w, w, hi);
      var v := WindowStart(times, w - 1);
      WindowOpened(times, w, hi - 1);
      assert times[v] < times[lo];
      forall j | lo <= j < w ensures WindowStart(times, j) == v { SameWindow(times, v, j, w - 1); }
      WindowBound(times, max, v, lo, w);
      AcceptedSplit(times, max, lo, w, hi);
    }
  }

  /** A window that is not the first was opened because the one before it was a minute old. */
  lemma {:induction false} WindowOpened(times: seq<int>, w: nat, i: nat)
    requires i < |times| && WindowStart(times, i) == w > 0
    ensures times[w] - times[WindowStart(times, w - 1)] >= MINUTE
  {
    if w < i { WindowOpened(times, w, i - 1); }
  }

  /** One request, then max - 1 just before the minute is over, then max as the next one starts. */
  function Burst(max: nat): (times: seq<int>)
    requires max > 0
    ensures |times| == 2 * max
    ensures forall i | 0 <= i < 2 * max :: times[i] == if i == 0 then 0 else if i < max then MINUTE - 1 else MINUTE
  {
    seq(2 * max, i requires 0 <= i < 2 * max => if i == 0 then 0 else if i < max then MINUTE - 1 else MINUTE)
  }

  lemma {:induction false} BurstWindows(max: nat, i: nat)
    requires max > 0 && i < 2 * max
    ensures WindowStart(Burst(max), i) == if i < max then 0 else max
  {
    if i > 0 { BurstWindows(max, i - 1); }
  }

  /** The bound is attained for every limit: 2 * max - 1 acceptances within a microsecond. */
  lemma SpanBoundIsTight(max: nat)
    requires max > 0
    ensures var times := Burst(max);
            && NonDecreasing(times) && times[2 * max - 1] - times[1] < MINUTE
            && AcceptedIn(times, max, 1, 2 * max) == 2 * max - 1
  {
    var times := Burst(max);
    forall i: nat | i < 2 * max ensures WindowStart(times, i) == if i < max then 0 else max { BurstWindows(max, i); }
    WindowBound(times, max, 0, 1, max);
    WindowBound(times, max, max, max, 2 * max);
    AcceptedSplit(times, max, 1, max, 2 * max);
  }

  // ---------------------------------------------------------------- keys

  /** Routes are URL paths. */
  predicate IsRoute(r: string) { r != "" && r[0] == '/' }

  predicate HasColonSlash(s: string, i: nat) { i + 1 < |s| && s[i] == ':' && s[i + 1] == '/' }

  predicate SameRow(t: string, r: string, u: string, q: string) {
    IsRoute(r) && IsRoute(q) && KeyOf(t, r) == KeyOf(u, q)
  }

  lemma ShorterShares(t: string, r: string, u: string, q: string)
    requires SameRow(t, r, u, q) && |u| < |t|
    ensures HasColonSlash(t, |u|)
  {
    var key := KeyOf(t, r);
    assert key[|t|] == ':' && key[|t| + 1] == '/' && key[|u|] == ':' && key[|u| + 1] == '/';
    assert t[|u|] == key[|u|] && (|u| + 1 < |t| ==> t[|u| + 1] == key[|u| + 1]);
  }

  /** A token shares a row with some shorter token exactly when it contains ":/". */
  lemma RowSharedIff(t: string)
    ensures (exists i :: HasColonSlash(t, i)) <==> exists u, r, q :: |u| < |t| && SameRow(t, r, u, q)
  {
    if i: nat :| HasColonSlash(t, i) {
      var u, q := t[..i], t[i + 1..] + ":" + "/";
      assert u + ":" + q == t + ":" + "/";
      assert SameRow(t, "/", u, q);
    }
    forall u, r, q | |u| < |t| && SameRow(t, r, u, q) ensures exists i :: HasColonSlash(t, i) {
      ShorterShares(t, r, u, q);
    }
  }

  /** So while no token contains it, every token and route has its own row. */
  lemma KeysApart(t: string, r: string, u: string, q: string)
    requires IsRoute(r) && IsRoute(q) && forall i :: !HasColonSlash(t, i) && !HasColonSlash(u, i)
    ensures KeyOf(t, r) == KeyOf(u, q) <==> t == u && r == q
  {
    if KeyOf(t, r) == KeyOf(u, q) {
      if |u| < |t| { ShorterShares(t, r, u, q); }
      if |t| < |u| { ShorterShares(u, q, t, r); }
      var key := KeyOf(t, r);
      assert t == key[..|t|] && u == key[..|u|] && r == key[|t| + 1..] && q == key[|u| + 1..];
    }
  }
}
