/**
 The two rate limiters.  Instants are integers (nanoseconds of the monotonic
 clock).  A closed window of length `w` starting at `a` is `[a, a + w]`.
 */
module RateLimit {
  import opened Common
  import opened Text

  const WINDOW := 60_000_000_000
  const GLOBAL_MAX_REQUESTS := 100

  ghost predicate Sorted(h: seq<int>) {
    forall i, j :: 0 <= i <= j < |h| ==> h[i] <= h[j]
  }

  /** How many of the instants lie in the closed window. */
  function CountIn(h: seq<int>, a: int, w: int): nat {
    if h == [] then 0 else CountIn(Init(h), a, w) + if a <= Last(h) <= a + w then 1 else 0
  }

  /** Any `n + 1` consecutive instants span more than the window. */
  ghost predicate Spaced(h: seq<int>, n: nat, w: int) {
    Sorted(h) && forall i, j :: 0 <= i && j == i + n < |h| ==> h[j] - h[i] > w
  }

  lemma SpacedOneMore(h: seq<int>, t: int, n: nat, w: int)
    requires Spaced(h, n, w) && (h != [] ==> Last(h) <= t)
    requires 1 <= n && (|h| >= n ==> t - h[|h| - n] > w)
    ensures Spaced(h + [t], n, w)
  {
  }

  lemma {:induction false} CountTail(h: seq<int>, a: int, w: int, k: nat)
    requires k <= |h| && forall i :: 0 <= i < k ==> h[i] < a
    ensures CountIn(h, a, w) <= |h| - k
  {
    if h != [] {
      if k == |h| {
        CountTail(Init(h), a, w, k - 1);
      } else {
        CountTail(Init(h), a, w, k);
      }
    }
  }

  /** Spacing of the accepted instants bounds every closed window. */
  lemma {:induction false} SpacedBoundsWindows(h: seq<int>, n: nat, a: int, w: int)
    requires n >= 1 && Spaced(h, n, w)
    ensures CountIn(h, a, w) <= n
  {
    if h != [] {
      if a <= Last(h) <= a + w && |h| > n {
        var k := |h| - n;
        assert h[k - 1 + n] - h[k - 1] > w;
        CountTail(h, a, w, k);
      } else {
        SpacedBoundsWindows(Init(h), n, a, w);
        if |h| <= n {
          CountTail(h, a, w, 0);
        }
      }
    }
  }

  // --- Sliding window: authentication attempts -----------------------------

  /** The accepted attempts that are not older than the window. */
  function Recent(h: seq<int>, now: int, w: int): seq<int> {
    if h == [] then []
    else if now - h[0] > w then Recent(h[1..], now, w)
    else [h[0]] + Recent(h[1..], now, w)
  }

  /** The simple rule: keep the whole history, accept while fewer than `max` lie in the last window. */
  function SimpleRule(h: seq<int>, now: int, max: nat, w: int): bool {
    |Recent(h, now, w)| < max
  }

  lemma {:induction false} RecentOfFresh(h: seq<int>, now: int, w: int)
    requires forall i :: 0 <= i < |h| ==> now - h[i] <= w
    ensures Recent(h, now, w) == h
  {
    if h != [] {
      RecentOfFresh(h[1..], now, w);
    }
  }

  lemma {:induction false} RecentIsCount(h: seq<int>, now: int, w: int)
    requires forall i :: 0 <= i < |h| ==> h[i] <= now
    ensures |Recent(h, now, w)| == CountIn(h, now - w, w)
  {
    if h != [] {
      RecentIsCount(Init(h), now, w);
      RecentAppend(Init(h), Last(h), now, w);
      assert h == Init(h) + [Last(h)];
    }
  }

  lemma {:induction false} RecentAppend(h: seq<int>, t: int, now: int, w: int)
    ensures Recent(h + [t], now, w) == Recent(h, now, w) + if now - t > w then [] else [t]
  {
    if h != [] {
      RecentAppend(h[1..], t, now, w);
      assert (h + [t])[1..] == h[1..] + [t];
    }
  }

  /** An attempt is refused if and only if `max` accepted ones lie in the closed window that ends with it. */
  lemma RefusedIffFull(h: seq<int>, now: int, max: nat, w: int)
    requires forall i :: 0 <= i < |h| ==> h[i] <= now
    ensures SimpleRule(h, now, max, w) <==> CountIn(h, now - w, w) < max
  {
    RecentIsCount(h, now, w);
  }

  /** One more accepted attempt keeps any `max + 1` accepted attempts wider than the window. */
  lemma SimpleRuleKeepsSpacing(h: seq<int>, now: int, max: nat, w: int)
    requires Spaced(h, max, w) && (h != [] ==> Last(h) <= now)
    requires SimpleRule(h, now, max, w)
    ensures Spaced(h + [now], max, w)
  {
    if |h| >= max {
      var k := |h| - max;
      if now - h[k] <= w {
        // The last `max` attempts would all be recent.
        assert forall i :: 0 <= i < |h[k..]| ==> now - h[k..][i] <= w;
        RecentOfFresh(h[k..], now, w);
        RecentSuffix(h, k, now, w);
      }
      assert now - h[k] > w;
    }
  }

  lemma {:induction false} RecentSuffix(h: seq<int>, k: nat, now: int, w: int)
    requires k <= |h|
    ensures |Recent(h, now, w)| >= |Recent(h[k..], now, w)|
    decreases k
  {
    if k > 0 {
      RecentSuffix(h[1..], k - 1, now, w);
      assert h[1..][k - 1..] == h[k..];
    }
  }

  /** The deque of one client, with the history of accepted attempts beside it. */
  class AttemptLog {
    const max: nat
    const window: int
    var attempts: seq<int>
    ghost var history: seq<int>
    ghost var last: int

    /** The deque holds exactly the recent part of the history, and never more than `max`. */
    ghost predicate Valid()
      reads this
    {
      && 0 <= window
      && 1 <= max
      && Spaced(history, max, window)
      && (history != [] ==> Last(history) <= last)
      && attempts == Recent(history, last, window)
      && Sorted(attempts)
      && |attempts| <= max
    }

    constructor (max: nat, window: int, now: int)
      requires 1 <= max && 0 <= window
      ensures Valid() && history == [] && last == now && this.max == max && this.window == window
    {
      this.max, this.window, this.last := max, window, now;
      attempts, history := [], [];
    }

    /** The loop that pops attempts older than the window off the front. */
    method DropStale(now: int)
      requires Sorted(attempts)
      modifies `attempts
      ensures attempts == Recent(old(attempts), now, window) && Sorted(attempts) && |attempts| <= |old(attempts)|
    {
      while attempts != [] && now - attempts[0] > window
        invariant Recent(attempts, now, window) == Recent(old(attempts), now, window)
        invariant Sorted(attempts) && |attempts| <= |old(attempts)|
        decreases |attempts|
      {
        attempts := attempts[1..];
      }
      assert forall i :: 0 <= i < |attempts| ==> attempts[0] <= attempts[i];
      RecentOfFresh(attempts, now, window);
    }

    method RecordAuthAttempt(now: int) returns (ok: bool)
      requires Valid() && last <= now
      modifies this
      ensures Valid() && last == now
      ensures ok == SimpleRule(old(history), now, max, window)
      ensures history == if ok then old(history) + [now] else old(history)
    {
      ghost var h := history;
      RecentOfRecent(h, last, now, window);
      DropStale(now);
      last := now;
      if |attempts| >= max {
        return false;
      }
      SimpleRuleKeepsSpacing(h, now, max, window);
      RecentAppend(h, now, now, window);
      RecentBelow(h, now, window);
      history := history + [now];
      attempts := attempts + [now];
      ok := true;
    }
  }

  /** Filtering for an earlier instant first changes nothing. */
  lemma {:induction false} RecentOfRecent(h: seq<int>, before: int, now: int, w: int)
    requires before <= now
    ensures Recent(Recent(h, before, w), now, w) == Recent(h, now, w)
  {
    if h != [] {
      RecentOfRecent(h[1..], before, now, w);
      if now - h[0] <= w {
        var r := Recent(h[1..], before, w);
        assert ([h[0]] + r)[1..] == r;
      } else if before - h[0] <= w {
        var r := Recent(h[1..], before, w);
        assert ([h[0]] + r)[1..] == r;
      }
    }
  }

  lemma {:induction false} RecentBelow(h: seq<int>, now: int, w: int)
    requires Sorted(h) && (h != [] ==> Last(h) <= now)
    ensures forall i :: 0 <= i < |Recent(h, now, w)| ==> Recent(h, now, w)[i] <= now
  {
    if h != [] {
      RecentBelow(h[1..], now, w);
    }
  }

  /** All requests of one client, in order, through the simple rule. */
  function SimpleRun(times: seq<int>, max: nat, w: int): seq<int> {
    if times == [] then []
    else
      var h := SimpleRun(Init(times), max, w);
      if SimpleRule(h, Last(times), max, w) then h + [Last(times)] else h
  }

  /** Every closed window of every history holds at most `max` accepted attempts. */
  lemma {:induction false} AuthWindowBound(times: seq<int>, max: nat, w: int, a: int)
    requires Sorted(times) && max >= 1 && w >= 0
    ensures CountIn(SimpleRun(times, max, w), a, w) <= max
  {
    SimpleRunSpaced(times, max, w);
    SpacedBoundsWindows(SimpleRun(times, max, w), max, a, w);
  }

  lemma {:induction false} SimpleRunSpaced(times: seq<int>, max: nat, w: int)
    requires Sorted(times) && max >= 1 && w >= 0
    ensures Spaced(SimpleRun(times, max, w), max, w)
    ensures forall x :: x in SimpleRun(times, max, w) ==> times != [] && x <= Last(times)
  {
    if times != [] {
      SimpleRunSpaced(Init(times), max, w);
      var h := SimpleRun(Init(times), max, w);
      if h != [] {
        assert Last(h) in h;
      }
      if SimpleRule(h, Last(times), max, w) {
        SimpleRuleKeepsSpacing(h, Last(times), max, w);
      }
    }
  }

  /** In numbers: at most ten authentication attempts of a client are accepted in any sixty seconds. */
  lemma TenPerMinute(times: seq<int>, a: int)
    requires Sorted(times)
    ensures CountIn(SimpleRun(times, 10, 60_000_000_000), a, 60_000_000_000) <= 10
  {
    AuthWindowBound(times, 10, 60_000_000_000, a);
  }

  // --- Fixed window: per-client and per-key counters ------------------------

  datatype Entry = Entry(count: nat, lastReset: int)

  /** One request against the counter of its client. */
  function FixedStep(entry: Option<Entry>, now: int, limit: nat, w: int): (Entry, bool) {
    var e := entry.GetOr(Entry(0, now));
    if now - e.lastReset > w then (Entry(1, now), true)
    else if e.count >= limit then (e, false)
    else (e.(count := e.count + 1), true)
  }

  /** A request and the limit that is in force for it; limits may change from request to request. */
  datatype Ask = Ask(at: int, limit: nat)

  /** The counter after all requests of one client, and the accepted instants. */
  function FixedRun(asks: seq<Ask>, w: int): (Option<Entry>, seq<int>) {
    if asks == [] then (None, [])
    else
      var (entry, accepted) := FixedRun(Init(asks), w);
      var (next, ok) := FixedStep(entry, Last(asks).at, Last(asks).limit, w);
      (Some(next), if ok then accepted + [Last(asks).at] else accepted)
  }

  lemma FixedRunOneMore(asks: seq<Ask>, ask: Ask, w: int)
    ensures
      var (entry, accepted) := FixedRun(asks, w);
      var (next, ok) := FixedStep(entry, ask.at, ask.limit, w);
      FixedRun(asks + [ask], w) == (Some(next), if ok then accepted + [ask.at] else accepted)
  {
    assert Init(asks + [ask]) == asks;
  }

  /** The requests come in order, with limits from 1 to `most`. */
  ghost predicate Orderly(asks: seq<Ask>, most: nat) {
    && (forall i, j :: 0 <= i <= j < |asks| ==> asks[i].at <= asks[j].at)
    && forall i :: 0 <= i < |asks| ==> 1 <= asks[i].limit <= most
  }

  /**
   What the counter knows about the accepted instants `h`: the last `count` of
   them opened and filled the current window, and the window before, which held
   at most `limit`, was opened more than `w` before the current one.
   */
  ghost predicate Explains(entry: Option<Entry>, h: seq<int>, limit: nat, w: int)
    requires limit >= 1
  {
    && Spaced(h, 2 * limit - 1, w)
    && match entry
       case None => h == []
       case Some(Entry(count, reset)) =>
         var b := |h| - count;
         && 1 <= count <= limit && 0 <= b
         && h[b] == reset
         && Last(h) <= reset + w
         && (b > 0 ==> h[if b < limit then 0 else b - limit] + w < reset)
  }

  /** Nothing in the counter or the history is later than the last request. */
  ghost predicate UpTo(entry: Option<Entry>, h: seq<int>, now: int) {
    (forall i :: 0 <= i < |h| ==> h[i] <= now) && (entry.Some? ==> entry.value.lastReset <= now)
  }

  /** An accepted request lies more than `w` behind the instant `2 * most - 1` places before it. */
  lemma AcceptedFarBehind(entry: Option<Entry>, h: seq<int>, now: int, limit: nat, most: nat, w: int)
    requires 1 <= limit <= most && w >= 0 && Explains(entry, h, most, w) && |h| >= 2 * most - 1
    requires entry.Some? ==> entry.value.lastReset <= now
    requires FixedStep(entry, now, limit, w).1
    ensures now - h[|h| - (2 * most - 1)] > w
  {
    var b := |h| - entry.value.count;
    var near := if now - entry.value.lastReset > w then b else b - most;
    assert h[|h| - (2 * most - 1)] <= h[near];
  }

  lemma AcceptedKeepsSpacing(entry: Option<Entry>, h: seq<int>, now: int, limit: nat, most: nat, w: int)
    requires 1 <= limit <= most && w >= 0 && Explains(entry, h, most, w)
    requires h != [] ==> Last(h) <= now
    requires entry.Some? ==> entry.value.lastReset <= now
    requires FixedStep(entry, now, limit, w).1
    ensures Spaced(h + [now], 2 * most - 1, w)
  {
    if |h| >= 2 * most - 1 {
      AcceptedFarBehind(entry, h, now, limit, most, w);
    }
    SpacedOneMore(h, now, 2 * most - 1, w);
  }

  lemma FixedStepExplained(entry: Option<Entry>, h: seq<int>, now: int, limit: nat, most: nat, w: int)
    requires 1 <= limit <= most && w >= 0 && Explains(entry, h, most, w)
    requires h != [] ==> Last(h) <= now
    requires entry.Some? ==> entry.value.lastReset <= now
    ensures
      var (next, ok) := FixedStep(entry, now, limit, w);
      Explains(Some(next), if ok then h + [now] else h, most, w)
  {
    if FixedStep(entry, now, limit, w).1 {
      AcceptedKeepsSpacing(entry, h, now, limit, most, w);
    }
  }

  ghost predicate Good(state: (Option<Entry>, seq<int>), most: nat, w: int, now: int)
    requires most >= 1
  {
    Explains(state.0, state.1, most, w) && UpTo(state.0, state.1, now)
  }

  lemma FixedStepGood(state: (Option<Entry>, seq<int>), earlier: int, now: int, limit: nat, most: nat, w: int)
    requires 1 <= limit <= most && w >= 0 && Good(state, most, w, earlier) && earlier <= now
    ensures
      var (next, ok) := FixedStep(state.0, now, limit, w);
      Good((Some(next), if ok then state.1 + [now] else state.1), most, w, now)
  {
    FixedStepExplained(state.0, state.1, now, limit, most, w);
  }

  lemma {:induction false} FixedRunGood(asks: seq<Ask>, most: nat, w: int)
    requires Orderly(asks, most) && most >= 1 && w >= 0 && asks != []
    ensures Good(FixedRun(asks, w), most, w, Last(asks).at)
  {
    var before, ask := Init(asks), Last(asks);
    assert ask == asks[|asks| - 1];
    if before == [] {
      FixedStepGood((None, []), ask.at, ask.at, ask.limit, most, w);
    } else {
      assert Last(before) == asks[|asks| - 2];
      FixedRunGood(before, most, w);
      FixedStepGood(FixedRun(before, w), Last(before).at, ask.at, ask.limit, most, w);
    }
  }

  /** Every closed window of every history holds at most `2 * most - 1` accepted requests. */
  lemma FixedWindowBound(asks: seq<Ask>, most: nat, w: int, a: int)
    requires Orderly(asks, most) && most >= 1 && w >= 0
    ensures CountIn(FixedRun(asks, w).1, a, w) <= 2 * most - 1
  {
    if asks != [] {
      FixedRunGood(asks, most, w);
    }
    SpacedBoundsWindows(FixedRun(asks, w).1, 2 * most - 1, a, w);
  }

  lemma {:induction false} CountAtLeast(h: seq<int>, a: int, w: int, k: nat)
    requires k <= |h| && forall i :: |h| - k <= i < |h| ==> a <= h[i] <= a + w
    ensures CountIn(h, a, w) >= k
  {
    if k > 0 {
      CountAtLeast(Init(h), a, w, k - 1);
    }
  }

  /** A request is refused only when as many as its limit were accepted in the closed window that ends with it. */
  lemma FixedRefusedOnlyIfFull(asks: seq<Ask>, ask: Ask, most: nat, w: int)
    requires Orderly(asks + [ask], most) && most >= 1 && w >= 0
    requires !FixedStep(FixedRun(asks, w).0, ask.at, ask.limit, w).1
    ensures CountIn(FixedRun(asks, w).1, ask.at - w, w) >= ask.limit
  {
    assert (asks + [ask])[|asks|] == ask;
    if asks != [] {
      forall i | 0 <= i < |asks| ensures asks[i] == (asks + [ask])[i] {}
      FixedRunGood(asks, most, w);
      assert Last(asks) == (asks + [ask])[|asks| - 1];
      var (entry, h) := FixedRun(asks, w);
      RefusedEntryFull(entry, h, Last(asks).at, ask, most, w);
    }
  }

  lemma RefusedEntryFull(entry: Option<Entry>, h: seq<int>, earlier: int, ask: Ask, most: nat, w: int)
    requires 1 <= ask.limit <= most && w >= 0 && Good((entry, h), most, w, earlier) && earlier <= ask.at
    requires entry.Some? && !FixedStep(entry, ask.at, ask.limit, w).1
    ensures CountIn(h, ask.at - w, w) >= ask.limit
  {
    CountAtLeast(h, ask.at - w, w, ask.limit);
  }

  /** The first request of a client is always accepted, and so is one that comes after the window. */
  lemma FixedAcceptsFresh(entry: Option<Entry>, now: int, limit: nat, w: int)
    requires limit >= 1 && w >= 0 && (entry.Some? ==> now > entry.value.lastReset + w)
    ensures FixedStep(entry, now, limit, w) == (Entry(1, now), true)
  {
  }

  /** In numbers: at most 199 requests of a client are accepted in any sixty seconds. */
  lemma GlobalBound(times: seq<int>, a: int)
    requires Sorted(times)
    ensures CountIn(FixedRun(Asks(times, 100), 60_000_000_000).1, a, 60_000_000_000) <= 199
  {
    FixedWindowBound(Asks(times, 100), 100, 60_000_000_000, a);
  }

  /** Request `i` of a history that fills the end of one window and the start of the next. */
  function BurstTime(limit: nat, w: int, i: nat): int {
    if i == 0 then 0 else if i < limit then w else w + 1
  }

  ghost predicate IsBurst(times: seq<int>, limit: nat, w: int) {
    1 <= |times| <= 2 * limit && forall i :: 0 <= i < |times| ==> times[i] == BurstTime(limit, w, i)
  }

  function BurstEntry(limit: nat, w: int, k: nat): Entry {
    if k < limit then Entry(k + 1, 0) else Entry(k + 1 - limit, w + 1)
  }

  lemma BurstStep(limit: nat, w: int, k: nat)
    requires w >= 1 && k < 2 * limit
    ensures
      FixedStep(if k == 0 then None else Some(BurstEntry(limit, w, k - 1)), BurstTime(limit, w, k), limit, w)
      == (BurstEntry(limit, w, k), true)
  {
  }

  /** The same limit for all requests. */
  function Asks(times: seq<int>, limit: nat): seq<Ask> {
    seq(|times|, i requires 0 <= i < |times| => Ask(times[i], limit))
  }

  /** A run that accepted everything goes on to accept one more. */
  lemma AcceptedRunExtends(times: seq<int>, t: int, e: Option<Entry>, next: Entry, limit: nat, w: int)
    requires FixedRun(Asks(times, limit), w) == (e, times) && FixedStep(e, t, limit, w) == (next, true)
    ensures FixedRun(Asks(times + [t], limit), w) == (Some(next), times + [t])
  {
    assert Asks(times + [t], limit) == Asks(times, limit) + [Ask(t, limit)];
    FixedRunOneMore(Asks(times, limit), Ask(t, limit), w);
  }

  lemma {:induction false} BurstAccepted(times: seq<int>, limit: nat, w: int)
    requires w >= 1 && IsBurst(times, limit, w)
    ensures FixedRun(Asks(times, limit), w) == (Some(BurstEntry(limit, w, |times| - 1)), times)
  {
    var before, k := Init(times), |times| - 1;
    BurstStep(limit, w, k);
    if k == 0 {
      assert Asks([], limit) == [];
      AcceptedRunExtends([], times[0], None, BurstEntry(limit, w, 0), limit, w);
    } else {
      BurstAccepted(before, limit, w);
      AcceptedRunExtends(before, times[k], Some(BurstEntry(limit, w, k - 1)), BurstEntry(limit, w, k), limit, w);
    }
    assert times == before + [times[k]];
  }

  lemma {:induction false} BurstCount(times: seq<int>, limit: nat, w: int)
    requires w >= 1 && IsBurst(times, limit, w)
    ensures CountIn(times, w, w) == |times| - 1
  {
    if |times| == 1 {
      assert Init(times) == [];
    } else {
      BurstCount(Init(times), limit, w);
    }
  }

  /** The bound is exact: some history reaches it. */
  lemma FixedWindowBoundIsTight(limit: nat, w: int) returns (asks: seq<Ask>)
    requires limit >= 1 && w >= 1
    ensures Orderly(asks, limit) && CountIn(FixedRun(asks, w).1, w, w) == 2 * limit - 1
  {
    var times := seq(2 * limit, i requires 0 <= i => BurstTime(limit, w, i));
    BurstAccepted(times, limit, w);
    BurstCount(times, limit, w);
    asks := Asks(times, limit);
  }

  // --- Many clients on one table of counters ----------------------------------

  const DEFAULT_KEY_LIMIT := 300

  /** The limit of an application key as it is read for each request: the stored value, if it is a positive `u32`. */
  function KeyLimit(stored: Option<int>): (limit: nat)
    ensures limit >= 1
    ensures stored.Some? && 1 <= stored.value < 4_294_967_296 ==> limit == stored.value
    ensures stored.None? || stored.value <= 0 ==> limit == 300
  {
    if stored.Some? && 1 <= stored.value <= 0xffff_ffff then stored.value else DEFAULT_KEY_LIMIT
  }

  datatype Hit<Key> = Hit(key: Key, ask: Ask)

  function AsksOf<Key(==)>(hits: seq<Hit<Key>>, key: Key): seq<Ask> {
    if hits == [] then []
    else AsksOf(Init(hits), key) + if Last(hits).key == key then [Last(hits).ask] else []
  }

  /** The instants of the accepted requests of one key. */
  function TimesOf<Key(==)>(hits: seq<Hit<Key>>, key: Key): seq<int> {
    if hits == [] then []
    else TimesOf(Init(hits), key) + if Last(hits).key == key then [Last(hits).ask.at] else []
  }

  function LookupIn<Key(==)>(entries: map<Key, Entry>, key: Key): Option<Entry> {
    if key in entries then Some(entries[key]) else None
  }

  /** The counters after all requests, and the accepted requests. */
  function CountersRun<Key(==)>(hits: seq<Hit<Key>>, w: int): (map<Key, Entry>, seq<Hit<Key>>) {
    if hits == [] then (map[], [])
    else
      var (entries, accepted) := CountersRun(Init(hits), w);
      var hit := Last(hits);
      var (next, ok) := FixedStep(LookupIn(entries, hit.key), hit.ask.at, hit.ask.limit, w);
      (entries[hit.key := next], if ok then accepted + [hit] else accepted)
  }

  lemma TimesOneMore<Key>(accepted: seq<Hit<Key>>, hit: Hit<Key>, key: Key)
    ensures
      TimesOf(accepted + [hit], key) ==
      if hit.key == key then TimesOf(accepted, key) + [hit.ask.at] else TimesOf(accepted, key)
  {
    assert Init(accepted + [hit]) == accepted;
  }

  /** A request of another key changes nothing for this one. */
  lemma OtherKeyStep<Key>(
    entries: map<Key, Entry>, accepted: seq<Hit<Key>>, hit: Hit<Key>, key: Key, next: Entry, ok: bool)
    requires hit.key != key
    ensures LookupIn(entries[hit.key := next], key) == LookupIn(entries, key)
    ensures TimesOf(if ok then accepted + [hit] else accepted, key) == TimesOf(accepted, key)
  {
    TimesOneMore(accepted, hit, key);
  }

  /** However requests interleave, each key gets what it would get alone. */
  lemma {:induction false} KeysAreIndependent<Key>(hits: seq<Hit<Key>>, key: Key, w: int)
    ensures
      var (entries, accepted) := CountersRun(hits, w);
      (LookupIn(entries, key), TimesOf(accepted, key)) == FixedRun(AsksOf(hits, key), w)
  {
    if hits != [] {
      KeysAreIndependent(Init(hits), key, w);
      var (entries, accepted) := CountersRun(Init(hits), w);
      var hit, asks := Last(hits), AsksOf(Init(hits), key);
      var (next, ok) := FixedStep(LookupIn(entries, hit.key), hit.ask.at, hit.ask.limit, w);
      if hit.key == key {
        TimesOneMore(accepted, hit, key);
        FixedRunOneMore(asks, hit.ask, w);
      } else {
        OtherKeyStep(entries, accepted, hit, key, next, ok);
        assert AsksOf(hits, key) == asks;
      }
    }
  }

  ghost predicate InOrder<Key>(hits: seq<Hit<Key>>) {
    forall i, j :: 0 <= i <= j < |hits| ==> hits[i].ask.at <= hits[j].ask.at
  }

  /** All limits in force for the key lie between 1 and `most`. */
  ghost predicate LimitsUpTo<Key>(hits: seq<Hit<Key>>, key: Key, most: nat) {
    forall i :: 0 <= i < |hits| && hits[i].key == key ==> 1 <= hits[i].ask.limit <= most
  }

  lemma {:induction false} AsksOrderly<Key>(hits: seq<Hit<Key>>, key: Key, most: nat)
    requires InOrder(hits) && LimitsUpTo(hits, key, most)
    ensures Orderly(AsksOf(hits, key), most)
    ensures forall i :: 0 <= i < |AsksOf(hits, key)| ==> hits != [] && AsksOf(hits, key)[i].at <= Last(hits).ask.at
  {
    if hits != [] {
      AsksOrderly(Init(hits), key, most);
      assert Init(hits) != [] ==> Last(Init(hits)) == hits[|hits| - 2];
      assert Last(hits) == hits[|hits| - 1];
    }
  }

  /**
   In every history of all clients together, no key exceeds the bound for the
   largest limit it ever had, in any closed window.
   */
  lemma EveryKeyBounded<Key>(hits: seq<Hit<Key>>, key: Key, most: nat, w: int, a: int)
    requires InOrder(hits) && LimitsUpTo(hits, key, most) && most >= 1 && w >= 0
    ensures CountIn(TimesOf(CountersRun(hits, w).1, key), a, w) <= 2 * most - 1
  {
    KeysAreIndependent(hits, key, w);
    AsksOrderly(hits, key, most);
    FixedWindowBound(AsksOf(hits, key), most, w, a);
  }

  /** The shared counter tables: per client address and per application key. */
  class FixedWindowCounters<Key(==)> {
    var entries: map<Key, Entry>

    constructor ()
      ensures entries == map[]
    {
      entries := map[];
    }

    function Lookup(key: Key): Option<Entry>
      reads this
    {
      LookupIn(entries, key)
    }

    method GlobalRequest(client: Key, now: int) returns (ok: bool)
      modifies this
      ensures ok == FixedStep(old(Lookup(client)), now, 100, 60_000_000_000).1
      ensures entries == old(entries)[client := FixedStep(old(Lookup(client)), now, 100, 60_000_000_000).0]
    {
      if client !in entries {
        entries := entries[client := Entry(0, now)];
      }
      var e := entries[client];
      if now - e.lastReset > WINDOW {
        entries := entries[client := Entry(1, now)];
      } else {
        if e.count >= GLOBAL_MAX_REQUESTS {
          return false;
        }
        entries := entries[client := e.(count := e.count + 1)];
      }
      ok := true;
    }

    /** The limit is read from the key's record for each request. */
    method AppKeyRequest(keyId: Key, now: int, stored: Option<int>) returns (ok: bool)
      modifies this
      ensures ok == FixedStep(old(Lookup(keyId)), now, KeyLimit(stored), 60_000_000_000).1
      ensures entries == old(entries)[keyId := FixedStep(old(Lookup(keyId)), now, KeyLimit(stored), 60_000_000_000).0]
    {
      var maxPerMinute := KeyLimit(stored);
      if keyId !in entries {
        entries := entries[keyId := Entry(0, now)];
      }
      var e := entries[keyId];
      if now - e.lastReset > WINDOW {
        entries := entries[keyId := Entry(1, now)];
        return true;
      }
      if e.count >= maxPerMinute {
        return false;
      }
      entries := entries[keyId := e.(count := e.count + 1)];
      ok := true;
    }
  }
}
