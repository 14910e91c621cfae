/**
 The backwards walk over time windows, the paging inside one window and the sleeping of the
 search client (backend/assemblage/scraper/github.py).
 */
module GitHubSearch {
  import opened Wrappers

  // --- windows ------------------------------------------------------------------------------

  /** The time range of one query, oldest first. */
  datatype Window = Window(low: int, high: int)

  /** How many windows it takes from `start` back to `end`. */
  function Count(start: int, end: int, interval: int): int
    requires interval > 0
  {
    if start <= end then 0 else (start - end + interval - 1) / interval
  }

  function WindowAt(start: int, interval: int, i: int): Window {
    Window(start - (i + 1) * interval, start - i * interval)
  }

  /** The walk is a generator: it gives as many windows as are asked for, and ends sooner only
      where it passes the end. */
  method Walk(start: int, end: int, interval: int, wanted: nat) returns (windows: seq<Window>)
    ensures |windows| == if start <= end then 0
                         else if interval > 0 && Count(start, end, interval) < wanted then Count(start, end, interval)
                         else wanted
    ensures forall i :: 0 <= i < |windows| ==> windows[i] == WindowAt(start, interval, i)
  {
    windows := [];
    var current := start;
    while current > end && |windows| < wanted
      invariant current == start - |windows| * interval && |windows| <= wanted
      invariant forall i :: 0 <= i < |windows| ==> windows[i] == WindowAt(start, interval, i)
      invariant start <= end ==> windows == []
      invariant windows != [] ==> start - (|windows| - 1) * interval > end
      decreases wanted - |windows|
    {
      NextTime(start, interval, |windows|);
      current := current - interval;
      windows := windows + [Window(current, current + interval)];
    }
    if interval <= 0 && start > end { NeverEnds(start, end, interval, |windows|); }
    if interval > 0 { CountReached(start, end, interval, |windows|); }
  }

  /** Where a walk of `n` windows stands against the count. */
  lemma CountReached(start: int, end: int, interval: int, n: nat)
    requires interval > 0
    requires n > 0 ==> start - (n - 1) * interval > end
    requires start <= end ==> n == 0
    ensures start - n * interval <= end ==> n == Count(start, end, interval)
    ensures start - n * interval > end ==> n < Count(start, end, interval)
  {
    if start - n * interval <= end {
      CountIs(start, end, interval, n);
    } else if n > 0 || start > end {
      var d, c := start - end, Count(start, end, interval);
      CountBounds(d, interval, c);
      Multiples(interval, n, c);
      assert interval * n == n * interval;
    }
  }

  lemma NextTime(start: int, interval: int, n: int)
    ensures start - n * interval - interval == start - (n + 1) * interval
  {
  }

  lemma CountIs(start: int, end: int, interval: int, n: nat)
    requires interval > 0 && start - n * interval <= end
    requires n > 0 ==> start - (n - 1) * interval > end
    requires start <= end ==> n == 0
    ensures n == Count(start, end, interval)
  {
    if start > end {
      var d := start - end;
      assert n > 0;
      assert (n - 1) * interval == n * interval - interval;
      Ceiling(d, interval, n);
    }
  }

  lemma Ceiling(d: int, m: int, n: int)
    requires m > 0 && n * m - m < d <= n * m
    ensures (d + m - 1) / m == n
  {
    var q, r := (d + m - 1) / m, (d + m - 1) % m;
    assert d + m - 1 == m * q + r;
    Between(q, n, m, r);
  }

  lemma Between(q: int, n: int, m: int, r: int)
    requires m > 0 && 0 <= r < m
    requires n * m <= m * q + r < n * m + m
    ensures q == n
  {
    Multiples(m, q, n);
  }

  lemma Multiples(m: int, q: int, n: int)
    requires m > 0
    ensures q < n ==> m * q <= n * m - m
    ensures q > n ==> m * q >= n * m + m
  {
    if q < n { AtLeast(m, q, n - q); }
    if q > n { AtLeast(m, n, q - n); }
  }

  lemma AtLeast(m: int, q: int, k: int)
    requires m > 0 && k >= 1
    ensures m * (q + k) >= m * q + m
  {
    assert m * (q + k) == m * q + m * k;
    assert m * k >= m;
  }

  /** The windows are contiguous, reach from the start to at most one interval short of missing
      the end, and cover every moment between. */
  lemma WindowsCover(start: int, end: int, interval: int, t: int)
    requires interval > 0 && end <= t <= start && end < start
    ensures var n := Count(start, end, interval);
            && n > 0
            && WindowAt(start, interval, 0).high == start
            && end - interval < WindowAt(start, interval, n - 1).low <= end
            && (forall i :: 0 <= i < n - 1 ==> WindowAt(start, interval, i).low == WindowAt(start, interval, i + 1).high)
            && exists i :: 0 <= i < n && InWindow(WindowAt(start, interval, i), t)
  {
    var n, d := Count(start, end, interval), start - end;
    CountBounds(d, interval, n);
    assert (n - 1 + 1) * interval == n * interval;
    var i := (start - t) / interval;
    var r := (start - t) % interval;
    assert start - t == interval * i + r;
    MomentIndex(start - t, interval, n, i, r);
    var j := if i == n then n - 1 else i;
    assert (j + 1) * interval == j * interval + interval;
    assert InWindow(WindowAt(start, interval, j), t);
  }

  predicate InWindow(w: Window, t: int) { w.low <= t <= w.high }

  lemma CountBounds(d: int, m: int, n: int)
    requires m > 0 && d > 0 && n == (d + m - 1) / m
    ensures n > 0 && n * m - m < d <= n * m
  {
    var r := (d + m - 1) % m;
    assert d + m - 1 == m * n + r;
    Multiples(m, n, 1);
  }

  lemma MomentIndex(x: int, m: int, n: int, i: int, r: int)
    requires m > 0 && x == m * i + r && 0 <= r < m && 0 <= x <= n * m && n > 0
    ensures 0 <= i <= n && i * m == m * i && (i == n ==> x == n * m)
  {
    Multiples(m, i, 0);
    Multiples(m, i, n);
  }

  /** With an interval of zero or less a walk that has begun never reaches the end. */
  lemma NeverEnds(start: int, end: int, interval: int, steps: nat)
    requires interval <= 0 && start > end
    ensures start - steps * interval > end
  {
    assert steps * interval <= 0;
  }

  // --- pages --------------------------------------------------------------------------------

  const PAGE_SIZE := 100
  const FIRST_TOTAL := 999

  /** The running minimum of the totals reported up to a page; None is a request that failed or
      an answer without items. */
  function RunningTotal(reports: nat -> Option<nat>, page: int): (t: int)
    requires page >= -1
    ensures 0 <= t <= FIRST_TOTAL
  {
    if page == -1 then FIRST_TOTAL
    else
      var before := RunningTotal(reports, page - 1);
      match reports(page)
      case None => before
      case Some(total) => if total < before then total else before
  }

  /** The page after which the loop stops: the first whose pages hold the running total. */
  predicate Stops(reports: nat -> Option<nat>, page: nat) {
    PAGE_SIZE * page >= RunningTotal(reports, page)
  }

  method FetchPages(reports: nat -> Option<nat>) returns (pages: seq<nat>, total: int)
    ensures 1 <= |pages| <= 11
    ensures forall i :: 0 <= i < |pages| ==> pages[i] == i
    ensures Stops(reports, |pages| - 1) && forall p: nat :: p < |pages| - 1 ==> !Stops(reports, p)
    ensures total == RunningTotal(reports, |pages| - 1)
  {
    total := FIRST_TOTAL;
    var page := -1;
    pages := [];
    while page * PAGE_SIZE < total
      invariant page == |pages| - 1 && page <= 10
      invariant total == RunningTotal(reports, page)
      invariant forall i :: 0 <= i < |pages| ==> pages[i] == i
      invariant forall p: nat :: p < page ==> !Stops(reports, p)
      decreases 10 - page
    {
      page := page + 1;
      pages := pages + [page];
      match reports(page)
      case None =>
      case Some(reported) => if reported < total { total := reported; }
    }
  }

  function CeilPages(total: int): int { (total + PAGE_SIZE - 1) / PAGE_SIZE }

  /** Every total reported on the way was more than the pages before it could hold. */
  ghost predicate NoEarlyTotal(reports: nat -> Option<nat>, last: nat) {
    forall p: nat :: 1 <= p <= last && reports(p).Some? ==> reports(p).value > PAGE_SIZE * (p - 1)
  }

  ghost predicate LastPage(reports: nat -> Option<nat>, last: nat) {
    Stops(reports, last) && forall p: nat :: p < last ==> !Stops(reports, p)
  }

  /** The last page is never below the ceiling of the final total. It is that ceiling exactly when
      no page after the first reports a total that the pages before it already hold. */
  lemma LastPageExactly(reports: nat -> Option<nat>, last: nat)
    requires LastPage(reports, last)
    ensures last >= CeilPages(RunningTotal(reports, last))
    ensures last == CeilPages(RunningTotal(reports, last)) <==> NoEarlyTotal(reports, last)
  {
    forall p: nat | 1 <= p < last && reports(p).Some? ensures reports(p).value > PAGE_SIZE * (p - 1) {
      assert !Stops(reports, p);
    }
    if last > 0 { assert !Stops(reports, last - 1); }
  }

  /** When the pages report one total throughout, the last page is its ceiling. */
  lemma SteadyTotal(reports: nat -> Option<nat>, last: nat, total: nat)
    requires LastPage(reports, last)
    requires forall p: nat :: reports(p) == Some(total)
    ensures last == CeilPages(if total < FIRST_TOTAL then total else FIRST_TOTAL)
  {
    SteadyRunning(reports, last, total);
    forall p: nat | 1 <= p <= last && reports(p).Some? ensures reports(p).value > PAGE_SIZE * (p - 1) {
      SteadyRunning(reports, p - 1, total);
      assert !Stops(reports, p - 1);
    }
    LastPageExactly(reports, last);
  }

  lemma {:induction false} SteadyRunning(reports: nat -> Option<nat>, page: nat, total: nat)
    requires forall p: nat :: reports(p) == Some(total)
    ensures RunningTotal(reports, page) == if total < FIRST_TOTAL then total else FIRST_TOTAL
  {
    if page > 0 { SteadyRunning(reports, page - 1, total); }
  }

  /** One total until page `k`, another from there on. */
  function DroppingAt(k: nat, high: nat, low: nat): nat -> Option<nat> {
    (p: nat) => Some(if p < k then high else low)
  }

  /** A total that drops on page `k` to what the pages before `k` already hold: `k` is still the
      last page, past the ceiling of the final total. */
  lemma LateDropOvershoots(k: nat, high: nat, low: nat)
    requires 1 <= k <= 10 && PAGE_SIZE * (k - 1) < high && low <= PAGE_SIZE * (k - 1)
    ensures LastPage(DroppingAt(k, high, low), k) && RunningTotal(DroppingAt(k, high, low), k) == low
    ensures CeilPages(low) < k
  {
    var reports := DroppingAt(k, high, low);
    forall p: nat | p < k ensures !Stops(reports, p) { DropRunning(k, high, low, p); }
    DropRunning(k, high, low, k - 1);
    LastPageExactly(reports, k);
  }

  lemma {:induction false} DropRunning(k: nat, high: nat, low: nat, page: nat)
    requires page < k
    ensures RunningTotal(DroppingAt(k, high, low), page) == if high < FIRST_TOTAL then high else FIRST_TOTAL
  {
    if page > 0 { DropRunning(k, high, low, page - 1); }
  }

  // --- sleeping -----------------------------------------------------------------------------

  const UPDATE_INTERVAL := 60.0

  function Sum(naps: seq<real>): real {
    if naps == [] then 0.0 else Sum(naps[..|naps| - 1]) + naps[|naps| - 1]
  }

  /** Sleeps the duration in naps of at most the update interval; a duration of zero or less is
      no sleep. */
  method SleepAndUpdate(duration: real) returns (naps: seq<real>)
    ensures Sum(naps) == if duration > 0.0 then duration else 0.0
    ensures forall i :: 0 <= i < |naps| ==> 0.0 < naps[i] <= UPDATE_INTERVAL
    ensures forall i :: 0 <= i < |naps| - 1 ==> naps[i] == UPDATE_INTERVAL
  {
    naps := [];
    var left := duration;
    while left > 0.0
      invariant left <= 0.0 && duration > 0.0 ==> Sum(naps) == duration
      invariant duration <= 0.0 ==> naps == [] && left == duration
      invariant left > 0.0 ==> Sum(naps) == duration - left
      invariant forall i :: 0 <= i < |naps| ==> 0.0 < naps[i] <= UPDATE_INTERVAL
      invariant forall i :: 0 <= i < |naps| - 1 ==> naps[i] == UPDATE_INTERVAL
      invariant left > 0.0 ==> forall i :: 0 <= i < |naps| ==> naps[i] == UPDATE_INTERVAL
      decreases left.Floor
    {
      var nap := if left < UPDATE_INTERVAL then left else UPDATE_INTERVAL;
      assert (naps + [nap])[..|naps|] == naps;
      naps := naps + [nap];
      left := left - UPDATE_INTERVAL;
    }
  }
}
