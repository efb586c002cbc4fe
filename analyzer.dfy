/**
 * The statistics analyzer: reduces the list of an account's statuses to the
 * year-in-review record. The reductions over the status list are functions;
 * the histogram, calendar, hashtag and streak builders update their
 * accumulators step by step and are methods proved against those functions.
 */
module Analyzer {
  import opened Wrappers
  import opened Posts
  import opened Tally
  import Text
  import PlainObject

  // ---------------------------------------------------------------------------
  // Time buckets

  function MonthOf(s: Status): nat { s.civil.month }
  function HourOf(s: Status): nat { s.civil.hour }
  function WeekdayOf(s: Status): nat { s.civil.weekday }

  /** The number of statuses that fall into bucket `b`. */
  function CountIn(ss: seq<Status>, bucket: Status -> nat, b: nat): nat {
    if ss == [] then 0
    else CountIn(ss[..|ss| - 1], bucket, b) + (if bucket(ss[|ss| - 1]) == b then 1 else 0)
  }

  /** The bucket counts `0 .. n-1` of a status list. */
  function Buckets(ss: seq<Status>, bucket: Status -> nat, n: nat): (r: seq<nat>)
    ensures |r| == n
  {
    seq(n, b requires 0 <= b < n => CountIn(ss, bucket, b))
  }

  lemma {:induction false} SumUpdate(s: seq<nat>, j: nat, v: nat)
    requires j < |s|
    ensures Sum(s[j := v]) + s[j] == Sum(s) + v
    decreases |s|
  {
    var last := |s| - 1;
    if j == last {
      assert s[j := v][..last] == s[..last];
    } else {
      assert s[j := v][..last] == s[..last][j := v];
      SumUpdate(s[..last], j, v);
    }
  }

  lemma {:induction false} SumZeros(s: seq<nat>)
    requires forall k :: 0 <= k < |s| ==> s[k] == 0
    ensures Sum(s) == 0
    decreases |s|
  {
    if s != [] {
      SumZeros(s[..|s| - 1]);
    }
  }

  /** Counting one more status bumps exactly its own bucket. */
  lemma BucketsStep(ss: seq<Status>, s: Status, bucket: Status -> nat, n: nat)
    requires bucket(s) < n
    ensures Buckets(ss + [s], bucket, n) == Buckets(ss, bucket, n)[bucket(s) := Buckets(ss, bucket, n)[bucket(s)] + 1]
  {
    assert (ss + [s])[..|ss + [s]| - 1] == ss;
  }

  /** Every status lands in exactly one bucket: the buckets sum to the number of statuses. */
  lemma {:induction false} BucketsSum(ss: seq<Status>, bucket: Status -> nat, n: nat)
    requires forall s :: s in ss ==> bucket(s) < n
    ensures Sum(Buckets(ss, bucket, n)) == |ss|
    decreases |ss|
  {
    if ss == [] {
      SumZeros(Buckets(ss, bucket, n));
    } else {
      var init := ss[..|ss| - 1];
      var s := ss[|ss| - 1];
      assert init + [s] == ss;
      BucketsSum(init, bucket, n);
      BucketsStep(init, s, bucket, n);
      SumUpdate(Buckets(init, bucket, n), bucket(s), Buckets(init, bucket, n)[bucket(s)] + 1);
    }
  }

  /** `buckets.forEach(... counts[bucket(s)]++)` over a fresh zeroed array of `n` buckets. */
  method Histogram(ss: seq<Status>, n: nat, bucket: Status -> nat) returns (counts: seq<nat>)
    requires forall s :: s in ss ==> bucket(s) < n
    ensures counts == Buckets(ss, bucket, n)
    ensures Sum(counts) == |ss|
  {
    var a := new nat[n](_ => 0);
    for i := 0 to |ss|
      invariant a[..] == Buckets(ss[..i], bucket, n)
    {
      var b := bucket(ss[i]);
      assert ss[..i + 1] == ss[..i] + [ss[i]];
      BucketsStep(ss[..i], ss[i], bucket, n);
      a[b] := a[b] + 1;
    }
    assert ss[..|ss|] == ss;
    counts := a[..];
    BucketsSum(ss, bucket, n);
  }

  /** Posts per calendar month, January first (bucket `m` is the month numbered `m + 1`). */
  method MonthlyDistribution(ss: seq<Status>) returns (months: seq<nat>)
    ensures months == Buckets(ss, MonthOf, 12)
    ensures |months| == 12
    ensures Sum(months) == |ss|
  {
    months := Histogram(ss, 12, MonthOf);
  }

  /** Posts per hour of the day, 0 to 23. */
  method HourlyDistribution(ss: seq<Status>) returns (hours: seq<nat>)
    ensures hours == Buckets(ss, HourOf, 24)
    ensures |hours| == 24
    ensures Sum(hours) == |ss|
  {
    hours := Histogram(ss, 24, HourOf);
  }

  /** Posts per weekday, Sunday = 0. */
  method WeekdayDistribution(ss: seq<Status>) returns (days: seq<nat>)
    ensures days == Buckets(ss, WeekdayOf, 7)
    ensures |days| == 7
    ensures Sum(days) == |ss|
  {
    days := Histogram(ss, 7, WeekdayOf);
  }

  // ---------------------------------------------------------------------------
  // Activity calendar and most active day

  function DateKeys(ss: seq<Status>): (r: seq<string>)
    ensures |r| == |ss|
  {
    seq(|ss|, i requires 0 <= i < |ss| => ss[i].civil.dateKey)
  }

  lemma DateKeysStep(ss: seq<Status>, i: nat)
    requires i < |ss|
    ensures DateKeys(ss[..i + 1]) == DateKeys(ss[..i]) + [ss[i].civil.dateKey]
  {
  }

  /** `calendar[date] = (calendar[date] || 0) + 1` over the statuses, in order. */
  method ActivityCalendar(ss: seq<Status>) returns (calendar: seq<Entry>)
    ensures calendar == Tallied(DateKeys(ss))
  {
    calendar := [];
    for i := 0 to |ss|
      invariant calendar == Tallied(DateKeys(ss[..i]))
    {
      DateKeysStep(ss, i);
      BumpTallied(DateKeys(ss[..i]), ss[i].civil.dateKey);
      calendar := Bump(calendar, ss[i].civil.dateKey);
    }
    assert ss[..|ss|] == ss;
  }

  /** `e` is the entry of `cal` with the largest count, the first such in insertion order. */
  predicate IsFirstMax(cal: seq<Entry>, e: Entry) {
    exists i :: 0 <= i < |cal| && cal[i] == e
      && (forall j :: 0 <= j < |cal| ==> cal[j].count <= e.count)
      && (forall j :: 0 <= j < i ==> cal[j].count < e.count)
  }

  lemma {:induction false} OccurrencesPositive(keys: seq<string>, k: string)
    requires k in keys
    ensures Occurrences(keys, k) >= 1
    decreases |keys|
  {
    if keys[|keys| - 1] != k {
      assert k in keys[..|keys| - 1];
      OccurrencesPositive(keys[..|keys| - 1], k);
    }
  }

  /** Every entry of a counted dictionary has a positive count. */
  lemma TalliedPositive(keys: seq<string>)
    ensures forall j :: 0 <= j < |Tallied(keys)| ==> Tallied(keys)[j].count >= 1
  {
    forall j | 0 <= j < |Tallied(keys)| ensures Tallied(keys)[j].count >= 1 {
      var k := Dedup(keys)[j];
      assert k in Dedup(keys);
      OccurrencesPositive(keys, k);
    }
  }

  /**
   * `Object.entries(counts).forEach(...)` keeping the entry whose count is
   * strictly larger than the best so far (starting from 0): the first
   * maximal entry, or `None` when no count is positive.
   */
  method FirstMaxEntry(cal: seq<Entry>) returns (r: Option<Entry>)
    ensures r.None? <==> forall j :: 0 <= j < |cal| ==> cal[j].count == 0
    ensures r.Some? ==> IsFirstMax(cal, r.value) && r.value.count > 0
  {
    var best: Option<nat> := None;
    var maxCount := 0;
    for j := 0 to |cal|
      invariant best.None? ==> maxCount == 0
      invariant best.Some? ==> best.value < j && cal[best.value].count == maxCount && maxCount > 0
      invariant best.Some? ==> forall k :: 0 <= k < best.value ==> cal[k].count < maxCount
      invariant forall k :: 0 <= k < j ==> cal[k].count <= maxCount
    {
      if cal[j].count > maxCount {
        maxCount := cal[j].count;
        best := Some(j);
      }
    }
    if best.Some? {
      r := Some(cal[best.value]);
    } else {
      r := None;
    }
  }

  /**
   * The date with the most posts, first in insertion order on ties; `None`
   * exactly when there are no posts.
   */
  method MostActiveDay(ss: seq<Status>) returns (r: Option<Entry>)
    ensures r.None? <==> |ss| == 0
    ensures r.Some? ==> IsFirstMax(Tallied(DateKeys(ss)), r.value)
  {
    var dayCounts := ActivityCalendar(ss);
    TalliedPositive(DateKeys(ss));
    if |ss| > 0 {
      assert DateKeys(ss)[0] == ss[0].civil.dateKey;
      assert |dayCounts| > 0 && dayCounts[0].count >= 1;
    }
    r := FirstMaxEntry(dayCounts);
  }

  // ---------------------------------------------------------------------------
  // Longest streak

  predicate StrictlyIncreasing(d: seq<int>) {
    forall i, j :: 0 <= i < j < |d| ==> d[i] < d[j]
  }

  /** Insert a day number into a strictly increasing list, unless it is there already. */
  function InsertDay(sorted: seq<int>, x: int): seq<int>
    decreases |sorted|
  {
    if sorted == [] then [x]
    else if x == sorted[0] then sorted
    else if x < sorted[0] then [x] + sorted
    else [sorted[0]] + InsertDay(sorted[1..], x)
  }

  lemma {:induction false} InsertDayMembers(sorted: seq<int>, x: int)
    ensures forall d :: d in InsertDay(sorted, x) <==> d in sorted || d == x
    decreases |sorted|
  {
    if sorted != [] && x > sorted[0] {
      InsertDayMembers(sorted[1..], x);
      assert sorted == [sorted[0]] + sorted[1..];
    }
  }

  lemma {:induction false} InsertDaySorted(sorted: seq<int>, x: int)
    requires StrictlyIncreasing(sorted)
    ensures StrictlyIncreasing(InsertDay(sorted, x))
    decreases |sorted|
  {
    if sorted != [] && x > sorted[0] {
      var rest := InsertDay(sorted[1..], x);
      InsertDaySorted(sorted[1..], x);
      InsertDayMembers(sorted[1..], x);
      forall k | 0 <= k < |rest| ensures sorted[0] < rest[k] {
        assert rest[k] in rest;
        assert rest[k] == x || rest[k] in sorted[1..];
      }
      var r := [sorted[0]] + rest;
      forall i, j | 0 <= i < j < |r| ensures r[i] < r[j] {
        assert r[j] == rest[j - 1];
        if i > 0 {
          assert r[i] == rest[i - 1];
        }
      }
    } else if sorted != [] && x < sorted[0] {
      var r := [x] + sorted;
      forall i, j | 0 <= i < j < |r| ensures r[i] < r[j] {
        assert r[j] == sorted[j - 1];
        if i > 0 {
          assert r[i] == sorted[i - 1];
        }
      }
    }
  }

  function DaySet(ss: seq<Status>): set<int> {
    set s | s in ss :: s.civil.day
  }

  /**
   * `Array.from(new Set(dates)).sort()`: the distinct calendar days of the
   * statuses, in increasing order.
   */
  function SortedDays(ss: seq<Status>): (d: seq<int>)
    ensures StrictlyIncreasing(d)
    ensures forall x :: x in d <==> x in DaySet(ss)
    decreases |ss|
  {
    if ss == [] then []
    else
      var init := ss[..|ss| - 1];
      var s := ss[|ss| - 1];
      var d := SortedDays(init);
      InsertDayMembers(d, s.civil.day);
      InsertDaySorted(d, s.civil.day);
      assert init + [s] == ss;
      assert DaySet(ss) == DaySet(init) + {s.civil.day};
      InsertDay(d, s.civil.day)
  }

  /** Days `d[lo..hi]` follow one another with a gap of exactly one day. */
  predicate Consecutive(d: seq<int>, lo: nat, hi: nat)
    requires lo <= hi <= |d|
  {
    forall k :: lo < k < hi ==> d[k] == d[k - 1] + 1
  }

  /**
   * `n` is the length of the longest run of consecutive days in `d`: some run
   * has that length and none is longer.
   */
  predicate LongestRun(d: seq<int>, n: nat) {
    (exists lo: nat, hi: nat :: lo <= hi <= |d| && hi - lo == n && Consecutive(d, lo, hi))
    && (forall lo: nat, hi: nat :: lo <= hi <= |d| && Consecutive(d, lo, hi) ==> hi - lo <= n)
  }

  /**
   * A run ending just before `hi` that cannot be extended to the left is the
   * longest run ending there.
   */
  lemma MaximalRunEnding(d: seq<int>, hi: nat, len: nat)
    requires 1 <= len <= hi <= |d|
    requires hi - len == 0 || d[hi - len] != d[hi - len - 1] + 1
    ensures forall lo: nat :: lo <= hi && Consecutive(d, lo, hi) ==> hi - lo <= len
  {
    forall lo: nat | lo <= hi && Consecutive(d, lo, hi) ensures hi - lo <= len {
    }
  }

  /**
   * After scanning `d[..i]`: the run ending at `i` has length `current` and
   * cannot be extended to the left, and `best` is the longest run so far.
   */
  predicate StreakSoFar(d: seq<int>, i: nat, current: nat, best: nat) {
    1 <= current <= best <= i <= |d|
    && Consecutive(d, i - current, i)
    && (i - current == 0 || d[i - current] != d[i - current - 1] + 1)
    && (exists lo: nat, hi: nat :: lo <= hi <= i && hi - lo == best && Consecutive(d, lo, hi))
    && (forall lo: nat, hi: nat :: lo <= hi <= i && Consecutive(d, lo, hi) ==> hi - lo <= best)
  }

  /** One loop step: extend the current run or start a new one. */
  lemma StreakStep(d: seq<int>, i: nat, current: nat, best: nat)
    requires StreakSoFar(d, i, current, best) && i < |d|
    ensures var c := if d[i] == d[i - 1] + 1 then current + 1 else 1;
            StreakSoFar(d, i + 1, c, if c > best then c else best)
  {
    var c := if d[i] == d[i - 1] + 1 then current + 1 else 1;
    assert Consecutive(d, i + 1 - c, i + 1);
    MaximalRunEnding(d, i + 1, c);
    var lo0: nat, hi0: nat :| lo0 <= hi0 <= i && hi0 - lo0 == best && Consecutive(d, lo0, hi0);
    if c > best {
      assert i + 1 - c <= i + 1 <= i + 1 && Consecutive(d, i + 1 - c, i + 1);
    } else {
      assert lo0 <= hi0 <= i + 1 && Consecutive(d, lo0, hi0);
    }
  }

  /**
   * The longest streak of consecutive posting days: 0 without posts,
   * otherwise the longest run in the sorted distinct days.
   */
  method LongestStreak(ss: seq<Status>) returns (streak: nat)
    ensures |ss| == 0 ==> streak == 0
    ensures |ss| > 0 ==> 1 <= streak <= |SortedDays(ss)|
    ensures |ss| > 0 ==> LongestRun(SortedDays(ss), streak)
  {
    if |ss| == 0 {
      return 0;
    }
    var days := SortedDays(ss);
    assert ss[0].civil.day in DaySet(ss);
    assert days[0] in days;
    var maxStreak := 1;
    var current := 1;
    assert Consecutive(days, 0, 1);
    for i := 1 to |days|
      invariant StreakSoFar(days, i, current, maxStreak)
    {
      StreakStep(days, i, current, maxStreak);
      if days[i] == days[i - 1] + 1 {
        current := current + 1;
      } else {
        current := 1;
      }
      if current > maxStreak {
        maxStreak := current;
      }
    }
    streak := maxStreak;
  }

  // ---------------------------------------------------------------------------
  // Classification

  datatype Persona = Newcomer | Broadcaster | Curator | Balancer

  datatype Chronotype = NightOwl | EarlyBird | Slacker | Regular

  /** For positive denominators, `a / t > p / q` exactly when `q * a > p * t`. */
  lemma RatioAbove(a: nat, t: nat, p: nat, q: nat)
    requires t > 0 && q > 0
    ensures (a as real) / (t as real) > (p as real) / (q as real) <==> q * a > p * t
  {
    var x := (a as real) / (t as real);
    var y := (p as real) / (q as real);
    assert x * (t as real) == a as real;
    assert y * (q as real) == p as real;
    assert (q * a) as real == x * (t as real) * (q as real);
    assert (p * t) as real == y * (q as real) * (t as real);
    assert x * (t as real) * (q as real) - y * (q as real) * (t as real) == (x - y) * ((t * q) as real);
  }

  /**
   * The persona, checked in priority order against the year's statuses
   * (replies included in `total`): more than 60% originals, else more than
   * 60% boosts, else balanced; `Newcomer` only for an empty year.
   */
  function DeterminePersona(total: nat, original: nat, reblogs: nat, replies: nat): Persona {
    if total == 0 then Newcomer
    else if 5 * original > 3 * total then Broadcaster
    else if 5 * reblogs > 3 * total then Curator
    else Balancer
  }

  /** The integer tests of `DeterminePersona` are the 60% ratio thresholds. */
  lemma PersonaRule(total: nat, original: nat, reblogs: nat, replies: nat)
    ensures var p := DeterminePersona(total, original, reblogs, replies);
      && (total == 0 <==> p == Newcomer)
      && (total > 0 ==> (p == Broadcaster <==> (original as real) / (total as real) > 0.6))
      && (total > 0 ==> (p == Curator <==>
        !((original as real) / (total as real) > 0.6) && (reblogs as real) / (total as real) > 0.6))
  {
    if total > 0 {
      RatioAbove(original, total, 3, 5);
      RatioAbove(reblogs, total, 3, 5);
    }
  }

  predicate IsNight(s: Status) { s.civil.hour < 5 }
  predicate IsMorning(s: Status) { 5 <= s.civil.hour < 10 }
  predicate IsWorkHours(s: Status) { 10 <= s.civil.hour < 18 }

  /**
   * The chronotype of the published statuses, checked in fixed priority:
   * more than 15% posted 0:00-4:59, else more than 30% posted 5:00-9:59,
   * else more than 60% posted 10:00-17:59, else regular.
   */
  function DetermineChronotype(ss: seq<Status>): Chronotype {
    if |ss| == 0 then Regular
    else
      var n := |ss|;
      if 100 * |Filter(ss, IsNight)| > 15 * n then NightOwl
      else if 100 * |Filter(ss, IsMorning)| > 30 * n then EarlyBird
      else if 100 * |Filter(ss, IsWorkHours)| > 60 * n then Slacker
      else Regular
  }

  /** The integer tests of `DetermineChronotype` are the 15%, 30% and 60% ratio thresholds. */
  lemma ChronotypeRule(ss: seq<Status>)
    ensures |ss| == 0 ==> DetermineChronotype(ss) == Regular
    ensures |ss| > 0 ==> (DetermineChronotype(ss) == NightOwl <==> (|Filter(ss, IsNight)| as real) / (|ss| as real) > 0.15)
    ensures |ss| > 0 ==> (DetermineChronotype(ss) == EarlyBird <==>
      !((|Filter(ss, IsNight)| as real) / (|ss| as real) > 0.15)
      && (|Filter(ss, IsMorning)| as real) / (|ss| as real) > 0.30)
    ensures |ss| > 0 ==> (DetermineChronotype(ss) == Slacker <==>
      !((|Filter(ss, IsNight)| as real) / (|ss| as real) > 0.15)
      && !((|Filter(ss, IsMorning)| as real) / (|ss| as real) > 0.30)
      && (|Filter(ss, IsWorkHours)| as real) / (|ss| as real) > 0.60)
  {
    if |ss| > 0 {
      RatioAbove(|Filter(ss, IsNight)|, |ss|, 15, 100);
      RatioAbove(|Filter(ss, IsMorning)|, |ss|, 30, 100);
      RatioAbove(|Filter(ss, IsWorkHours)|, |ss|, 60, 100);
    }
  }

  // ---------------------------------------------------------------------------
  // Score and averages

  /**
   * `Math.floor(reblogs * 2 + favourites + posts * 0.1 + streak * 5)`: the
   * floor of the weighted sum, computed with integer division.
   */
  function SocialImpactScore(reblogs: nat, favourites: nat, posts: nat, streak: nat): nat {
    2 * reblogs + favourites + posts / 10 + 5 * streak
  }

  /** The integer score is the floor of the weighted sum taken in the reals. */
  lemma ScoreIsFloor(reblogs: nat, favourites: nat, posts: nat, streak: nat)
    ensures var score := SocialImpactScore(reblogs, favourites, posts, streak);
      && score as real <= (2 * reblogs + favourites + 5 * streak) as real + (posts as real) * 0.1
      && (2 * reblogs + favourites + 5 * streak) as real + (posts as real) * 0.1 < score as real + 1.0
  {
    var q := posts / 10;
    assert posts == 10 * q + posts % 10;
  }

  /** `Math.round(favourites / posts)` (halves round up), or 0 without posts. */
  function AvgFavoritesPerPost(favourites: nat, posts: nat): nat {
    if posts == 0 then 0 else (2 * favourites + posts) / (2 * posts)
  }

  /** The integer average is the real quotient rounded half up, and 0 without posts. */
  lemma AvgIsRounded(favourites: nat, posts: nat)
    ensures posts == 0 ==> AvgFavoritesPerPost(favourites, posts) == 0
    ensures posts > 0 ==> AvgFavoritesPerPost(favourites, posts) as real <= (favourites as real) / (posts as real) + 0.5
    ensures posts > 0 ==> (favourites as real) / (posts as real) + 0.5 < AvgFavoritesPerPost(favourites, posts) as real + 1.0
  {
    if posts > 0 {
      RoundHalfUp(favourites, posts, AvgFavoritesPerPost(favourites, posts));
    }
  }

  lemma RoundHalfUp(f: nat, p: nat, q: nat)
    requires p > 0 && q == (2 * f + p) / (2 * p)
    ensures q as real <= (f as real) / (p as real) + 0.5 < q as real + 1.0
  {
    var r := (2 * f + p) % (2 * p);
    assert 2 * f + p == 2 * p * q + r && 0 <= r < 2 * p;
    var P, Q, R, F := p as real, q as real, r as real, f as real;
    var x := F / P;
    assert x * P == F;
    assert 2.0 * F + P == 2.0 * P * Q + R;
    var y := x + 0.5 - Q;
    assert y * (2.0 * P) == R;
    ScaledBetween(y, 2.0 * P, R);
  }

  /** `y * c == v` with `0 <= v < c` puts `y` in `[0, 1)`. */
  lemma ScaledBetween(y: real, c: real, v: real)
    requires c > 0.0 && y * c == v && 0.0 <= v < c
    ensures 0.0 <= y < 1.0
  {
  }

  // ---------------------------------------------------------------------------
  // Content distribution

  datatype ContentKind = TextKind | BoostKind | MediaKind

  /** A chart slice: category, count and display colour. */
  datatype Slice = Slice(kind: ContentKind, value: nat, color: string)

  function KindRank(k: ContentKind): nat {
    match k
    case TextKind => 0
    case BoostKind => 1
    case MediaKind => 2
  }

  function SliceSum(sl: seq<Slice>): nat {
    if sl == [] then 0 else sl[0].value + SliceSum(sl[1..])
  }

  function KeepNonZero(sl: Slice): seq<Slice> {
    if sl.value > 0 then [sl] else []
  }

  /**
   * The three chart slices in the order Text, Boosts, Media with their
   * colours, dropping any slice whose value is zero.
   */
  function ContentDistribution(text: nat, reblogs: nat, media: nat): seq<Slice> {
    KeepNonZero(Slice(TextKind, text, "#3b82f6"))
      + KeepNonZero(Slice(BoostKind, reblogs, "#22c55e"))
      + KeepNonZero(Slice(MediaKind, media, "#f59e0b"))
  }

  /**
   * The chart holds exactly the non-zero categories, each with its colour,
   * in the order Text, Boosts, Media.
   */
  lemma DistributionShape(text: nat, reblogs: nat, media: nat)
    ensures forall i :: 0 <= i < |ContentDistribution(text, reblogs, media)| ==>
      ContentDistribution(text, reblogs, media)[i].value > 0
    ensures forall i, j :: 0 <= i < j < |ContentDistribution(text, reblogs, media)| ==>
      KindRank(ContentDistribution(text, reblogs, media)[i].kind)
        < KindRank(ContentDistribution(text, reblogs, media)[j].kind)
    ensures text > 0 <==> Slice(TextKind, text, "#3b82f6") in ContentDistribution(text, reblogs, media)
    ensures reblogs > 0 <==> Slice(BoostKind, reblogs, "#22c55e") in ContentDistribution(text, reblogs, media)
    ensures media > 0 <==> Slice(MediaKind, media, "#f59e0b") in ContentDistribution(text, reblogs, media)
  {
  }

  /** The chart's values add up to the number of published posts it splits. */
  lemma DistributionSum(text: nat, reblogs: nat, media: nat)
    ensures SliceSum(ContentDistribution(text, reblogs, media)) == text + reblogs + media
  {
    var t := KeepNonZero(Slice(TextKind, text, "#3b82f6"));
    var b := KeepNonZero(Slice(BoostKind, reblogs, "#22c55e"));
    var m := KeepNonZero(Slice(MediaKind, media, "#f59e0b"));
    assert t + b + m == t + (b + m);
    SliceSumAppend(t, b + m);
    SliceSumAppend(b, m);
  }

  lemma {:induction false} SliceSumAppend(a: seq<Slice>, b: seq<Slice>)
    ensures SliceSum(a + b) == SliceSum(a) + SliceSum(b)
    decreases |a|
  {
    if a == [] {
      assert a + b == b;
    } else {
      assert (a + b)[1..] == a[1..] + b;
      SliceSumAppend(a[1..], b);
    }
  }

  // ---------------------------------------------------------------------------
  // Hashtags

  /** The digit string of an array index (`"0"`, `"17"`, not `"017"`), below 2^32 - 1. */
  predicate IsArrayIndex(k: string) {
    0 < |k| <= 10
    && (forall i :: 0 <= i < |k| ==> '0' <= k[i] <= '9')
    && (k[0] != '0' || |k| == 1)
    && DigitsValue(k) < 4294967295
  }

  function DigitsValue(k: string): nat
    requires forall i :: 0 <= i < |k| ==> '0' <= k[i] <= '9'
  {
    if k == [] then 0 else 10 * DigitsValue(k[..|k| - 1]) + (k[|k| - 1] as int - '0' as int)
  }

  function LowerAll(tags: seq<string>): (r: seq<string>)
    ensures |r| == |tags|
  {
    seq(|tags|, i requires 0 <= i < |tags| => Text.ToLower(tags[i]))
  }

  /** Every tag name of the statuses, lowercased, in status order. */
  function TagNames(ss: seq<Status>): seq<string> {
    if ss == [] then [] else TagNames(ss[..|ss| - 1]) + LowerAll(ss[|ss| - 1].tags)
  }

  /**
   * Hashtag counts ranked by descending count, ties in first-use order. The
   * order of equal counts follows `Object.entries`, which lists array-index
   * keys first; such tag names are excluded. The counts are kept in a
   * dictionary with no inherited members; the source's plain object differs
   * for the names `constructor` and `__proto__` (`InheritedTagsMiscounted`)
   * and agrees otherwise (`PlainObjectAgrees`).
   */
  method HashtagStats(ss: seq<Status>) returns (ranked: seq<Entry>)
    requires forall k :: k in TagNames(ss) ==> !IsArrayIndex(k)
    ensures ranked == SortByCountDesc(Tallied(TagNames(ss)))
  {
    var counts: seq<Entry> := [];
    for i := 0 to |ss|
      invariant counts == Tallied(TagNames(ss[..i]))
    {
      assert ss[..i + 1][..i] == ss[..i];
      assert TagNames(ss[..i + 1]) == TagNames(ss[..i]) + LowerAll(ss[i].tags);
      counts := CountTags(counts, TagNames(ss[..i]), ss[i].tags);
    }
    assert ss[..|ss|] == ss;
    ranked := SortByCountDesc(counts);
  }

  /** The inner loop over one status's tags: each lowercased name is counted once more. */
  method CountTags(counts: seq<Entry>, seen: seq<string>, tags: seq<string>) returns (updated: seq<Entry>)
    requires counts == Tallied(seen)
    ensures updated == Tallied(seen + LowerAll(tags))
  {
    updated := counts;
    assert seen + LowerAll(tags[..0]) == seen;
    for j := 0 to |tags|
      invariant updated == Tallied(seen + LowerAll(tags[..j]))
    {
      var name := Text.ToLower(tags[j]);
      assert LowerAll(tags[..j + 1]) == LowerAll(tags[..j]) + [name];
      BumpTallied(seen + LowerAll(tags[..j]), name);
      assert seen + LowerAll(tags[..j]) + [name] == seen + LowerAll(tags[..j + 1]);
      updated := Bump(updated, name);
    }
    assert tags[..|tags|] == tags;
  }

  /**
   * The ranking holds one entry per distinct lowercased tag name with its
   * number of uses, in non-increasing order of count.
   */
  lemma RankingProps(names: seq<string>)
    ensures SortedDesc(SortByCountDesc(Tallied(names)))
    ensures |SortByCountDesc(Tallied(names))| == |set k | k in names|
    ensures forall e :: e in SortByCountDesc(Tallied(names)) ==> e.key in names && e.count == Occurrences(names, e.key)
    ensures forall k :: k in names ==> Entry(k, Occurrences(names, k)) in SortByCountDesc(Tallied(names))
    ensures forall i, j :: 0 <= i < j < |SortByCountDesc(Tallied(names))| ==>
      SortByCountDesc(Tallied(names))[i].key != SortByCountDesc(Tallied(names))[j].key
  {
    var counts := Tallied(names);
    var ranked := SortByCountDesc(counts);
    TalliedKeys(names);
    forall e | e in ranked ensures e.key in names && e.count == Occurrences(names, e.key) {
      assert e in multiset(ranked);
      assert e in counts;
      var j :| 0 <= j < |counts| && counts[j] == e;
      assert Dedup(names)[j] in Dedup(names);
    }
    forall k | k in names ensures Entry(k, Occurrences(names, k)) in ranked {
      var j :| 0 <= j < |Dedup(names)| && Dedup(names)[j] == k;
      assert counts[j] == Entry(k, Occurrences(names, k));
      assert counts[j] in multiset(counts);
    }
    DistinctKeysOnce(counts);
    forall i, j | 0 <= i < j < |ranked| ensures ranked[i].key != ranked[j].key {
      if ranked[i].key == ranked[j].key {
        assert ranked[i] in ranked && ranked[j] in ranked;
        TwicePlaced(ranked, i, j);
        assert false;
      }
    }
  }

  /**
   * On the source's plain object the names `constructor` and `__proto__`
   * are miscounted: `constructor` holds the source text of `Object` followed
   * by one `"1"` per use instead of a number, and `__proto__` never becomes an
   * own key, so `Object.entries` omits it. The ranking `HashtagStats`
   * computes holds both, each with its number of uses.
   */
  lemma InheritedTagsMiscounted(names: seq<string>)
    requires "constructor" in names && "__proto__" in names
    ensures PlainObject.OwnValue(PlainObject.Counted(names), "constructor") ==
      Some(PlainObject.Str(PlainObject.NativeSource("Object") + PlainObject.Ones(Occurrences(names, "constructor"))))
    ensures "__proto__" !in PlainObject.PropKeys(PlainObject.Counted(names))
    ensures Entry("constructor", Occurrences(names, "constructor")) in SortByCountDesc(Tallied(names))
    ensures Entry("__proto__", Occurrences(names, "__proto__")) in SortByCountDesc(Tallied(names))
  {
    OccurrencesPositive(names, "constructor");
    PlainObject.CountedValue(names, "constructor");
    PlainObject.CountedKeys(names);
    RankingProps(names);
  }

  /** A name that is already lower-case is its own lower-case form. */
  lemma LowerFixed(tag: string)
    ensures Text.ToLower(Text.ToLower(tag)) == Text.ToLower(tag)
  {
    var k := Text.ToLower(tag);
    forall i | 0 <= i < |k| ensures Text.ToLower(k)[i] == k[i] {
      PlainObject.LowerHasNoUpper(tag, i);
    }
  }

  /** Every counted tag name is the lower-case form of some tag. */
  lemma {:induction false} TagNamesLowered(ss: seq<Status>)
    ensures forall k :: k in TagNames(ss) ==> Text.ToLower(k) == k
    decreases |ss|
  {
    if ss != [] {
      TagNamesLowered(ss[..|ss| - 1]);
      var tags := ss[|ss| - 1].tags;
      forall k | k in LowerAll(tags) ensures Text.ToLower(k) == k {
        var i :| 0 <= i < |tags| && LowerAll(tags)[i] == k;
        LowerFixed(tags[i]);
      }
    }
  }

  /**
   * Unless a status uses the tag `constructor` or `__proto__`, the source's
   * plain object holds exactly the tally the ranking is built from.
   */
  lemma PlainObjectAgrees(ss: seq<Status>)
    requires "constructor" !in TagNames(ss) && "__proto__" !in TagNames(ss)
    ensures PlainObject.Counted(TagNames(ss)) == PlainObject.AsNumbers(Tallied(TagNames(ss)))
  {
    TagNamesLowered(ss);
    forall k | k in TagNames(ss) ensures !PlainObject.InheritedName(k) {
      PlainObject.LowerInherited(k);
    }
    PlainObject.CountedAgrees(TagNames(ss));
  }

  // ---------------------------------------------------------------------------
  // The statistics record

  /** A busiest bucket: its index (hour 0-23, or month 0-11 for month number index + 1) and its count. */
  datatype Peak = Peak(index: nat, count: nat)

  datatype Stats = Stats(
    account: Account,
    year: int,
    totalPosts: nat,
    originalPosts: nat,
    reblogs: nat,
    mediaPosts: nat,
    textPosts: nat,
    socialImpactScore: nat,
    persona: Persona,
    chronotype: Chronotype,
    contentDistribution: seq<Slice>,
    totalFavorites: nat,
    totalReblogs: nat,
    totalReplies: nat,
    avgFavoritesPerPost: nat,
    monthlyPosts: seq<nat>,
    hourlyPosts: seq<nat>,
    weekdayPosts: seq<nat>,
    busiestHour: Peak,
    mostActiveMonth: Peak,
    topHashtags: seq<Entry>,
    uniqueHashtags: nat,
    activityCalendar: seq<Entry>,
    longestStreak: nat,
    mostActiveDay: Option<Entry>,
    timezoneMode: TimezoneMode)

  function Min(a: nat, b: nat): nat { if a < b then a else b }

  function PeakOf(counts: seq<nat>): Peak
    requires |counts| > 0
  {
    Peak(FirstPeak(counts), counts[FirstPeak(counts)])
  }

  /** The hashtag ranking of the year's statuses that are not boosts (replies included). */
  function RankedTags(y: seq<Status>): seq<Entry> {
    SortByCountDesc(Tallied(TagNames(Filter(y, NotBoost))))
  }

  /** What each field of the record is, in terms of the statuses of the target year. */
  ghost predicate Describes(st: Stats, statuses: seq<Status>, account: Account, year: int, mode: TimezoneMode) {
    var y := InYear(statuses, year);
    && st.account == account && st.year == year && st.timezoneMode == mode
    && CountsOf(st, y)
    && EngagementOf(st, y)
    && StreakAndScoreOf(st, y)
    && ClassificationOf(st, y)
    && BucketsOf(st, y)
    && HashtagsOf(st, y)
    && CalendarOf(st, y)
  }

  /** Published posts, originals, boosts, and the media/text split of originals. */
  ghost predicate CountsOf(st: Stats, y: seq<Status>) {
    var o := Originals(y);
    && st.totalPosts == |Published(y)|
    && st.originalPosts == |o|
    && st.reblogs == |Boosts(y)|
    && st.mediaPosts == |Filter(o, HasMedia)|
    && st.textPosts == |o| - |Filter(o, HasMedia)|
  }

  /** Engagement received, summed over originals only. */
  ghost predicate EngagementOf(st: Stats, y: seq<Status>) {
    var o := Originals(y);
    && st.totalFavorites == SumOf(o, Favourites)
    && st.totalReblogs == SumOf(o, ReblogsReceived)
    && st.totalReplies == SumOf(o, RepliesReceived)
    && st.avgFavoritesPerPost == AvgFavoritesPerPost(st.totalFavorites, st.totalPosts)
  }

  ghost predicate StreakAndScoreOf(st: Stats, y: seq<Status>) {
    var days := SortedDays(Published(y));
    && 1 <= st.longestStreak <= |days|
    && LongestRun(days, st.longestStreak)
    && st.socialImpactScore == SocialImpactScore(st.totalReblogs, st.totalFavorites, st.totalPosts, st.longestStreak)
  }

  /** Persona over the whole year (replies included), chronotype over published posts. */
  ghost predicate ClassificationOf(st: Stats, y: seq<Status>) {
    && st.persona == DeterminePersona(|y|, |Originals(y)|, |Boosts(y)|, |Filter(y, IsPlainReply)|)
    && st.chronotype == DetermineChronotype(Published(y))
    && st.contentDistribution == ContentDistribution(st.textPosts, st.reblogs, st.mediaPosts)
  }

  ghost predicate BucketsOf(st: Stats, y: seq<Status>) {
    var p := Published(y);
    && st.monthlyPosts == Buckets(p, MonthOf, 12)
    && st.hourlyPosts == Buckets(p, HourOf, 24)
    && st.weekdayPosts == Buckets(p, WeekdayOf, 7)
    && st.busiestHour == PeakOf(st.hourlyPosts)
    && st.mostActiveMonth == PeakOf(st.monthlyPosts)
  }

  ghost predicate HashtagsOf(st: Stats, y: seq<Status>) {
    var ranked := RankedTags(y);
    && st.topHashtags == ranked[..Min(10, |ranked|)]
    && st.uniqueHashtags == |ranked|
  }

  ghost predicate CalendarOf(st: Stats, y: seq<Status>) {
    && st.activityCalendar == Tallied(DateKeys(Published(y)))
    && st.mostActiveDay.Some? && IsFirstMax(st.activityCalendar, st.mostActiveDay.value)
  }

  /** The three histograms of the published statuses and the peaks of two of them. */
  method TimeCharts(published: seq<Status>)
    returns (monthly: seq<nat>, hourly: seq<nat>, weekday: seq<nat>, busiestHour: Peak, mostActiveMonth: Peak)
    ensures monthly == Buckets(published, MonthOf, 12)
    ensures hourly == Buckets(published, HourOf, 24)
    ensures weekday == Buckets(published, WeekdayOf, 7)
    ensures busiestHour == PeakOf(hourly) && mostActiveMonth == PeakOf(monthly)
  {
    monthly := MonthlyDistribution(published);
    hourly := HourlyDistribution(published);
    weekday := WeekdayDistribution(published);
    busiestHour := PeakOf(hourly);
    mostActiveMonth := PeakOf(monthly);
  }

  /** The day-by-day calendar of the published statuses and its first busiest day. */
  method CalendarStats(published: seq<Status>) returns (calendar: seq<Entry>, mostActiveDay: Option<Entry>)
    requires |published| > 0
    ensures calendar == Tallied(DateKeys(published))
    ensures mostActiveDay.Some? && IsFirstMax(calendar, mostActiveDay.value)
  {
    calendar := ActivityCalendar(published);
    mostActiveDay := MostActiveDay(published);
  }

  /** The ten highest-ranked hashtags of the year and the number of distinct ones. */
  method TopHashtags(y: seq<Status>) returns (top: seq<Entry>, unique: nat)
    requires forall k :: k in TagNames(Filter(y, NotBoost)) ==> !IsArrayIndex(k)
    ensures top == RankedTags(y)[..Min(10, |RankedTags(y)|)]
    ensures unique == |RankedTags(y)|
  {
    var ranked := HashtagStats(Filter(y, NotBoost));
    top := ranked[..Min(10, |ranked|)];
    unique := |ranked|;
  }

  /**
   * `analyzeStatuses` with the year as a required argument: no record for an
   * empty list or for a year without published statuses, otherwise the
   * record `Describes` defines.
   */
  method AnalyzeStatuses(statuses: seq<Status>, account: Account, year: int, mode: TimezoneMode)
    returns (r: Option<Stats>)
    requires forall k :: k in TagNames(Filter(InYear(statuses, year), NotBoost)) ==> !IsArrayIndex(k)
    ensures |statuses| == 0 ==> r.None?
    ensures r.None? <==> |Published(InYear(statuses, year))| == 0
    ensures r.Some? ==> Describes(r.value, statuses, account, year, mode)
  {
    if |statuses| == 0 {
      return None;
    }
    var yearStatuses := InYear(statuses, year);
    var published := Published(yearStatuses);
    var originals := Filter(published, NotBoost);
    var boosts := Filter(published, IsBoost);
    PublishedPartition(yearStatuses);
    var totalPosts := |originals| + |boosts|;
    if totalPosts == 0 {
      return None;
    }
    var reblogs := |boosts|;
    var replies := |Filter(yearStatuses, IsPlainReply)|;
    var originalPosts := |originals|;
    var mediaPosts := |Filter(originals, HasMedia)|;
    var textPosts := originalPosts - mediaPosts;

    var totalFavorites := SumOf(originals, Favourites);
    var totalReblogs := SumOf(originals, ReblogsReceived);
    var totalReplies := SumOf(originals, RepliesReceived);

    var longestStreak := LongestStreak(published);
    var score := SocialImpactScore(totalReblogs, totalFavorites, totalPosts, longestStreak);
    var persona := DeterminePersona(|yearStatuses|, originalPosts, reblogs, replies);
    var chronotype := DetermineChronotype(published);
    var distribution := ContentDistribution(textPosts, reblogs, mediaPosts);

    var monthly, hourly, weekday, busiestHour, mostActiveMonth := TimeCharts(published);
    var topHashtags, uniqueHashtags := TopHashtags(yearStatuses);
    var calendar, mostActiveDay := CalendarStats(published);

    r := Some(Stats(
      account, year, totalPosts, originalPosts, reblogs, mediaPosts, textPosts, score, persona, chronotype,
      distribution, totalFavorites, totalReblogs, totalReplies,
      AvgFavoritesPerPost(totalFavorites, totalPosts),
      monthly, hourly, weekday, busiestHour, mostActiveMonth,
      topHashtags, uniqueHashtags,
      calendar, longestStreak, mostActiveDay, mode));
    var st := r.value;
    assert CountsOf(st, yearStatuses);
    assert EngagementOf(st, yearStatuses);
    assert StreakAndScoreOf(st, yearStatuses);
    assert ClassificationOf(st, yearStatuses);
    assert BucketsOf(st, yearStatuses);
    assert HashtagsOf(st, yearStatuses);
    assert CalendarOf(st, yearStatuses);
  }

  /**
   * The counting identities of a record: published posts split into
   * originals and boosts and originals into text and media; the chart
   * slices, the three histograms and the calendar each add up to the total;
   * the busiest hour and month are first maxima; at most ten top hashtags.
   */
  lemma StatsIdentities(st: Stats, statuses: seq<Status>, account: Account, year: int, mode: TimezoneMode)
    requires Describes(st, statuses, account, year, mode)
    ensures st.totalPosts == st.originalPosts + st.reblogs
    ensures st.textPosts + st.mediaPosts == st.originalPosts
    ensures SliceSum(st.contentDistribution) == st.totalPosts
    ensures |st.monthlyPosts| == 12 && Sum(st.monthlyPosts) == st.totalPosts
    ensures |st.hourlyPosts| == 24 && Sum(st.hourlyPosts) == st.totalPosts
    ensures |st.weekdayPosts| == 7 && Sum(st.weekdayPosts) == st.totalPosts
    ensures Total(st.activityCalendar) == st.totalPosts
    ensures st.busiestHour.index < 24 && forall h :: 0 <= h < 24 ==> st.hourlyPosts[h] <= st.busiestHour.count
    ensures forall h :: 0 <= h < st.busiestHour.index ==> st.hourlyPosts[h] < st.busiestHour.count
    ensures st.mostActiveMonth.index < 12 && forall m :: 0 <= m < 12 ==> st.monthlyPosts[m] <= st.mostActiveMonth.count
    ensures forall m :: 0 <= m < st.mostActiveMonth.index ==> st.monthlyPosts[m] < st.mostActiveMonth.count
    ensures |st.topHashtags| <= 10 && |st.topHashtags| <= st.uniqueHashtags
  {
    var y := InYear(statuses, year);
    var p := Published(y);
    assert CountsOf(st, y) && BucketsOf(st, y) && CalendarOf(st, y) && ClassificationOf(st, y) && HashtagsOf(st, y);
    PublishedPartition(y);
    BucketsSum(p, MonthOf, 12);
    BucketsSum(p, HourOf, 24);
    BucketsSum(p, WeekdayOf, 7);
    TalliedTotal(DateKeys(p));
    DistributionSum(st.textPosts, st.reblogs, st.mediaPosts);
  }
}
