/**
 * The records the analyzer and the fetch client share: statuses (posts) and
 * accounts as the Mastodon API returns them, reduced to the fields the core
 * reads, and the scopes the analyzer partitions a status list into.
 */
module Posts {
  import opened Wrappers

  type Month = m: nat | m < 12
  type Hour = h: nat | h < 24
  type Weekday = d: nat | d < 7

  /**
   * The calendar reading of a status's `created_at` under the analysis's
   * timezone mode: what `getFullYear`/`getMonth`/`getHours`/`getDay` (or their
   * UTC forms) return, the day number of that calendar date (days since an
   * epoch) and its `YYYY-MM-DD` string.
   */
  datatype Civil = Civil(year: int, month: Month, hour: Hour, weekday: Weekday, day: int, dateKey: string)

  /**
   * A status. `createdAt` is the instant of `created_at` in milliseconds;
   * `isReply` is "in_reply_to_id is set", `isBoost` is "reblog is set"; an
   * absent counter is `None`.
   */
  datatype Status = Status(
    id: string,
    createdAt: int,
    civil: Civil,
    isReply: bool,
    isBoost: bool,
    favourites: Option<nat>,
    reblogsCount: Option<nat>,
    repliesCount: Option<nat>,
    mediaCount: nat,
    tags: seq<string>)

  /** A custom emoji definition of an account; any field may be absent. */
  datatype Emoji = Emoji(shortcode: Option<string>, url: Option<string>, staticUrl: Option<string>)

  datatype Account = Account(id: string, username: string, displayName: string, emojis: seq<Emoji>)

  datatype TimezoneMode = Local | Utc

  // ---------------------------------------------------------------------------
  // Filtering and summing

  function Filter(ss: seq<Status>, p: Status -> bool): (r: seq<Status>)
    ensures |r| <= |ss|
    ensures forall s :: s in r ==> s in ss && p(s)
    ensures forall s :: s in ss && p(s) ==> s in r
  {
    if ss == [] then [] else Filter(ss[..|ss| - 1], p) + (if p(ss[|ss| - 1]) then [ss[|ss| - 1]] else [])
  }

  /** `s.x || 0` for an absent-or-present counter. */
  function OrZero(c: Option<nat>): nat {
    if c.Some? then c.value else 0
  }

  function SumOf(ss: seq<Status>, f: Status -> nat): nat {
    if ss == [] then 0 else SumOf(ss[..|ss| - 1], f) + f(ss[|ss| - 1])
  }

  predicate IsPublished(s: Status) { !s.isReply }
  predicate IsBoost(s: Status) { s.isBoost }
  predicate NotBoost(s: Status) { !s.isBoost }
  /** A reply that is not itself a boost, the analyzer's "replies" count. */
  predicate IsPlainReply(s: Status) { s.isReply && !s.isBoost }
  predicate HasMedia(s: Status) { s.mediaCount > 0 }

  function Favourites(s: Status): nat { OrZero(s.favourites) }
  function ReblogsReceived(s: Status): nat { OrZero(s.reblogsCount) }
  function RepliesReceived(s: Status): nat { OrZero(s.repliesCount) }

  // ---------------------------------------------------------------------------
  // The analyzer's scopes

  /** The statuses whose calendar year (in the chosen mode) is `year`. */
  function InYear(ss: seq<Status>, year: int): (r: seq<Status>)
    ensures forall s :: s in r <==> s in ss && s.civil.year == year
    decreases |ss|
  {
    if ss == [] then []
    else InYear(ss[..|ss| - 1], year) + (if ss[|ss| - 1].civil.year == year then [ss[|ss| - 1]] else [])
  }

  /** Published: not a reply (originals and boosts). */
  function Published(y: seq<Status>): seq<Status> { Filter(y, IsPublished) }

  /** Originals: published and not a boost. */
  function Originals(y: seq<Status>): seq<Status> { Filter(Published(y), NotBoost) }

  /** Boosts: published and a boost. */
  function Boosts(y: seq<Status>): seq<Status> { Filter(Published(y), IsBoost) }

  // ---------------------------------------------------------------------------
  // Lemmas

  /** A status kept by the filter is kept as many times as it occurs; any other is dropped. */
  lemma {:induction false} FilterMultiset(ss: seq<Status>, p: Status -> bool)
    ensures forall s :: multiset(Filter(ss, p))[s] == if p(s) then multiset(ss)[s] else 0
    decreases |ss|
  {
    if ss != [] {
      var init, x := ss[..|ss| - 1], ss[|ss| - 1];
      assert ss == init + [x];
      FilterMultiset(init, p);
    }
  }

  lemma {:induction false} FilterAppend(a: seq<Status>, b: seq<Status>, p: Status -> bool)
    ensures Filter(a + b, p) == Filter(a, p) + Filter(b, p)
    decreases |b|
  {
    if b == [] {
      assert a + b == a;
    } else {
      var b', x := b[..|b| - 1], b[|b| - 1];
      var last := if p(x) then [x] else [];
      assert (a + b)[..|a + b| - 1] == a + b';
      assert (a + b)[|a + b| - 1] == x;
      assert Filter(a + b, p) == Filter(a + b', p) + last;
      FilterAppend(a, b', p);
      assert Filter(b, p) == Filter(b', p) + last;
      assert Filter(a, p) + Filter(b', p) + last == Filter(a, p) + (Filter(b', p) + last);
    }
  }

  /** A predicate and its negation split a list: each element lands on exactly one side. */
  lemma {:induction false} FilterPartition(ss: seq<Status>, p: Status -> bool, q: Status -> bool)
    requires forall s :: q(s) == !p(s)
    ensures |Filter(ss, p)| + |Filter(ss, q)| == |ss|
    decreases |ss|
  {
    if ss != [] {
      FilterPartition(ss[..|ss| - 1], p, q);
    }
  }

  lemma {:induction false} SumOfAppend(a: seq<Status>, b: seq<Status>, f: Status -> nat)
    ensures SumOf(a + b, f) == SumOf(a, f) + SumOf(b, f)
    decreases |b|
  {
    if b == [] {
      assert a + b == a;
    } else {
      var b' := b[..|b| - 1];
      assert (a + b)[..|a + b| - 1] == a + b';
      assert (a + b)[|a + b| - 1] == b[|b| - 1];
      SumOfAppend(a, b', f);
    }
  }

  /**
   * Published statuses are exactly originals plus boosts, and originals are
   * exactly media posts plus text posts.
   */
  lemma PublishedPartition(y: seq<Status>)
    ensures |Published(y)| == |Originals(y)| + |Boosts(y)|
    ensures |Originals(y)| == |Filter(Originals(y), HasMedia)| + |Filter(Originals(y), Not(HasMedia))|
  {
    FilterPartition(Published(y), NotBoost, IsBoost);
    FilterPartition(Originals(y), HasMedia, Not(HasMedia));
  }

  function Not(p: Status -> bool): Status -> bool {
    s => !p(s)
  }

  /**
   * Engagement is counted over originals only: appending a boost or a reply
   * to the year's statuses changes none of the three engagement sums,
   * whatever that status's own counters say.
   */
  lemma OnlyOriginalsEngage(y: seq<Status>, s: Status, f: Status -> nat)
    requires s.isBoost || s.isReply
    ensures Originals(y + [s]) == Originals(y)
    ensures SumOf(Originals(y + [s]), f) == SumOf(Originals(y), f)
  {
    var ys := y + [s];
    assert ys[..|ys| - 1] == y;
    var p := Published(y);
    if s.isReply {
      assert Published(ys) == p;
    } else {
      assert Published(ys) == p + [s];
      assert (p + [s])[..|p + [s]| - 1] == p;
    }
  }

  /** The year scope of a concatenation is the concatenation of the year scopes. */
  lemma {:induction false} InYearAppend(a: seq<Status>, b: seq<Status>, year: int)
    ensures InYear(a + b, year) == InYear(a, year) + InYear(b, year)
    decreases |b|
  {
    if b == [] {
      assert a + b == a;
    } else {
      var b' := b[..|b| - 1];
      assert (a + b)[..|a + b| - 1] == a + b';
      assert (a + b)[|a + b| - 1] == b[|b| - 1];
      InYearAppend(a, b', year);
    }
  }
}
