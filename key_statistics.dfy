/**
 * The in-memory statistics engine: a bounded history of key presses,
 * oldest first, and the aggregates computed afresh from it on each query.
 */
module Statistics {
  import opened Counting
  import opened Ranking
  import opened Presses

  const DefaultMaxHistorySize: nat := 1000

  /** The string field of a press that a query groups or filters by. */
  datatype Field = AppName | KeyCombination

  function FieldOf(p: KeyPress, f: Field): string
  {
    match f
    case AppName => p.appName
    case KeyCombination => p.keyCombination
  }

  /** The field `f` of every press, in history order. */
  function Values(h: seq<KeyPress>, f: Field): (r: seq<string>)
    ensures |r| == |h|
    ensures forall i :: 0 <= i < |h| ==> r[i] == FieldOf(h[i], f)
  {
    if h == [] then [] else Values(h[..|h| - 1], f) + [FieldOf(h[|h| - 1], f)]
  }

  /** The presses whose field `f` equals `v`, in history order. */
  function Matching(h: seq<KeyPress>, f: Field, v: string): seq<KeyPress>
  {
    if h == [] then []
    else
      var last := h[|h| - 1];
      Matching(h[..|h| - 1], f, v) + (if FieldOf(last, f) == v then [last] else [])
  }

  /** The newest `n` entries of `h` (all of them when there are fewer), in their order. */
  function Newest(h: seq<KeyPress>, n: nat): (r: seq<KeyPress>)
    ensures |r| == Min(n, |h|)
    ensures h == h[..|h| - |r|] + r
  {
    h[|h| - Min(n, |h|)..]
  }

  /** One `addKeyPress` on the history as a value: append, then drop the oldest if over the bound. */
  function Record(h: seq<KeyPress>, p: KeyPress, bound: nat): seq<KeyPress>
  {
    var g := h + [p];
    if |g| > bound then g[1..] else g
  }

  /** A run of `addKeyPress` calls, oldest event first. */
  function RecordAll(h: seq<KeyPress>, events: seq<KeyPress>, bound: nat): seq<KeyPress>
    decreases |events|
  {
    if events == [] then h else RecordAll(Record(h, events[0], bound), events[1..], bound)
  }

  lemma ValuesSnoc(h: seq<KeyPress>, p: KeyPress, f: Field)
    ensures Values(h + [p], f) == Values(h, f) + [FieldOf(p, f)]
  {
  }

  lemma MatchingSnoc(h: seq<KeyPress>, p: KeyPress, f: Field, v: string)
    ensures Matching(h + [p], f, v) == Matching(h, f, v) + (if FieldOf(p, f) == v then [p] else [])
  {
    assert (h + [p])[..|h + [p]| - 1] == h;
  }

  lemma PrefixSnoc(h: seq<KeyPress>, i: nat)
    requires i < |h|
    ensures h[..i + 1] == h[..i] + [h[i]]
  {
  }

  /** Filtering commutes with concatenation, so it keeps the history's order. */
  lemma {:induction false} MatchingDistributes(a: seq<KeyPress>, b: seq<KeyPress>, f: Field, v: string)
    ensures Matching(a + b, f, v) == Matching(a, f, v) + Matching(b, f, v)
    decreases |b|
  {
    if b != [] {
      var init, last := b[..|b| - 1], b[|b| - 1];
      assert b == init + [last];
      assert a + b == (a + init) + [last];
      MatchingDistributes(a, init, f, v);
      MatchingSnoc(a + init, last, f, v);
      MatchingSnoc(init, last, f, v);
    } else {
      assert a + b == a;
    }
  }

  /** The filter keeps exactly the matching presses. */
  lemma {:induction false} MatchingKeepsExactlyMatches(h: seq<KeyPress>, f: Field, v: string, p: KeyPress)
    ensures p in Matching(h, f, v) <==> p in h && FieldOf(p, f) == v
  {
    if h != [] {
      var init := h[..|h| - 1];
      assert h == init + [h[|h| - 1]];
      MatchingKeepsExactlyMatches(init, f, v, p);
    }
  }

  /** As many presses match `v` as `v` occurs among the field values. */
  lemma {:induction false} MatchingCount(h: seq<KeyPress>, f: Field, v: string)
    ensures |Matching(h, f, v)| == Count(Values(h, f), v)
  {
    if h != [] {
      var init := h[..|h| - 1];
      assert h == init + [h[|h| - 1]];
      MatchingCount(init, f, v);
      ValuesSnoc(init, h[|h| - 1], f);
      CountSnoc(Values(init, f), FieldOf(h[|h| - 1], f), v);
    }
  }

  /**
   * A usage map (per application, or per key combination) has a key for
   * each value present, mapped to the number of presses carrying it.
   */
  lemma UsageStatsAreExactCounts(h: seq<KeyPress>, f: Field, v: string)
    ensures v in Tally(Values(h, f)) <==> exists i :: 0 <= i < |h| && FieldOf(h[i], f) == v
    ensures v in Tally(Values(h, f)) ==> Tally(Values(h, f))[v] == |Matching(h, f, v)|
  {
    TallyIsExactCount(Values(h, f), v);
    MatchingCount(h, f, v);
    if v in Values(h, f) {
      var i :| 0 <= i < |h| && Values(h, f)[i] == v;
      assert FieldOf(h[i], f) == v;
    }
  }

  /** The counts of a usage map add up to the number of presses it was built from. */
  lemma UsageStatsSum(h: seq<KeyPress>, f: Field)
    ensures MapSum(Tally(Values(h, f))) == |h|
  {
    TallySum(Values(h, f));
  }

  /**
   * The per-application key map counts, for each key, the presses of that
   * application with that key, and its counts add up to the application's
   * presses, which is the application's entry in the usage map.
   */
  lemma AppKeyStatsAreExactCounts(h: seq<KeyPress>, app: string, keys: string)
    ensures var m := Tally(Values(Matching(h, AppName, app), KeyCombination));
      && (keys in m <==> exists p :: p in h && p.appName == app && p.keyCombination == keys)
      && (keys in m ==> m[keys] == |Matching(Matching(h, AppName, app), KeyCombination, keys)|)
      && MapSum(m) == |Matching(h, AppName, app)|
      && (app in Tally(Values(h, AppName)) ==> MapSum(m) == Tally(Values(h, AppName))[app])
  {
    var mine := Matching(h, AppName, app);
    UsageStatsAreExactCounts(mine, KeyCombination, keys);
    forall p ensures p in mine <==> p in h && p.appName == app {
      MatchingKeepsExactlyMatches(h, AppName, app, p);
    }
    if keys in Tally(Values(mine, KeyCombination)) {
      var i :| 0 <= i < |mine| && mine[i].keyCombination == keys;
      assert mine[i] in mine;
    }
    UsageStatsSum(mine, KeyCombination);
    UsageStatsAreExactCounts(h, AppName, app);
  }

  lemma RecordKeepsNewest(h: seq<KeyPress>, p: KeyPress, bound: nat)
    requires |h| <= bound
    ensures Record(h, p, bound) == Newest(h + [p], bound)
  {
  }

  /** The newest entries of a long enough suffix are the newest entries of the whole. */
  lemma NewestOfLongSuffix(x: seq<KeyPress>, k: nat, n: nat)
    requires k <= |x| && Min(n, |x|) <= |x| - k
    ensures Newest(x[k..], n) == Newest(x, n)
  {
  }

  /** Recording the first event, then the rest, keeps as much as recording them all at once. */
  lemma RecordThenRest(h: seq<KeyPress>, events: seq<KeyPress>, bound: nat)
    requires |h| <= bound && events != []
    ensures Newest(Record(h, events[0], bound) + events[1..], bound) == Newest(h + events, bound)
  {
    var g := Record(h, events[0], bound);
    var x := h + events;
    var k := |h| + 1 - |g|;
    assert g == x[k..|h| + 1];
    assert g + events[1..] == x[k..];
    NewestOfLongSuffix(x, k, bound);
  }

  /**
   * Whatever the input volume, the history after a run of presses holds
   * exactly the newest `bound` of everything recorded, in capture order.
   */
  lemma {:induction false} RecordAllKeepsNewest(h: seq<KeyPress>, events: seq<KeyPress>, bound: nat)
    requires |h| <= bound
    ensures RecordAll(h, events, bound) == Newest(h + events, bound)
    decreases |events|
  {
    if events == [] {
      assert h + events == h;
    } else {
      var g := Record(h, events[0], bound);
      RecordKeepsNewest(h, events[0], bound);
      RecordAllKeepsNewest(g, events[1..], bound);
      RecordThenRest(h, events, bound);
    }
  }

  /** One more press updates the per-application key map only when it is of that application. */
  lemma AppKeyStatsSnoc(h: seq<KeyPress>, p: KeyPress, app: string)
    ensures var before := Tally(Values(Matching(h, AppName, app), KeyCombination));
      Tally(Values(Matching(h + [p], AppName, app), KeyCombination))
      == if p.appName == app then Increment(before, p.keyCombination) else before
  {
    MatchingSnoc(h, p, AppName, app);
    if p.appName == app {
      assert Matching(h + [p], AppName, app) == Matching(h, AppName, app) + [p];
      ValuesSnoc(Matching(h, AppName, app), p, KeyCombination);
      TallySnoc(Values(Matching(h, AppName, app), KeyCombination), p.keyCombination);
    } else {
      assert Matching(h + [p], AppName, app) == Matching(h, AppName, app);
    }
  }

  /** Timestamps in capture order never decrease. */
  ghost predicate Chronological(h: seq<KeyPress>)
  {
    forall i, j :: 0 <= i < j < |h| ==> h[i].timestamp <= h[j].timestamp
  }

  datatype StatsExport = StatsExport(
    totalPresses: nat,
    timeRange: (Millis, Millis),
    topApps: seq<Entry>,
    topKeys: seq<Entry>)

  const ExportTopLimit: nat := 5

  class KeyStatistics {
    var history: seq<KeyPress>
    var maxHistorySize: nat

    /** The history never holds more presses than the bound. */
    ghost predicate Valid()
      reads this
    {
      |history| <= maxHistorySize
    }

    constructor(maxSize: nat := DefaultMaxHistorySize)
      ensures Valid()
      ensures history == [] && maxHistorySize == maxSize
    {
      history := [];
      maxHistorySize := maxSize;
    }

    /** Appends `p`; if that passes the bound, the oldest press (and only it) is dropped. */
    method AddKeyPress(p: KeyPress)
      requires Valid()
      modifies this
      ensures Valid() && maxHistorySize == old(maxHistorySize)
      ensures history == Record(old(history), p, maxHistorySize)
      ensures history == Newest(old(history) + [p], maxHistorySize)
    {
      history := history + [p];
      if |history| > maxHistorySize {
        history := history[1..];
      }
      RecordKeepsNewest(old(history), p, maxHistorySize);
    }

    /** The two-argument overload; the clock reading `nowMs` is a parameter. */
    method AddKeyPressAt(app: string, keys: string, nowMs: Millis)
      requires Valid()
      modifies this
      ensures Valid() && maxHistorySize == old(maxHistorySize)
      ensures history == Record(old(history), KeyPressAt(app, keys, nowMs), maxHistorySize)
    {
      AddKeyPress(KeyPressAt(app, keys, nowMs));
    }

    /** The whole history, oldest first, never longer than the bound. */
    function GetHistory(): (r: seq<KeyPress>)
      reads this
      ensures Valid() ==> |r| <= maxHistorySize
      ensures r == GetRecentPresses(|history|)
    {
      history
    }

    /** The last `count` presses (all when fewer are stored), oldest first. */
    function GetRecentPresses(count: nat := 10): (r: seq<KeyPress>)
      reads this
      ensures r == Newest(history, count)
    {
      var start := if |history| > count then |history| - count else 0;
      history[start..]
    }

    /** Presses per application. */
    method GetAppUsageStats() returns (stats: map<string, nat>)
      ensures stats == Tally(Values(history, AppName))
    {
      stats := map[];
      for i := 0 to |history|
        invariant stats == Tally(Values(history[..i], AppName))
      {
        var app := history[i].appName;
        stats := stats[app := if app in stats then stats[app] + 1 else 1];
        PrefixSnoc(history, i);
        ValuesSnoc(history[..i], history[i], AppName);
        TallySnoc(Values(history[..i], AppName), app);
      }
      assert history[..|history|] == history;
    }

    /** Presses per key combination, over all applications. */
    method GetKeyUsageStats() returns (stats: map<string, nat>)
      ensures stats == Tally(Values(history, KeyCombination))
    {
      stats := map[];
      for i := 0 to |history|
        invariant stats == Tally(Values(history[..i], KeyCombination))
      {
        var keys := history[i].keyCombination;
        stats := stats[keys := if keys in stats then stats[keys] + 1 else 1];
        PrefixSnoc(history, i);
        ValuesSnoc(history[..i], history[i], KeyCombination);
        TallySnoc(Values(history[..i], KeyCombination), keys);
      }
      assert history[..|history|] == history;
    }

    /** Presses per key combination within application `app`. */
    method GetAppKeyStats(app: string) returns (stats: map<string, nat>)
      ensures stats == Tally(Values(Matching(history, AppName, app), KeyCombination))
    {
      stats := map[];
      for i := 0 to |history|
        invariant stats == Tally(Values(Matching(history[..i], AppName, app), KeyCombination))
      {
        var press := history[i];
        PrefixSnoc(history, i);
        AppKeyStatsSnoc(history[..i], press, app);
        if press.appName == app {
          var keys := press.keyCombination;
          stats := stats[keys := if keys in stats then stats[keys] + 1 else 1];
        }
      }
      assert history[..|history|] == history;
    }

    method GetTopApps(limit: nat := 10) returns (top: seq<Entry>)
      ensures IsTopN(top, Tally(Values(history, AppName)), limit)
    {
      var stats := GetAppUsageStats();
      top := TopN(stats, limit);
    }

    method GetTopKeys(limit: nat := 10) returns (top: seq<Entry>)
      ensures IsTopN(top, Tally(Values(history, KeyCombination)), limit)
    {
      var stats := GetKeyUsageStats();
      top := TopN(stats, limit);
    }

    method GetTopKeysForApp(app: string, limit: nat := 10) returns (top: seq<Entry>)
      ensures IsTopN(top, Tally(Values(Matching(history, AppName, app), KeyCombination)), limit)
    {
      var stats := GetAppKeyStats(app);
      top := TopN(stats, limit);
    }

    /** The presses of application `app`, in history order. */
    method FindPressesByApp(app: string) returns (result: seq<KeyPress>)
      ensures result == Matching(history, AppName, app)
    {
      result := [];
      for i := 0 to |history|
        invariant result == Matching(history[..i], AppName, app)
      {
        PrefixSnoc(history, i);
        MatchingSnoc(history[..i], history[i], AppName, app);
        if history[i].appName == app {
          result := result + [history[i]];
        }
      }
      assert history[..|history|] == history;
    }

    /** The presses of key combination `keys`, in history order. */
    method FindPressesByKey(keys: string) returns (result: seq<KeyPress>)
      ensures result == Matching(history, KeyCombination, keys)
    {
      result := [];
      for i := 0 to |history|
        invariant result == Matching(history[..i], KeyCombination, keys)
      {
        PrefixSnoc(history, i);
        MatchingSnoc(history[..i], history[i], KeyCombination, keys);
        if history[i].keyCombination == keys {
          result := result + [history[i]];
        }
      }
      assert history[..|history|] == history;
    }

    /** (0, 0) when empty; otherwise the timestamps of the first and the last stored press. */
    function GetTimeRange(): (r: (Millis, Millis))
      reads this
      ensures history == [] ==> r == (0, 0)
      ensures history != [] ==> r == (history[0].timestamp, history[|history| - 1].timestamp)
    {
      if history == [] then (0, 0)
      else (history[0].timestamp, history[|history| - 1].timestamp)
    }

    /** Empties the history; the bound stays. */
    method ClearHistory()
      modifies this
      ensures Valid()
      ensures history == [] && maxHistorySize == old(maxHistorySize)
    {
      history := [];
    }

    function GetCount(): (n: nat)
      reads this
      ensures n == |history|
      ensures Valid() ==> n <= maxHistorySize
    {
      |history|
    }

    function IsEmpty(): (b: bool)
      reads this
      ensures b <==> GetCount() == 0
    {
      history == []
    }

    /** Sets the bound and keeps the newest `newSize` presses, in their order. */
    method SetMaxHistorySize(newSize: nat)
      modifies this
      ensures Valid()
      ensures maxHistorySize == newSize
      ensures history == Newest(old(history), newSize)
    {
      maxHistorySize := newSize;
      if |history| > maxHistorySize {
        history := history[|history| - maxHistorySize..];
      }
    }

    /** `exportStats` without its text layout: the count, the range and the two top-5 lists. */
    method ExportStats() returns (e: StatsExport)
      ensures e.totalPresses == |history|
      ensures e.timeRange == GetTimeRange()
      ensures IsTopN(e.topApps, Tally(Values(history, AppName)), ExportTopLimit)
      ensures IsTopN(e.topKeys, Tally(Values(history, KeyCombination)), ExportTopLimit)
    {
      var topApps := GetTopApps(ExportTopLimit);
      var topKeys := GetTopKeys(ExportTopLimit);
      e := StatsExport(GetCount(), GetTimeRange(), topApps, topKeys);
    }
  }

  /** In a chronological history the first and last timestamps bound every press. */
  lemma TimeRangeSpansChronologicalHistory(s: KeyStatistics, i: nat)
    requires Chronological(s.history)
    requires i < |s.history|
    ensures s.GetTimeRange().0 <= s.history[i].timestamp <= s.GetTimeRange().1
  {
  }
}
