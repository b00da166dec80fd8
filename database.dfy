/**
 * The durable aggregate store. The SQLite table `key_statistics`, with
 * `UNIQUE(app_name, key_combination)`, is modelled as a finite map from the
 * (application, key combination) pair to its press count; a map holds one
 * entry per pair by construction.
 */
module Storage {
  import opened Counting
  import opened Ranking
  import opened StringOrder
  import Decimal

  type Pair = (string, string)

  /** What `getAppStatistics` reports, before it is laid out as text. */
  datatype RankedLine = RankedLine(rank: nat, keyCombination: string, pressCount: nat)

  datatype AppStatistics =
    | NotInitialized
    | NoKeyPresses(appName: string)
    | Ranked(lines: seq<RankedLine>, totalCombinations: nat, totalPresses: nat)

  /** The distinct application names of the table. */
  function AppNamesOf(rows: map<Pair, nat>): set<string>
  {
    set p | p in rows :: p.0
  }

  /** The rows of application `app`, keyed by key combination. */
  function KeyCountsOf(rows: map<Pair, nat>, app: string): (m: map<string, nat>)
    ensures forall k :: k in m <==> (app, k) in rows
    ensures forall k :: k in m ==> m[k] == rows[(app, k)]
  {
    map p | p in rows && p.0 == app :: p.1 := rows[p]
  }

  /** The upserts of a run of events applied in order to a table. */
  function Replay(rows: map<Pair, nat>, events: seq<Pair>): map<Pair, nat>
    decreases |events|
  {
    if events == [] then rows else Replay(Increment(rows, events[0]), events[1..])
  }

  lemma {:induction false} ReplaySnoc(rows: map<Pair, nat>, events: seq<Pair>, e: Pair)
    ensures Replay(rows, events + [e]) == Increment(Replay(rows, events), e)
    decreases |events|
  {
    if events == [] {
      assert events + [e] == [e];
    } else {
      assert (events + [e])[1..] == events[1..] + [e];
      ReplaySnoc(Increment(rows, events[0]), events[1..], e);
    }
  }

  /** Replaying from an empty table builds the occurrence map of the events. */
  lemma {:induction false} ReplayFromEmptyIsTally(events: seq<Pair>)
    ensures Replay(map[], events) == Tally(events)
    decreases |events|
  {
    if events != [] {
      var init := events[..|events| - 1];
      assert events == init + [events[|events| - 1]];
      ReplayFromEmptyIsTally(init);
      ReplaySnoc(map[], init, events[|events| - 1]);
    }
  }

  /**
   * One upsert per event on an empty table leaves, for every pair, a row
   * exactly when the pair occurred, holding its number of occurrences; the
   * counts add up to the number of events.
   */
  lemma ReplayCountsOccurrences(events: seq<Pair>, p: Pair)
    ensures p in Replay(map[], events) <==> p in events
    ensures p in Replay(map[], events) ==> Replay(map[], events)[p] == Count(events, p)
    ensures MapSum(Replay(map[], events)) == |events|
  {
    ReplayFromEmptyIsTally(events);
    TallyIsExactCount(events, p);
    TallySum(events);
  }

  /** After `clearStatistics`, the next upsert of any pair starts it at 1. */
  lemma UpsertAfterClear(p: Pair)
    ensures Increment(map[], p) == map[p := 1]
  {
  }

  /** The ranked lines as (key combination, count) entries. */
  function EntriesOfLines(lines: seq<RankedLine>): (r: seq<Entry>)
    ensures |r| == |lines|
    ensures forall i :: 0 <= i < |lines| ==> r[i] == (lines[i].keyCombination, lines[i].pressCount)
  {
    if lines == [] then []
    else EntriesOfLines(lines[..|lines| - 1]) + [(lines[|lines| - 1].keyCombination, lines[|lines| - 1].pressCount)]
  }

  /** The `LIMIT` bound: a negative limit (the default -1) means no bound. */
  function RowBound(limit: int, available: nat): nat
  {
    if limit < 0 then available else limit
  }

  /**
   * `report` is what `getAppStatistics(app, limit)` gives for the rows of
   * `app`: nothing to list yields the "no key presses" message; otherwise
   * the rows in non-increasing count order, at most `limit` of them,
   * numbered from 1, with totals over the listed rows.
   */
  ghost predicate ReportsRanking(report: AppStatistics, app: string, counts: map<string, nat>, limit: int)
  {
    var n := RowBound(limit, |counts|);
    if Min(n, |counts|) == 0 then report == NoKeyPresses(app)
    else
      && report.Ranked?
      && IsTopN(EntriesOfLines(report.lines), counts, n)
      && (forall i :: 0 <= i < |report.lines| ==> report.lines[i].rank == i + 1)
      && report.totalCombinations == |report.lines|
      && report.totalPresses == CountSum(EntriesOfLines(report.lines))
  }

  /** `lines` lists `entries` in order, ranked 1, 2, … */
  predicate NumberedLines(lines: seq<RankedLine>, entries: seq<Entry>)
  {
    && |lines| == |entries|
    && forall j :: 0 <= j < |entries| ==> lines[j] == RankedLine(j + 1, entries[j].0, entries[j].1)
  }

  lemma NumberedLinesSnoc(lines: seq<RankedLine>, entries: seq<Entry>, e: Entry)
    requires NumberedLines(lines, entries)
    ensures NumberedLines(lines + [RankedLine(|entries| + 1, e.0, e.1)], entries + [e])
  {
  }

  /**
   * Numbering the rows of a top-`n` ranking from 1 and adding up their
   * counts gives the report of that ranking; no rows gives the "no key presses" one.
   */
  lemma NumberedLinesReportRanking(report: AppStatistics, app: string, counts: map<string, nat>, limit: int, selected: seq<Entry>)
    requires IsTopN(selected, counts, RowBound(limit, |counts|))
    requires selected == [] ==> report == NoKeyPresses(app)
    requires selected != [] ==> report.Ranked? && NumberedLines(report.lines, selected)
    requires selected != [] ==> report.totalCombinations == |selected| && report.totalPresses == CountSum(selected)
    ensures ReportsRanking(report, app, counts, limit)
  {
    if selected != [] {
      assert EntriesOfLines(report.lines) == selected;
    }
  }

  /**
   * The text of a report, without the column padding. It is never empty,
   * and its first character tells the three outcomes apart: 'D' for the
   * missing handle, 'N' for an application without rows, a digit (or the
   * line break of the totals) for a ranking.
   */
  function Render(report: AppStatistics): (t: string)
    ensures t != []
    ensures report.NotInitialized? ==> t[0] == 'D'
    ensures report.NoKeyPresses? ==> t[0] == 'N'
    ensures report.Ranked? ==> Decimal.IsDigit(t[0]) || t[0] == '\n'
    ensures report.Ranked? && report.lines != [] ==> Decimal.IsDigit(t[0])
  {
    match report
    case NotInitialized => "Database not initialized!"
    case NoKeyPresses(app) => "No key presses recorded for " + app + " yet.\n"
    case Ranked(lines, combinations, presses) => RenderLines(lines) + RenderTotals(combinations, presses)
  }

  /** The rule of 40 dashes and the two totals under the ranked lines; it starts on a new line. */
  function RenderTotals(combinations: nat, presses: nat): (t: string)
    ensures |t| > 42 && t[0] == '\n'
    ensures t[1..41] == Dashes(40) && t[41] == '\n'
  {
    "\n" + Dashes(40) + "\n"
    + "Total combinations: " + Decimal.DecimalString(combinations) + "\n"
    + "Total key presses: " + Decimal.DecimalString(presses) + "\n"
  }

  /** One ranked line: "<rank>. <keys> <count> times", starting with the rank's digits. */
  function RenderLine(line: RankedLine): (t: string)
    ensures |t| > 0 && Decimal.IsDigit(t[0])
    ensures t[|t| - 1] == '\n'
  {
    Decimal.DecimalString(line.rank) + ". " + line.keyCombination + CountSuffix(line.pressCount)
  }

  function CountSuffix(count: nat): string
  {
    " " + Decimal.DecimalString(count) + " times\n"
  }

  /** The ranked lines in order: empty exactly when there are none, else starting with a rank. */
  function RenderLines(lines: seq<RankedLine>): (t: string)
    ensures t == [] <==> lines == []
    ensures lines != [] ==> Decimal.IsDigit(t[0])
  {
    if lines == [] then "" else RenderLines(lines[..|lines| - 1]) + RenderLine(lines[|lines| - 1])
  }

  /** `std::string(n, '-')`. */
  function Dashes(n: nat): (t: string)
    ensures |t| == n
    ensures forall i :: 0 <= i < n ==> t[i] == '-'
  {
    if n == 0 then "" else Dashes(n - 1) + "-"
  }

  ghost predicate Contains(text: string, part: string)
  {
    exists i, j :: 0 <= i <= j <= |text| && text[i..j] == part
  }

  lemma MiddleIsContained(a: string, b: string, c: string, d: string)
    ensures Contains(a + (b + c + d), c)
  {
    assert (a + (b + c + d))[|a| + |b|..|a| + |b| + |c|] == c;
  }

  /** The last line's key combination appears in the rendered lines. */
  lemma LastKeyMentioned(lines: seq<RankedLine>)
    requires lines != []
    ensures Contains(RenderLines(lines), lines[|lines| - 1].keyCombination)
  {
    var last := lines[|lines| - 1];
    var pre := Decimal.DecimalString(last.rank) + ". ";
    MiddleIsContained(RenderLines(lines[..|lines| - 1]), pre, last.keyCombination, CountSuffix(last.pressCount));
  }

  lemma {:induction false} RenderLinesMentionsEveryKey(lines: seq<RankedLine>, k: nat)
    requires k < |lines|
    ensures Contains(RenderLines(lines), lines[k].keyCombination)
  {
    if k == |lines| - 1 {
      LastKeyMentioned(lines);
    } else {
      var init := lines[..|lines| - 1];
      var before := RenderLines(init);
      var text := RenderLines(lines);
      assert text == before + RenderLine(lines[|lines| - 1]);
      assert init[k] == lines[k];
      RenderLinesMentionsEveryKey(init, k);
      var i, j :| 0 <= i <= j <= |before| && before[i..j] == lines[k].keyCombination;
      assert text[i..j] == before[i..j];
    }
  }

  /** Every listed key combination appears in the text of a ranked report. */
  lemma RenderMentionsEveryKey(report: AppStatistics, k: nat)
    requires report.Ranked? && k < |report.lines|
    ensures Contains(Render(report), report.lines[k].keyCombination)
  {
    var text := RenderLines(report.lines);
    var whole := Render(report);
    assert whole == text + RenderTotals(report.totalCombinations, report.totalPresses);
    RenderLinesMentionsEveryKey(report.lines, k);
    var i, j :| 0 <= i <= j <= |text| && text[i..j] == report.lines[k].keyCombination;
    assert whole[i..j] == text[i..j];
  }

  /**
   * The row loop of `getAppStatistics`: each selected row becomes a line
   * with the next rank, and its count is added to the total.
   */
  method NumberLines(selected: seq<Entry>) returns (lines: seq<RankedLine>, totalPresses: nat)
    ensures NumberedLines(lines, selected)
    ensures totalPresses == CountSum(selected)
  {
    var rank := 1;
    totalPresses := 0;
    lines := [];
    for i := 0 to |selected|
      invariant rank == i + 1
      invariant NumberedLines(lines, selected[..i])
      invariant totalPresses == CountSum(selected[..i])
    {
      var (keys, pressCount) := selected[i];
      assert selected[..i + 1] == selected[..i] + [selected[i]];
      NumberedLinesSnoc(lines, selected[..i], selected[i]);
      totalPresses := totalPresses + pressCount;
      lines := lines + [RankedLine(rank, keys, pressCount)];
      rank := rank + 1;
    }
    assert selected[..|selected|] == selected;
  }

  class Database {
    /** Whether the handle is open (`db != nullptr`). */
    var initialized: bool
    /** The table: one count per (app_name, key_combination). */
    var rows: map<Pair, nat>

    /** Every stored count is at least 1; without a handle there is no table. */
    ghost predicate Valid()
      reads this
    {
      AllPositive(rows) && (!initialized ==> rows == map[])
    }

    constructor()
      ensures Valid()
      ensures !initialized && rows == map[]
    {
      initialized := false;
      rows := map[];
    }

    /**
     * `initialize`: `openSucceeded` says whether opening the file and creating the
     * table succeeded; `stored` is the table the file holds, which is the
     * current table when the store is already open.
     */
    method Initialize(openSucceeded: bool, stored: map<Pair, nat>) returns (ok: bool)
      requires Valid()
      requires AllPositive(stored)
      requires initialized ==> stored == rows
      modifies this
      ensures Valid()
      ensures ok == openSucceeded
      ensures openSucceeded ==> initialized && rows == stored
      ensures !openSucceeded ==> initialized == old(initialized) && rows == old(rows)
    {
      if !openSucceeded {
        return false;
      }
      initialized := true;
      rows := stored;
      return true;
    }

    /** `db != nullptr`; a store without a handle has no rows. */
    function IsConnected(): (b: bool)
      reads this
      ensures Valid() && !b ==> rows == map[]
    {
      initialized
    }

    /**
     * The upsert: the pair's count goes up by one, or starts at 1; no other
     * row changes. Without a handle nothing happens.
     */
    method UpdateKeyStatistics(app: string, keys: string)
      requires Valid()
      modifies this
      ensures Valid() && initialized == old(initialized)
      ensures old(initialized) ==> rows == Increment(old(rows), (app, keys))
      ensures !old(initialized) ==> rows == old(rows)
    {
      if !initialized {
        return;
      }
      var p := (app, keys);
      rows := rows[p := if p in rows then rows[p] + 1 else 1];
    }

    /**
     * The ranked rows of `app`: `SELECT … WHERE app_name = ? ORDER BY
     * press_count DESC LIMIT ?`, walked row by row, counting ranks and
     * adding up the listed counts.
     */
    method GetAppStatistics(app: string, limit: int := -1) returns (report: AppStatistics)
      ensures !initialized ==> report == NotInitialized
      ensures initialized ==> ReportsRanking(report, app, KeyCountsOf(rows, app), limit)
    {
      if !initialized {
        return NotInitialized;
      }
      var counts := KeyCountsOf(rows, app);
      var selected := TopN(counts, RowBound(limit, |counts|));
      var lines, totalPresses := NumberLines(selected);
      if selected == [] {
        report := NoKeyPresses(app);
      } else {
        report := Ranked(lines, |lines|, totalPresses);
      }
      NumberedLinesReportRanking(report, app, counts, limit, selected);
    }

    /** `SELECT DISTINCT app_name … ORDER BY app_name`: each name once, ascending. */
    method GetAllApps() returns (apps: seq<string>)
      ensures !initialized ==> apps == []
      ensures initialized ==> StrictlyAscending(apps)
      ensures initialized ==> forall a :: a in apps <==> a in AppNamesOf(rows)
    {
      apps := [];
      if !initialized {
        return;
      }
      var remaining := AppNamesOf(rows);
      while remaining != {}
        invariant remaining <= AppNamesOf(rows)
        invariant forall a :: a in apps <==> a in AppNamesOf(rows) && a !in remaining
        invariant StrictlyAscending(apps)
        invariant forall i, r :: 0 <= i < |apps| && r in remaining ==> Less(apps[i], r)
        decreases |remaining|
      {
        LeastExists(remaining);
        var next :| IsLeast(next, remaining);
        apps := apps + [next];
        remaining := remaining - {next};
      }
    }

    /** `SELECT SUM(press_count)`: the sum of all counts, -1 without a handle. */
    method GetTotalKeyPresses() returns (total: int)
      ensures !initialized ==> total == -1
      ensures initialized ==> total == MapSum(rows)
    {
      if !initialized {
        return -1;
      }
      total := SumValues(rows);
    }

    /** The sum of the counts of `app`'s rows (0 when it has none), -1 without a handle. */
    method GetAppKeyPressCount(app: string) returns (total: int)
      ensures !initialized ==> total == -1
      ensures initialized ==> total == MapSum(KeyCountsOf(rows, app))
    {
      if !initialized {
        return -1;
      }
      total := SumValues(KeyCountsOf(rows, app));
    }

    /** `DELETE FROM key_statistics`: every row goes; false without a handle. */
    method ClearStatistics() returns (ok: bool)
      requires Valid()
      modifies this
      ensures Valid() && initialized == old(initialized)
      ensures ok == old(initialized)
      ensures ok ==> rows == map[]
      ensures !ok ==> rows == old(rows)
    {
      if !initialized {
        return false;
      }
      rows := map[];
      return true;
    }
  }

  /**
   * With no row limit, a report lists every key combination of the
   * application and its total is the application's total count.
   */
  lemma UnlimitedReportCoversApp(report: AppStatistics, app: string, counts: map<string, nat>, limit: int)
    requires limit < 0
    requires ReportsRanking(report, app, counts, limit)
    ensures report.Ranked? ==> report.totalCombinations == |counts|
    ensures report.Ranked? ==> report.totalPresses == MapSum(counts)
    ensures report.NoKeyPresses? ==> counts == map[]
  {
    if report.Ranked? {
      UnlimitedRankingSum(EntriesOfLines(report.lines), counts, |counts|);
    }
  }
}
