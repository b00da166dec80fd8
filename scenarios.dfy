/**
 * Client scenarios: the repository's database tests, and two end-to-end
 * runs of the engine and the store, as callers that see only the
 * contracts of the classes.
 */
module Scenarios {
  import opened Counting
  import opened Ranking
  import opened StringOrder
  import opened Presses
  import opened Statistics
  import opened Storage

  /** A fresh store opened on an empty table. */
  method OpenEmptyStore() returns (db: Database)
    ensures fresh(db) && db.Valid()
    ensures db.initialized && db.rows == map[]
  {
    db := new Database();
    var ok := db.Initialize(true, map[]);
  }

  /** One upsert of ("testApp", "Ctrl+S"): the report is not empty and names the key. */
  method UpdateAndGetKeyStatistics() returns (stats: string)
    ensures stats != ""
    ensures Contains(stats, "Ctrl+S")
  {
    var db := OpenEmptyStore();
    db.UpdateKeyStatistics("testApp", "Ctrl+S");
    assert db.rows == map[("testApp", "Ctrl+S") := 1];
    var report := db.GetAppStatistics("testApp");
    var counts := KeyCountsOf(db.rows, "testApp");
    assert counts.Keys == {"Ctrl+S"};
    assert |counts| == 1;
    assert report.Ranked? && |report.lines| == 1;
    assert EntriesOfLines(report.lines)[0].0 in counts;
    assert report.lines[0].keyCombination == "Ctrl+S";
    RenderMentionsEveryKey(report, 0);
    stats := Render(report);
  }

  /** Upsert, clear, query: the clear succeeds and the report is the "no key presses" one. */
  method ClearedReport() returns (cleared: bool, report: AppStatistics)
    ensures cleared
    ensures report == NoKeyPresses("testApp")
  {
    var db := OpenEmptyStore();
    db.UpdateKeyStatistics("testApp", "Ctrl+C");
    cleared := db.ClearStatistics();
    report := db.GetAppStatistics("testApp");
    assert |KeyCountsOf(db.rows, "testApp")| == 0;
  }

  /**
   * The same run rendered: the text is the "no key presses" message, which
   * is neither "" nor "No statistics available".
   */
  method ClearStatistics() returns (cleared: bool, stats: string)
    ensures cleared
    ensures stats == "No key presses recorded for testApp yet.\n"
    ensures stats != "" && stats != "No statistics available"
  {
    var report;
    cleared, report := ClearedReport();
    stats := Render(report);
  }

  /** Two applications, one upsert each: both are listed, in ascending order. */
  method GetAllApps() returns (apps: seq<string>)
    ensures apps == ["app1", "app2"]
  {
    var db := OpenEmptyStore();
    db.UpdateKeyStatistics("app1", "Ctrl+A");
    db.UpdateKeyStatistics("app2", "Ctrl+B");
    apps := db.GetAllApps();
    assert AppNamesOf(db.rows) == {"app1", "app2"};
    assert Less("app1", "app2");
    AscendingListingIsUnique(apps, ["app1", "app2"]);
  }

  /** A repeated upsert adds no second listing of the application. */
  method AppListedOnce() returns (apps: seq<string>)
    ensures apps == ["app1", "app2"]
  {
    var db := OpenEmptyStore();
    db.UpdateKeyStatistics("app1", "Ctrl+A");
    db.UpdateKeyStatistics("app2", "Ctrl+B");
    db.UpdateKeyStatistics("app1", "Ctrl+A");
    apps := db.GetAllApps();
    assert ("app1", "Ctrl+A") in db.rows && ("app2", "Ctrl+B") in db.rows;
    assert AppNamesOf(db.rows) == {"app1", "app2"};
    var expected := ["app1", "app2"];
    assert Less("app1", "app2");
    assert StrictlyAscending(expected);
    AscendingListingIsUnique(apps, expected);
  }

  /** Three Ctrl+S and one Ctrl+C in Notepad leave two rows with counts 3 and 1. */
  method NotepadStore() returns (db: Database)
    ensures fresh(db) && db.Valid() && db.initialized
    ensures db.rows == map[("Notepad", "Ctrl+S") := 3, ("Notepad", "Ctrl+C") := 1]
  {
    db := OpenEmptyStore();
    db.UpdateKeyStatistics("Notepad", "Ctrl+S");
    db.UpdateKeyStatistics("Notepad", "Ctrl+S");
    db.UpdateKeyStatistics("Notepad", "Ctrl+C");
    db.UpdateKeyStatistics("Notepad", "Ctrl+S");
  }

  /** The Notepad rows, read back per key combination. */
  lemma NotepadCounts(rows: map<Pair, nat>)
    requires rows == map[("Notepad", "Ctrl+S") := 3, ("Notepad", "Ctrl+C") := 1]
    ensures KeyCountsOf(rows, "Notepad") == map["Ctrl+S" := 3, "Ctrl+C" := 1]
  {
    var m := KeyCountsOf(rows, "Notepad");
    assert ("Notepad", "Ctrl+S") in rows && ("Notepad", "Ctrl+C") in rows;
    assert m.Keys == {"Ctrl+S", "Ctrl+C"};
  }

  /** Two keys with different counts have just one full ranking: the larger first. */
  lemma TwoEntryRanking(e: seq<Entry>, counts: map<string, nat>, a: string, b: string)
    requires a != b && counts == map[a := 3, b := 1]
    requires IsTopN(e, counts, 2)
    ensures e == [(a, 3), (b, 1)]
  {
    assert |counts| == 2 by {
      assert counts.Keys == {a, b};
    }
    assert e[0].0 in counts && e[1].0 in counts && e[0].0 != e[1].0;
    assert e[0].1 >= e[1].1;
  }

  /** The unbounded report for those counts: ranks 1 and 2, two combinations, four presses. */
  lemma TwoKeyReport(report: AppStatistics, app: string, counts: map<string, nat>, a: string, b: string)
    requires a != b && counts == map[a := 3, b := 1]
    requires ReportsRanking(report, app, counts, -1)
    ensures report == Ranked([RankedLine(1, a, 3), RankedLine(2, b, 1)], 2, 4)
  {
    assert |counts| == 2 by {
      assert counts.Keys == {a, b};
    }
    var e := EntriesOfLines(report.lines);
    TwoEntryRanking(e, counts, a, b);
    var none: seq<Entry> := [];
    assert e[..1][..0] == none && e[..1] == [(a, 3)];
    assert CountSum(e[..1]) == 3;
    assert CountSum(e) == CountSum(e[..1]) + 1;
  }

  /** Three Ctrl+S and one Ctrl+C in Notepad: Ctrl+S ranks first; 2 combinations, 4 presses. */
  method NotepadRanking() returns (report: AppStatistics)
    ensures report == Ranked([RankedLine(1, "Ctrl+S", 3), RankedLine(2, "Ctrl+C", 1)], 2, 4)
  {
    var db := NotepadStore();
    report := db.GetAppStatistics("Notepad");
    NotepadCounts(db.rows);
    TwoKeyReport(report, "Notepad", KeyCountsOf(db.rows, "Notepad"), "Ctrl+S", "Ctrl+C");
  }

  /** A history bounded at 2 keeps, after three presses, the newest two in order. */
  method BoundedHistory() returns (recent: seq<KeyPress>, range: (Millis, Millis))
    ensures recent == [KeyPress("Code", "Ctrl+C", 20), KeyPress("Code", "Ctrl+V", 30)]
    ensures range == (20, 30)
  {
    var stats := new KeyStatistics(2);
    stats.AddKeyPress(KeyPress("Notepad", "Ctrl+S", 10));
    stats.AddKeyPress(KeyPress("Code", "Ctrl+C", 20));
    stats.AddKeyPress(KeyPress("Code", "Ctrl+V", 30));
    recent := stats.GetRecentPresses();
    range := stats.GetTimeRange();
  }
}
