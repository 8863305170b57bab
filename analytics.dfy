/** The `Analytics` cog (cogs/analytics.py): the capacity history kept in
    `data/history.csv`, rotated once a month when the cog is constructed and
    appended to once per monitoring cycle. The filesystem is a map from path to
    the file's lines (each written with a trailing newline) and the date it was
    last modified. */
module AnalyticsCog {
  import opened Text

  const HistoryFile: string := "data/history.csv"
  const Header: string := "Timestamp,Idle,Mixed,Alloc,Down"

  type Month = m: nat | 1 <= m <= 12 witness 1

  /** The part of a `datetime` the rotation looks at. */
  datatype Date = Date(year: nat, month: Month)

  datatype FileRec = FileRec(lines: seq<string>, modified: Date)

  type Files = map<string, FileRec>

  /** The four node counts one history row records. */
  datatype Counts = Counts(idle: nat, mixed: nat, alloc: nat, down: nat)

  /** `strftime('%m')`: the month with two digits, which read back as the month. */
  function Pad2(m: Month): (r: string)
    ensures |r| == 2 && IsDigits(r)
    ensures (r[0] as int - '0' as int) * 10 + (r[1] as int - '0' as int) == m
  {
    [DigitChar(m / 10), DigitChar(m % 10)]
  }

  lemma Pad2Injective(m: Month, n: Month)
    requires Pad2(m) == Pad2(n)
    ensures m == n
  {
    assert Pad2(m)[0] == Pad2(n)[0] && Pad2(m)[1] == Pad2(n)[1];
  }

  /** `f"data/history_{file_date.strftime('%Y_%m')}.csv"`; `%Y` prints the year
      without padding, as the C library on Linux does. */
  function ArchiveName(d: Date): (r: string)
    ensures r != HistoryFile
    ensures StartsWith(r, "data/history_")
  {
    var r := "data/history_" + NatToString(d.year) + "_" + Pad2(d.month) + ".csv";
    assert |r| > |HistoryFile|;
    assert r[..13] == "data/history_";
    r
  }

  /** Different months, or the same month of different years, archive to different files. */
  lemma ArchiveNameInjective(d: Date, e: Date)
    requires ArchiveName(d) == ArchiveName(e)
    ensures d == e
  {
    var a := ArchiveName(d);
    var y := NatToString(d.year);
    var z := NatToString(e.year);
    assert |y| == |z| by {
      assert |a| == 13 + |y| + 1 + 2 + 4;
      assert |ArchiveName(e)| == 13 + |z| + 1 + 2 + 4;
    }
    assert a[13..13 + |y|] == y;
    assert ArchiveName(e)[13..13 + |z|] == z;
    assert a[14 + |y|..16 + |y|] == Pad2(d.month);
    assert ArchiveName(e)[14 + |z|..16 + |z|] == Pad2(e.month);
    NatToStringInjective(d.year, e.year);
    Pad2Injective(d.month, e.month);
  }

  /** `ensure_history_file`: create the file with its header when it is missing;
      when it was last modified in another month (the year is not compared),
      rename it to its archive name, overwriting any file there, and start a new
      one holding only the header. */
  function EnsureHistory(fs: Files, now: Date): Files {
    if HistoryFile !in fs then fs[HistoryFile := FileRec([Header], now)]
    else if fs[HistoryFile].modified.month == now.month then fs
    else
      var f := fs[HistoryFile];
      (fs - {HistoryFile})[ArchiveName(f.modified) := f][HistoryFile := FileRec([Header], now)]
  }

  /** After the check the history file exists and was last written in the current
      month; either it is the untouched file from before or it holds just the
      header. Every other file is kept, except the one the archive overwrites. */
  lemma EnsureHistorySpec(fs: Files, now: Date)
    ensures var r := EnsureHistory(fs, now);
      && HistoryFile in r
      && r[HistoryFile].modified.month == now.month
      && ((HistoryFile in fs && r[HistoryFile] == fs[HistoryFile]) || r[HistoryFile].lines == [Header])
      && (HistoryFile in fs ==> r[HistoryFile] == fs[HistoryFile] || r[ArchiveName(fs[HistoryFile].modified)] == fs[HistoryFile])
      && forall p :: p in fs && p != HistoryFile && !(HistoryFile in fs && p == ArchiveName(fs[HistoryFile].modified)) ==>
           p in r && r[p] == fs[p]
  {
  }

  /** The rows of the old file are kept exactly when its month is the current one,
      even if it was written in another year. */
  lemma EnsureHistoryKeepsSameMonth(fs: Files, now: Date)
    requires HistoryFile in fs
    ensures EnsureHistory(fs, now)[HistoryFile] == fs[HistoryFile] <==> fs[HistoryFile].modified.month == now.month
  {
    var f := fs[HistoryFile];
    if f.modified.month != now.month {
      assert EnsureHistory(fs, now)[HistoryFile].modified != f.modified;
    }
  }

  /** Checking twice in the same month is checking once. */
  lemma EnsureHistoryIdempotent(fs: Files, now: Date)
    ensures EnsureHistory(EnsureHistory(fs, now), now) == EnsureHistory(fs, now)
  {
  }

  /** The history row `f"{now_ts},{idle},{mixed},{alloc},{down}"`. */
  function Row(ts: string, c: Counts): string {
    JoinWith([ts, NatToString(c.idle), NatToString(c.mixed), NatToString(c.alloc), NatToString(c.down)], ',')
  }

  /** A row splits on commas into the header's five columns, and the last four read
      back as the counts. */
  lemma RowRoundTrip(ts: string, c: Counts)
    requires ',' !in ts
    ensures |SplitOn(Row(ts, c), ',')| == |SplitOn(Header, ',')| == 5
    ensures var cols := SplitOn(Row(ts, c), ',');
      && cols[0] == ts
      && ParseInt(cols[1]) == Some(c.idle as int) && ParseInt(cols[2]) == Some(c.mixed as int)
      && ParseInt(cols[3]) == Some(c.alloc as int) && ParseInt(cols[4]) == Some(c.down as int)
  {
    RowColumns(ts, c);
    HeaderColumns();
    ParseNatToString(c.idle);
    ParseNatToString(c.mixed);
    ParseNatToString(c.alloc);
    ParseNatToString(c.down);
  }

  lemma RowColumns(ts: string, c: Counts)
    requires ',' !in ts
    ensures SplitOn(Row(ts, c), ',') == [ts, NatToString(c.idle), NatToString(c.mixed), NatToString(c.alloc), NatToString(c.down)]
  {
    var parts := [ts, NatToString(c.idle), NatToString(c.mixed), NatToString(c.alloc), NatToString(c.down)];
    forall i | 1 <= i < 5
      ensures ',' !in parts[i]
    {
      assert IsDigits(parts[i]);
    }
    JoinWithSplit(parts, ',');
  }

  lemma HeaderColumns()
    ensures |SplitOn(Header, ',')| == 5
  {
    var hs := ["Timestamp", "Idle", "Mixed", "Alloc", "Down"];
    assert Header == JoinWith(hs, ',');
    JoinWithSplit(hs, ',');
  }

  /** `open(HISTORY_FILE, 'a').write(row + "\n")`: a missing file is created
      holding just the row. */
  function AppendRow(fs: Files, now: Date, row: string): Files {
    var prior := if HistoryFile in fs then fs[HistoryFile].lines else [];
    fs[HistoryFile := FileRec(prior + [row], now)]
  }

  /** An append adds exactly one line at the end of the history, changes no other
      file, and so never rotates or touches an archive. */
  lemma AppendRowSpec(fs: Files, now: Date, row: string)
    ensures var r := AppendRow(fs, now, row);
      && HistoryFile in r
      && |r[HistoryFile].lines| == (if HistoryFile in fs then |fs[HistoryFile].lines| else 0) + 1
      && r[HistoryFile].lines[|r[HistoryFile].lines| - 1] == row
      && (HistoryFile in fs ==> r[HistoryFile].lines[..|fs[HistoryFile].lines|] == fs[HistoryFile].lines)
      && forall p :: p != HistoryFile ==> (p in r <==> p in fs) && (p in fs ==> r[p] == fs[p])
  {
    var r := AppendRow(fs, now, row);
    if HistoryFile in fs {
      assert r[HistoryFile].lines[..|fs[HistoryFile].lines|] == fs[HistoryFile].lines;
    }
  }

  /** The filesystem the bot runs on. */
  class Disk {
    var files: Files

    constructor(files: Files)
      ensures this.files == files
    {
      this.files := files;
    }
  }

  /** The cog: it keeps no state of its own besides the filesystem it writes to. */
  class Analytics {
    const disk: Disk

    /** `__init__` runs `ensure_history_file` once, on the current date `now`. */
    constructor(disk: Disk, now: Date)
      modifies disk
      ensures this.disk == disk
      ensures disk.files == EnsureHistory(old(disk.files), now)
    {
      this.disk := disk;
      new;
      if HistoryFile !in disk.files {
        disk.files := disk.files[HistoryFile := FileRec([Header], now)];
      } else {
        var fileDate := disk.files[HistoryFile].modified;
        if fileDate.month != now.month {
          var archive := ArchiveName(fileDate);
          var f := disk.files[HistoryFile];
          disk.files := (disk.files - {HistoryFile})[archive := f];
          disk.files := disk.files[HistoryFile := FileRec([Header], now)];
        }
      }
    }

    /** `log_status`: append the row for timestamp `ts` on date `now`. When the
        file cannot be opened (`writable` is false) the error is logged and
        swallowed, and nothing changes. */
    method LogStatus(now: Date, ts: string, c: Counts, writable: bool)
      modifies disk
      ensures writable ==> disk.files == AppendRow(old(disk.files), now, Row(ts, c))
      ensures !writable ==> disk.files == old(disk.files)
    {
      if !writable {
        return;
      }
      var prior := if HistoryFile in disk.files then disk.files[HistoryFile].lines else [];
      disk.files := disk.files[HistoryFile := FileRec(prior + [Row(ts, c)], now)];
    }
  }
}
