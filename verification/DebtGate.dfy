/**
 The shrink-only gate of the debt ratchet: the baseline file format, the comparison of
 findings with a baseline, and the gate and refresh modes over the stored baselines.
 */
module DebtGate {
  import opened Prelude
  import opened Text

  type Counts = map<string, nat>

  /** A file without an entry has the floor zero. */
  function At(m: Counts, path: string): nat {
    if path in m then m[path] else 0
  }

  ghost predicate Below(m: Counts, n: Counts) {
    forall path :: At(m, path) <= At(n, path)
  }

  // ----- the baseline file -----

  datatype Row = Row(path: string, count: nat)

  function DigitRun(s: string): (n: nat)
    ensures n <= |s| && AllDigits(s[..n])
    ensures n < |s| ==> !IsDigit(s[n])
  {
    if s == "" || !IsDigit(s[0]) then 0
    else
      var n := 1 + DigitRun(s[1..]);
      assert s[1..][..n - 1] == s[1..n];
      n
  }

  /** The row form: digits, space, equals, space, and a nonempty rest. */
  function ParseRow(line: string): (r: Option<Row>)
    ensures r.Some? ==> r.value.path != "" && |r.value.path| < |line| && EndsWith(line, r.value.path)
  {
    var n := DigitRun(line);
    if n > 0 && n + 3 < |line| && line[n..n + 3] == " = "
    then Some(Row(line[n + 3..], Value(line[..n])))
    else None
  }

  function ParseLines(lines: seq<string>, entries: Counts): (r: Option<Counts>)
    decreases |lines|
  {
    if lines == [] then Some(entries)
    else if Strip(lines[0]) == "" then ParseLines(lines[1..], entries)
    else
      match ParseRow(lines[0])
      case None => None
      case Some(row) =>
        if row.path in entries then None
        else ParseLines(lines[1..], entries[row.path := row.count])
  }

  function ParseBaseline(text: string): Option<Counts> {
    ParseLines(SplitLines(text), map[])
  }

  method ReadBaseline(text: string) returns (r: Option<Counts>)
    ensures r == ParseBaseline(text)
  {
    var entries: Counts := map[];
    var lines := SplitLines(text);
    assert lines[0..] == lines;
    for k := 0 to |lines|
      invariant ParseLines(lines[k..], entries) == ParseBaseline(text)
    {
      assert lines[k..][1..] == lines[k + 1..];
      if Strip(lines[k]) != "" {
        var row := ParseRow(lines[k]);
        if row.None? || row.value.path in entries {
          return None;
        }
        entries := entries[row.value.path := row.value.count];
      }
    }
    return Some(entries);
  }

  function RowText(row: Row): string {
    Numeral(row.count) + " = " + row.path
  }

  function RenderRows(rows: seq<Row>): string {
    if rows == [] then "" else RowText(rows[0]) + "\n" + RenderRows(rows[1..])
  }

  function RowMap(rows: seq<Row>): (m: Counts)
    ensures m.Keys == set k | 0 <= k < |rows| :: rows[k].path
  {
    if rows == [] then map[]
    else
      var m := RowMap(rows[..|rows| - 1]);
      m[rows[|rows| - 1].path := rows[|rows| - 1].count]
  }

  predicate DistinctPaths(rows: seq<Row>) {
    forall i, j :: 0 <= i < j < |rows| ==> rows[i].path != rows[j].path
  }

  predicate PlainPath(path: string) {
    path != "" && OneLine(path)
  }

  lemma {:induction false} DigitRunOf(d: string, rest: string)
    requires AllDigits(d) && (rest != "" ==> !IsDigit(rest[0]))
    ensures DigitRun(d + rest) == |d|
  {
    if d == "" {
      assert d + rest == rest;
    } else {
      assert (d + rest)[0] == d[0] && (d + rest)[1..] == d[1..] + rest;
      DigitRunOf(d[1..], rest);
    }
  }

  /** A printed row reads back as itself, also when its path contains the separator. */
  lemma RowRoundTrip(row: Row)
    requires row.path != ""
    ensures ParseRow(RowText(row)) == Some(row) && Strip(RowText(row)) != ""
  {
    var d := Numeral(row.count);
    var rest := " = " + row.path;
    assert RowText(row) == d + rest;
    assert rest[0] == ' ';
    DigitRunOf(d, rest);
    var t := d + rest;
    assert t[..|d|] == d && t[|d|..|d| + 3] == " = " && t[|d| + 3..] == row.path;
    NumeralRoundTrip(row.count);
    StripVisible(t);
  }

  lemma StripVisible(s: string)
    requires s != "" && IsDigit(s[0])
    ensures Strip(s) != ""
  {
    assert !IsSpace(s[0]);
    assert SpaceRun(s, 0) == 0;
    StripRightVisible(s);
  }

  lemma {:induction false} StripRightVisible(s: string)
    requires s != "" && !IsSpace(s[0])
    ensures StripRight(s) != ""
  {
    if |s| > 1 && IsSpace(s[|s| - 1]) { StripRightVisible(s[..|s| - 1]); }
  }

  lemma NumeralIsOneLine(n: nat)
    ensures OneLine(Numeral(n))
  {
    forall k | 0 <= k < |Numeral(n)| ensures !IsBreak(Numeral(n)[k]) { assert IsDigit(Numeral(n)[k]); }
  }

  lemma RowIsOneLine(row: Row)
    requires OneLine(row.path)
    ensures OneLine(RowText(row))
  {
    NumeralIsOneLine(row.count);
    var d := Numeral(row.count);
    assert OneLine(" = ");
    assert forall k :: 0 <= k < |RowText(row)| ==>
      RowText(row)[k] == if k < |d| then d[k] else if k < |d| + 3 then " = "[k - |d|] else row.path[k - |d| - 3];
  }

  lemma ParseStep(line: string, lines: seq<string>, entries: Counts)
    ensures ParseLines([line] + lines, entries) ==
      if Strip(line) == "" then ParseLines(lines, entries)
      else match ParseRow(line)
        case None => None
        case Some(row) =>
          if row.path in entries then None else ParseLines(lines, entries[row.path := row.count])
  {
    assert ([line] + lines)[1..] == lines;
  }

  lemma RowMapAppend(done: seq<Row>, row: Row)
    ensures RowMap(done + [row]) == RowMap(done)[row.path := row.count]
  {
    assert (done + [row])[..|done|] == done;
  }

  lemma {:induction false} ParseRendered(done: seq<Row>, rows: seq<Row>)
    requires DistinctPaths(done + rows) && forall k :: 0 <= k < |rows| ==> PlainPath(rows[k].path)
    ensures ParseLines(SplitLines(RenderRows(rows)), RowMap(done)) == Some(RowMap(done + rows))
    decreases |rows|
  {
    hide ParseLines, RowMap, ParseRow, RowText, SplitLines, Strip;
    if rows == [] {
      assert done + rows == done;
      NoLines(RowMap(done));
    } else {
      var row := rows[0];
      var rest := RenderRows(rows[1..]);
      RowIsOneLine(row);
      RowRoundTrip(row);
      SplitFirstLine(RowText(row), rest);
      ParseStep(RowText(row), SplitLines(rest), RowMap(done));
      RowMapAppend(done, row);
      assert row.path !in RowMap(done) by {
        forall k | 0 <= k < |done| ensures done[k].path != row.path {
          assert (done + rows)[k] == done[k] && (done + rows)[|done|] == row;
        }
      }
      assert done + [row] + rows[1..] == done + rows;
      ParseRendered(done + [row], rows[1..]);
    }
  }

  lemma NoLines(entries: Counts)
    ensures ParseLines(SplitLines(""), entries) == Some(entries)
  {
  }

  lemma {:induction false} ParsedPathsArePlain(lines: seq<string>, entries: Counts)
    requires forall k :: 0 <= k < |lines| ==> OneLine(lines[k])
    requires forall path :: path in entries ==> PlainPath(path)
    ensures ParseLines(lines, entries).Some? ==>
      forall path :: path in ParseLines(lines, entries).value ==> PlainPath(path)
    decreases |lines|
  {
    if lines != [] {
      if Strip(lines[0]) == "" {
        ParsedPathsArePlain(lines[1..], entries);
      } else {
        var row := ParseRow(lines[0]);
        if row.Some? && row.value.path !in entries {
          assert OneLine(lines[0]);
          ParsedPathsArePlain(lines[1..], entries[row.value.path := row.value.count]);
        }
      }
    }
  }

  /** A printed baseline reads back as its rows exactly when every path is a nonempty single line. */
  lemma BaselineRoundTrip(rows: seq<Row>)
    requires DistinctPaths(rows)
    ensures ParseBaseline(RenderRows(rows)) == Some(RowMap(rows))
       <==> forall k :: 0 <= k < |rows| ==> PlainPath(rows[k].path)
  {
    hide ParseLines, RenderRows, SplitLines;
    if forall k :: 0 <= k < |rows| ==> PlainPath(rows[k].path) {
      assert [] + rows == rows;
      ParseRendered([], rows);
    }
    if ParseBaseline(RenderRows(rows)) == Some(RowMap(rows)) {
      ParsedPathsArePlain(SplitLines(RenderRows(rows)), map[]);
      forall k | 0 <= k < |rows| ensures PlainPath(rows[k].path) {
        assert rows[k].path in RowMap(rows);
      }
    }
  }

  lemma {:induction false} RepeatedPathRejected(lines: seq<string>, entries: Counts, k: nat)
    requires k < |lines| && Strip(lines[k]) != "" && ParseRow(lines[k]).Some?
    requires ParseRow(lines[k]).value.path in entries
    ensures ParseLines(lines, entries) == None
    decreases k
  {
    hide Strip, ParseRow;
    if k > 0 {
      if Strip(lines[0]) == "" {
        RepeatedPathRejected(lines[1..], entries, k - 1);
      } else if ParseRow(lines[0]).Some? && ParseRow(lines[0]).value.path !in entries {
        var row := ParseRow(lines[0]).value;
        RepeatedPathRejected(lines[1..], entries[row.path := row.count], k - 1);
      }
    }
  }

  /** Two rows for one path make the whole baseline invalid. */
  lemma {:induction false} DuplicateRowsRejected(lines: seq<string>, entries: Counts, i: nat, j: nat)
    requires i < j < |lines| && Strip(lines[i]) != "" && Strip(lines[j]) != ""
    requires ParseRow(lines[i]).Some? && ParseRow(lines[j]).Some?
    requires ParseRow(lines[i]).value.path == ParseRow(lines[j]).value.path
    ensures ParseLines(lines, entries) == None
    decreases i
  {
    hide Strip, ParseRow;
    assert lines == [lines[0]] + lines[1..];
    if Strip(lines[0]) == "" {
      DuplicateRowsRejected(lines[1..], entries, i - 1, j - 1);
    } else if ParseRow(lines[0]).Some? && ParseRow(lines[0]).value.path !in entries {
      var row := ParseRow(lines[0]).value;
      if i == 0 {
        RepeatedPathRejected(lines[1..], entries[row.path := row.count], j - 1);
      } else {
        DuplicateRowsRejected(lines[1..], entries[row.path := row.count], i - 1, j - 1);
      }
    }
  }

  // ----- exactly what a baseline file says -----

  /** The line is a row: a count, perhaps with leading zeros, the separator, and a path. */
  ghost predicate RowLine(line: string, row: Row) {
    row.path != "" && exists k: nat :: line == Zeros(k) + Numeral(row.count) + " = " + row.path
  }

  lemma RowOf(d: string, row: Row)
    requires Unsigned(d) == Some(row.count) && row.path != ""
    ensures ParseRow(d + " = " + row.path) == Some(row)
  {
    hide DigitRun, Value;
    var rest := " = " + row.path;
    var line := d + " = " + row.path;
    assert line == d + rest && rest[0] == ' ';
    DigitRunOf(d, rest);
    assert line[..|d|] == d && line[|d|..|d| + 3] == " = " && line[|d| + 3..] == row.path;
  }

  lemma RowParts(line: string) returns (d: string)
    requires ParseRow(line).Some?
    ensures Unsigned(d) == Some(ParseRow(line).value.count) && line == d + " = " + ParseRow(line).value.path
  {
    hide DigitRun, Value;
    var n := DigitRun(line);
    d := line[..n];
    assert line == d + line[n..n + 3] + line[n + 3..];
  }

  lemma RowExact(line: string, row: Row)
    ensures ParseRow(line) == Some(row) <==> RowLine(line, row)
  {
    hide Zeros, Numeral, ParseRow, Unsigned;
    if ParseRow(line) == Some(row) {
      var d := RowParts(line);
      UnsignedExact(d, row.count);
      var k: nat :| d == Zeros(k) + Numeral(row.count);
      assert line == Zeros(k) + Numeral(row.count) + " = " + row.path;
    }
    if RowLine(line, row) {
      var k: nat :| line == Zeros(k) + Numeral(row.count) + " = " + row.path;
      var d := Zeros(k) + Numeral(row.count);
      UnsignedExact(d, row.count);
      RowOf(d, row);
    }
  }

  ghost predicate Blank(line: string) {
    AllSpace(line)
  }

  lemma BlankIs(line: string)
    ensures Strip(line) == "" <==> Blank(line)
  {
    hide IsSpace;
    var l, r := StripParts(line);
    if Strip(line) == "" { assert line == l + r; }
    if Strip(line) != "" { assert line[|l|] == Strip(line)[0]; }
  }

  lemma RowNotBlank(line: string, row: Row)
    requires RowLine(line, row)
    ensures !Blank(line)
  {
    RowExact(line, row);
    var n := DigitRun(line);
    assert line[..n][0] == line[0] && IsDigit(line[0]) && !IsSpace(line[0]);
  }

  /** A line as the reader takes it. */
  ghost function RowEntry(line: string): Entry<string, nat> {
    if Strip(line) == "" then Noise
    else match ParseRow(line)
      case None => Bad
      case Some(row) => Field(row.path, row.count)
  }

  lemma RowEntryExact(line: string, path: string, n: nat)
    ensures RowEntry(line) == Field(path, n) <==> RowLine(line, Row(path, n))
    ensures RowEntry(line) == Noise <==> Blank(line)
  {
    hide ParseRow, RowLine, Blank, Strip;
    BlankIs(line);
    RowExact(line, Row(path, n));
    if RowLine(line, Row(path, n)) { RowNotBlank(line, Row(path, n)); }
  }

  lemma {:induction false} ParseGathers(lines: seq<string>, entries: Counts)
    ensures ParseLines(lines, entries) == Gather(lines, RowEntry, entries)
    decreases |lines|
  {
    hide Strip, ParseRow;
    if lines != [] {
      match RowEntry(lines[0]) {
        case Bad =>
        case Noise => ParseGathers(lines[1..], entries);
        case Field(path, n) => if path !in entries { ParseGathers(lines[1..], entries[path := n]); }
      }
    }
  }

  /** Every line is blank or a row, and no two rows have one path. */
  ghost predicate RowsOk(lines: seq<string>) {
    && (forall line :: line in lines ==> Blank(line) || exists row :: RowLine(line, row))
    && (forall j, k, a, b :: 0 <= j < k < |lines| && RowLine(lines[j], a) && RowLine(lines[k], b) ==> a.path != b.path)
  }

  ghost predicate HasRow(lines: seq<string>, path: string, n: nat) {
    exists line :: line in lines && RowLine(line, Row(path, n))
  }

  lemma RowsGather(lines: seq<string>)
    ensures Gatherable(lines, RowEntry, map[]) <==> RowsOk(lines)
  {
    hide RowEntry, RowLine, Blank;
    forall line, row: Row ensures RowEntry(line) == Field(row.path, row.count) <==> RowLine(line, row) {
      RowEntryExact(line, row.path, row.count);
    }
    forall line ensures RowEntry(line) == Noise <==> Blank(line) { RowEntryExact(line, "", 0); }
    forall line ensures RowEntry(line).Field? <==> exists row :: RowLine(line, row) {
      if RowEntry(line).Field? { assert RowLine(line, Row(RowEntry(line).key, RowEntry(line).value)); }
    }
    if Gatherable(lines, RowEntry, map[]) {
      forall line | line in lines ensures Blank(line) || exists row :: RowLine(line, row) {
        var k :| 0 <= k < |lines| && lines[k] == line;
      }
    }
    if RowsOk(lines) {
      forall j, k | 0 <= j < k < |lines| && RowEntry(lines[j]).Field? && RowEntry(lines[k]).Field?
        ensures RowEntry(lines[j]).key != RowEntry(lines[k]).key
      {
        assert RowLine(lines[j], Row(RowEntry(lines[j]).key, RowEntry(lines[j]).value));
        assert RowLine(lines[k], Row(RowEntry(lines[k]).key, RowEntry(lines[k]).value));
      }
    }
  }

  lemma RowSets(lines: seq<string>, path: string, n: nat)
    ensures Sets(lines, RowEntry, path, n) <==> HasRow(lines, path, n)
  {
    hide RowEntry, RowLine;
    if k :| 0 <= k < |lines| && RowEntry(lines[k]) == Field(path, n) { RowEntryExact(lines[k], path, n); }
    if line :| line in lines && RowLine(line, Row(path, n)) {
      RowEntryExact(line, path, n);
      var k :| 0 <= k < |lines| && lines[k] == line;
    }
  }

  /**
   A baseline is read exactly when every line is blank or a row and no path has two rows, and
   then as the rows and nothing else.
   */
  lemma BaselineExact(text: string, m: Counts)
    ensures ParseBaseline(text) == Some(m) <==>
      && RowsOk(SplitLines(text))
      && forall path, n: nat :: Maps(m, path, n) <==> HasRow(SplitLines(text), path, n)
  {
    hide ParseLines, SplitLines, RowEntry, RowsOk, HasRow, Sets, Gather, Gatherable, Maps;
    var lines := SplitLines(text);
    ParseGathers(lines, map[]);
    GatherExact(lines, RowEntry, map[]);
    RowsGather(lines);
    forall path, n: nat ensures Sets(lines, RowEntry, path, n) <==> HasRow(lines, path, n) { RowSets(lines, path, n); }
    forall path, n: nat ensures !Maps(map[], path, n) { Unmapped(path, n); }
    if RowsOk(lines) {
      var r := Gather(lines, RowEntry, map[]).value;
      if forall path, n: nat :: Maps(m, path, n) <==> HasRow(lines, path, n) { SameMap(m, r); }
    }
  }

  lemma Unmapped(path: string, n: nat)
    ensures !Maps(map[], path, n)
  {
  }

  // ----- findings against a baseline -----

  /** Findings above the baseline, and files without an entry that have findings at all. */
  function Regressions(counts: Counts, baseline: Counts): set<string> {
    set path | path in counts && (path !in baseline || counts[path] > baseline[path])
  }

  function Improvements(counts: Counts, baseline: Counts): set<string> {
    set path | path in baseline && At(counts, path) < baseline[path]
  }

  method Evaluate(counts: Counts, baseline: Counts) returns (regressions: set<string>, fixed: set<string>)
    ensures regressions == Regressions(counts, baseline) && fixed == Improvements(counts, baseline)
  {
    regressions, fixed := {}, {};
    var paths := counts.Keys;
    while paths != {}
      invariant paths <= counts.Keys
      invariant regressions == Regressions(counts, baseline) - paths
      decreases paths
    {
      var path :| path in paths;
      if path !in baseline || counts[path] > baseline[path] {
        regressions := regressions + {path};
      }
      paths := paths - {path};
    }
    paths := baseline.Keys;
    while paths != {}
      invariant paths <= baseline.Keys
      invariant fixed == Improvements(counts, baseline) - paths
      decreases paths
    {
      var path :| path in paths;
      if At(counts, path) < baseline[path] {
        fixed := fixed + {path};
      }
      paths := paths - {path};
    }
  }

  /** No regression means pointwise at most the baseline, an absent entry counting as zero. */
  lemma NoRegressions(counts: Counts, baseline: Counts)
    requires forall path :: path in counts ==> counts[path] > 0
    ensures Regressions(counts, baseline) == {} <==> Below(counts, baseline)
  {
    if Regressions(counts, baseline) == {} {
      forall path ensures At(counts, path) <= At(baseline, path) {
        assert path !in Regressions(counts, baseline);
      }
    }
    if Below(counts, baseline) {
      forall path | path in counts ensures path !in Regressions(counts, baseline) {
        assert At(counts, path) <= At(baseline, path);
      }
    }
  }

  // ----- one run of the gate -----

  /** What one ratchet of a commit shows: its findings and its baseline file, if there is one. */
  datatype Ratchet = Ratchet(counts: Counts, file: Option<string>)

  ghost predicate Positive(counts: Counts) {
    forall path :: path in counts ==> counts[path] > 0
  }

  function Stored(r: Ratchet): (b: Option<Counts>)
  {
    match r.file
    case None => Some(map[])
    case Some(text) => ParseBaseline(text)
  }

  datatype Outcome = Passed | Failed | Misconfigured

  /** The candidate rows that exceed an independent floor; explicit zero rows do not. */
  function Raised(baseline: Counts, floor: Counts): set<string> {
    set path | path in Regressions(baseline, floor) && baseline[path] != 0
  }

  /** A candidate with a readable baseline, at or below the floor in baseline and findings. */
  ghost predicate Admitted(r: Ratchet, floor: Counts) {
    && r.file.Some? && Stored(r).Some?
    && Below(Stored(r).value, floor) && Below(r.counts, floor) && Below(r.counts, Stored(r).value)
  }

  /** Findings within a readable baseline of their own. */
  ghost predicate PassesAlone(r: Ratchet) {
    Stored(r).Some? && Below(r.counts, Stored(r).value)
  }

  /** The gate for one ratchet against its own baseline and, if given, an independent floor. */
  method Gate(r: Ratchet, floor: Option<Counts>) returns (outcome: Outcome)
    requires Positive(r.counts)
    ensures outcome.Misconfigured? <==> Stored(r).None? || (floor.Some? && r.file.None?)
    ensures outcome.Passed? && floor.None? <==> floor.None? && PassesAlone(r)
    ensures outcome.Passed? && floor.Some? <==> floor.Some? && Admitted(r, floor.value)
  {
    if floor.Some? && r.file.None? { return Misconfigured; }
    var baseline: Counts := map[];
    if r.file.Some? {
      var parsed := ReadBaseline(r.file.value);
      if parsed.None? { return Misconfigured; }
      baseline := parsed.value;
    }
    var failures: set<string> := {};
    if floor.Some? {
      failures := Raised(baseline, floor.value);
      RaisedIsBelow(baseline, floor.value);
      var exceeding, _ := Evaluate(r.counts, floor.value);
      NoRegressions(r.counts, floor.value);
      failures := failures + exceeding;
    }
    var regressions, _ := Evaluate(r.counts, baseline);
    NoRegressions(r.counts, baseline);
    failures := failures + regressions;
    return if failures == {} then Passed else Failed;
  }

  /** What one ratchet has to meet, with and without an independent floor. */
  ghost predicate Meets(r: Ratchet, floor: Option<Counts>) {
    if floor.None? then PassesAlone(r) else Admitted(r, floor.value)
  }

  ghost predicate Unreadable(r: Ratchet, floor: Option<Counts>) {
    Stored(r).None? || (floor.Some? && r.file.None?)
  }

  /** The loop over the ratchets: an unreadable one stops it, and any failure fails the run. */
  method GateAll(rs: seq<Ratchet>, floors: Option<seq<Counts>>) returns (outcome: Outcome)
    requires forall k :: 0 <= k < |rs| ==> Positive(rs[k].counts)
    requires floors.Some? ==> |floors.value| == |rs|
    ensures outcome.Misconfigured? <==> exists k :: 0 <= k < |rs| && Unreadable(rs[k], FloorAt(floors, k))
    ensures outcome.Passed? <==> forall k :: 0 <= k < |rs| ==> Meets(rs[k], FloorAt(floors, k))
  {
    hide Stored, Below, Positive;
    var failed := false;
    for k := 0 to |rs|
      invariant failed <==> exists j :: 0 <= j < k && !Meets(rs[j], FloorAt(floors, j))
      invariant forall j :: 0 <= j < k ==> !Unreadable(rs[j], FloorAt(floors, j))
    {
      var one := Gate(rs[k], FloorAt(floors, k));
      if one.Misconfigured? { return Misconfigured; }
      failed := failed || one.Failed?;
    }
    return if failed then Failed else Passed;
  }

  function FloorAt(floors: Option<seq<Counts>>, k: nat): Option<Counts>
    requires floors.Some? ==> k < |floors.value|
  {
    if floors.None? then None else Some(floors.value[k])
  }

  /** Dropping the zero rows makes the candidate test the pointwise comparison. */
  lemma RaisedIsBelow(baseline: Counts, floor: Counts)
    ensures Raised(baseline, floor) == {} <==> Below(baseline, floor)
  {
    if Raised(baseline, floor) == {} {
      forall path ensures At(baseline, path) <= At(floor, path) {
        assert path !in Raised(baseline, floor);
      }
    }
    if Below(baseline, floor) {
      forall path | path in baseline ensures path !in Raised(baseline, floor) {
        assert At(baseline, path) <= At(floor, path);
      }
    }
  }

  // ----- the stored baselines -----

  ghost predicate Lists(rows: seq<Row>, counts: Counts) {
    DistinctPaths(rows) && RowMap(rows) == counts
  }

  /** Text order, character by character. */
  predicate Earlier(a: string, b: string) {
    if b == "" then false
    else if a == "" then true
    else if a[0] == b[0] then Earlier(a[1..], b[1..])
    else a[0] < b[0]
  }

  /** The order of the rows: more findings first, and paths in text order among equals. */
  predicate Precedes(a: Row, b: Row) {
    a.count > b.count || (a.count == b.count && Earlier(a.path, b.path))
  }

  predicate Sorted(rows: seq<Row>) {
    forall i, j :: 0 <= i < j < |rows| ==> Precedes(rows[i], rows[j])
  }

  lemma {:induction false} EarlierTotal(a: string, b: string)
    ensures a == b || Earlier(a, b) || Earlier(b, a)
  {
    if a != "" && b != "" && a[0] == b[0] {
      EarlierTotal(a[1..], b[1..]);
      assert a == [a[0]] + a[1..] && b == [b[0]] + b[1..];
    }
  }

  lemma {:induction false} EarlierTransitive(a: string, b: string, c: string)
    requires Earlier(a, b) && Earlier(b, c)
    ensures Earlier(a, c)
  {
    if a != "" && a[0] == b[0] == c[0] { EarlierTransitive(a[1..], b[1..], c[1..]); }
  }

  lemma PrecedesTransitive(a: Row, b: Row, c: Row)
    requires Precedes(a, b) && Precedes(b, c)
    ensures Precedes(a, c)
  {
    if a.count == b.count == c.count { EarlierTransitive(a.path, b.path, c.path); }
  }

  lemma InsertSorted(rows: seq<Row>, row: Row, i: nat)
    requires Sorted(rows) && i <= |rows| && forall k :: 0 <= k < |rows| ==> rows[k].path != row.path
    requires (forall k :: 0 <= k < i ==> Precedes(rows[k], row)) && (i < |rows| ==> !Precedes(rows[i], row))
    ensures Sorted(Inserted(rows, row, i))
  {
    hide Precedes, Inserted;
    var all := Inserted(rows, row, i);
    InsertedAt(rows, row, i, 0);
    forall k | i <= k < |rows| ensures Precedes(row, rows[k]) {
      NotPreceded(row, rows[i]);
      if k > i { PrecedesTransitive(row, rows[i], rows[k]); }
    }
    forall j, k | 0 <= j < k < |all| ensures Precedes(all[j], all[k]) {
      InsertedAt(rows, row, i, j);
      InsertedAt(rows, row, i, k);
    }
  }

  lemma NotPreceded(a: Row, b: Row)
    requires !Precedes(b, a) && a.path != b.path
    ensures Precedes(a, b)
  {
    EarlierTotal(a.path, b.path);
  }

  lemma {:induction false} RowMapHolds(rows: seq<Row>, k: nat)
    requires DistinctPaths(rows) && k < |rows|
    ensures rows[k].path in RowMap(rows) && RowMap(rows)[rows[k].path] == rows[k].count
    decreases |rows|
  {
    var last := |rows| - 1;
    if k < last {
      assert rows[..last][k] == rows[k];
      RowMapHolds(rows[..last], k);
    }
  }

  function Inserted(rows: seq<Row>, row: Row, i: nat): seq<Row>
    requires i <= |rows|
  {
    rows[..i] + [row] + rows[i..]
  }

  lemma InsertedAt(rows: seq<Row>, row: Row, i: nat, k: nat)
    requires i <= |rows| && k <= |rows|
    ensures var all := Inserted(rows, row, i);
      |all| == |rows| + 1 && all[k] == if k < i then rows[k] else if k == i then row else rows[k - 1]
  {
  }

  lemma RowMapNames(rows: seq<Row>, k: nat)
    requires k < |rows|
    ensures rows[k].path in RowMap(rows)
  {
  }

  lemma RowNamed(rows: seq<Row>, path: string) returns (k: nat)
    requires path in RowMap(rows)
    ensures k < |rows| && rows[k].path == path
  {
    k :| 0 <= k < |rows| && rows[k].path == path;
  }

  lemma InsertedDistinct(rows: seq<Row>, row: Row, i: nat)
    requires DistinctPaths(rows) && i <= |rows| && row.path !in RowMap(rows)
    ensures DistinctPaths(Inserted(rows, row, i))
  {
    hide RowMap, Inserted;
    var all := Inserted(rows, row, i);
    InsertedAt(rows, row, i, 0);
    forall j, k | 0 <= j < k < |all| ensures all[j].path != all[k].path {
      InsertedAt(rows, row, i, j);
      InsertedAt(rows, row, i, k);
      if j == i { RowMapNames(rows, k - 1); }
      if k == i { RowMapNames(rows, j); }
    }
  }

  /** The row that a path has after an insertion. */
  lemma InsertedRow(rows: seq<Row>, row: Row, i: nat, path: string)
    requires DistinctPaths(rows) && i <= |rows| && row.path !in RowMap(rows) && DistinctPaths(Inserted(rows, row, i))
    ensures var m, n := RowMap(Inserted(rows, row, i)), RowMap(rows)[row.path := row.count];
      (path in m <==> path in n) && (path in m ==> m[path] == n[path])
  {
    hide RowMap, Inserted, DistinctPaths;
    var all := Inserted(rows, row, i);
    InsertedAt(rows, row, i, i);
    RowMapHolds(all, i);
    if path in RowMap(rows) {
      var k := RowNamed(rows, path);
      var j := if k < i then k else k + 1;
      InsertedAt(rows, row, i, j);
      RowMapHolds(rows, k);
      RowMapHolds(all, j);
    } else if path in RowMap(all) {
      var j := RowNamed(all, path);
      InsertedAt(rows, row, i, j);
      if j != i { RowMapNames(rows, if j < i then j else j - 1); }
    }
  }

  lemma InsertListed(rows: seq<Row>, row: Row, i: nat)
    requires DistinctPaths(rows) && i <= |rows| && row.path !in RowMap(rows)
    ensures DistinctPaths(Inserted(rows, row, i))
    ensures RowMap(Inserted(rows, row, i)) == RowMap(rows)[row.path := row.count]
  {
    hide RowMap, Inserted, DistinctPaths;
    InsertedDistinct(rows, row, i);
    var m, n := RowMap(Inserted(rows, row, i)), RowMap(rows)[row.path := row.count];
    forall path ensures (path in m <==> path in n) && (path in m ==> m[path] == n[path]) {
      InsertedRow(rows, row, i, path);
    }
  }

  lemma NoRows()
    ensures RowMap([]) == map[]
  {
  }

  /** The rows of the findings in order, written one to a line. */
  method RenderBaseline(counts: Counts) returns (text: string, ghost rows: seq<Row>)
    ensures Lists(rows, counts) && Sorted(rows) && text == RenderRows(rows)
  {
    hide RowMap, Precedes, Inserted;
    var sorted: seq<Row> := [];
    var left := counts.Keys;
    NoRows();
    while left != {}
      invariant left <= counts.Keys && DistinctPaths(sorted) && Sorted(sorted) && RowMap(sorted) == counts - left
      decreases left
    {
      var path :| path in left;
      var row := Row(path, counts[path]);
      var i := 0;
      while i < |sorted| && Precedes(sorted[i], row)
        invariant 0 <= i <= |sorted| && forall k :: 0 <= k < i ==> Precedes(sorted[k], row)
      {
        i := i + 1;
      }
      forall k | 0 <= k < |sorted| ensures sorted[k].path != path { assert sorted[k].path in RowMap(sorted); }
      InsertSorted(sorted, row, i);
      InsertListed(sorted, row, i);
      assert (counts - left)[path := counts[path]] == counts - (left - {path});
      sorted := Inserted(sorted, row, i);
      left := left - {path};
    }
    assert counts - {} == counts;
    text, rows := RenderRows(sorted), sorted;
  }

  /** The baseline directory of one ratchet. */
  class BaselineFile {
    var file: Option<string>

    constructor (text: Option<string>)
      ensures file == text
    {
      file := text;
    }

    /**
     `--refresh`: seeds a missing baseline, otherwise lowers it to the findings and never raises it.
     After lowering the gate passes; after seeding it passes exactly when every path is plain.
     */
    method Refresh(counts: Counts) returns (outcome: Outcome)
      requires Positive(counts)
      modifies this
      ensures outcome.Misconfigured? <==> old(file).Some? && ParseBaseline(old(file).value).None?
      ensures outcome.Passed? <==>
        old(file).None? || (ParseBaseline(old(file).value).Some? && Below(counts, ParseBaseline(old(file).value).value))
      ensures !outcome.Passed? ==> file == old(file)
      ensures outcome.Passed? ==>
        file.Some? && exists rows :: Lists(rows, counts) && Sorted(rows) && file.value == RenderRows(rows)
      ensures outcome.Passed? && old(file).Some? ==>
        PassesAlone(Ratchet(counts, file)) && Lowered(old(file).value, file.value, counts)
      ensures outcome.Passed? && old(file).None? ==>
        (PassesAlone(Ratchet(counts, file)) <==> forall path :: path in counts ==> PlainPath(path))
    {
      if file.Some? {
        var parsed := ReadBaseline(file.value);
        if parsed.None? { return Misconfigured; }
        var regressions, _ := Evaluate(counts, parsed.value);
        NoRegressions(counts, parsed.value);
        if regressions != {} { return Failed; }
      }
      var text, rows := RenderBaseline(counts);
      if file.Some? { RefreshOnlyLowers(file.value, rows, counts); }
      SeededGatePasses(rows, counts);
      file := Some(text);
      return Passed;
    }
  }

  /** After a refresh the stored baseline is the findings exactly when every path is a nonempty single line. */
  lemma RefreshedBaseline(rows: seq<Row>, counts: Counts)
    requires Lists(rows, counts)
    ensures (forall path :: path in counts ==> PlainPath(path))
       <==> Stored(Ratchet(counts, Some(RenderRows(rows)))) == Some(counts)
  {
    BaselineRoundTrip(rows);
    assert counts.Keys == set k | 0 <= k < |rows| :: rows[k].path;
    if forall path :: path in counts ==> PlainPath(path) {
      forall k | 0 <= k < |rows| ensures PlainPath(rows[k].path) { assert rows[k].path in counts; }
    }
  }

  /** The new text holds the findings, which are at or below the old baseline. */
  ghost predicate Lowered(before: string, after: string, counts: Counts) {
    && ParseBaseline(before).Some? && ParseBaseline(after) == Some(counts)
    && Below(counts, ParseBaseline(before).value)
  }

  /** A refresh of a readable baseline lowers it to the findings and leaves the gate passing, whatever the paths. */
  lemma RefreshOnlyLowers(before: string, rows: seq<Row>, counts: Counts)
    requires Lists(rows, counts) && Positive(counts)
    requires ParseBaseline(before).Some? && Below(counts, ParseBaseline(before).value)
    ensures PassesAlone(Ratchet(counts, Some(RenderRows(rows)))) && Lowered(before, RenderRows(rows), counts)
  {
    hide ParseLines, RenderRows, SplitLines, Lists;
    ParsedPathsArePlain(SplitLines(before), map[]);
    forall path | path in counts ensures PlainPath(path) {
      assert At(counts, path) <= At(ParseBaseline(before).value, path);
    }
    RefreshedBaseline(rows, counts);
  }

  /** Seeding leaves the gate passing exactly when every path is a nonempty single line. */
  lemma SeededGatePasses(rows: seq<Row>, counts: Counts)
    requires Lists(rows, counts) && Positive(counts)
    ensures PassesAlone(Ratchet(counts, Some(RenderRows(rows)))) <==> forall path :: path in counts ==> PlainPath(path)
  {
    hide ParseLines, RenderRows, SplitLines, Lists;
    RefreshedBaseline(rows, counts);
    var r := Ratchet(counts, Some(RenderRows(rows)));
    if PassesAlone(r) {
      ParsedPathsArePlain(SplitLines(RenderRows(rows)), map[]);
      forall path | path in counts ensures PlainPath(path) {
        assert At(counts, path) <= At(Stored(r).value, path);
      }
    }
  }

  /** A path with a line feed seeds a baseline on which the gate does not pass. */
  lemma SeededGateFails(rows: seq<Row>)
    requires Lists(rows, map["a\nb" := 1])
    ensures !PassesAlone(Ratchet(map["a\nb" := 1], Some(RenderRows(rows))))
  {
    hide Lists, RenderRows, PassesAlone;
    var path := "a\nb";
    SeededGatePasses(rows, map[path := 1]);
    assert IsBreak(path[1]) && path in map[path := 1 as nat];
    assert !PlainPath(path);
  }

  // ----- a history of commits -----

  /** The independent floor for the next commit: the last commit's baseline. */
  ghost function Floor(first: Counts, history: seq<Ratchet>): Counts {
    if history == [] || Stored(history[|history| - 1]).None? then first
    else Stored(history[|history| - 1]).value
  }

  /** Each commit passes the gate with its predecessor's baseline as the independent floor. */
  ghost predicate GatedHistory(first: Counts, history: seq<Ratchet>)
    decreases |history|
  {
    history != [] ==>
      var before := history[..|history| - 1];
      GatedHistory(first, before) && Admitted(history[|history| - 1], Floor(first, before))
  }

  lemma BelowTransitive(a: Counts, b: Counts, c: Counts)
    requires Below(a, b) && Below(b, c)
    ensures Below(a, c)
  {
    forall path ensures At(a, path) <= At(c, path) {
      assert At(a, path) <= At(b, path) && At(b, path) <= At(c, path);
    }
  }

  /** However long the history, no file's baseline or findings ever exceed the first floor. */
  lemma {:induction false} DebtNeverGrows(first: Counts, history: seq<Ratchet>, k: nat)
    requires GatedHistory(first, history) && k < |history|
    ensures Stored(history[k]).Some?
    ensures Below(Stored(history[k]).value, first) && Below(history[k].counts, first)
    decreases |history|
  {
    hide Stored, Below;
    var before := history[..|history| - 1];
    if k < |before| {
      DebtNeverGrows(first, before, k);
    } else if before != [] {
      var floor := Stored(before[|before| - 1]);
      DebtNeverGrows(first, before, |before| - 1);
      BelowTransitive(Stored(history[k]).value, floor.value, first);
      BelowTransitive(history[k].counts, floor.value, first);
    }
  }
}
