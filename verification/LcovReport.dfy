/** Reading an LCOV report: a state machine over its lines, with per-file and overall totals. */
module LcovReport {
  import opened Prelude
  import opened Text

  type Counts = map<nat, nat>

  datatype Section = Section(counts: Counts, lf: nat, lh: nat)

  datatype Coverage = Coverage(files: nat, found: nat, hit: nat, mapped: nat, mappedHit: nat,
      sections: map<string, Section>)

  datatype Fault = Unterminated | BadSource | BadSection | HitsExceedLines | MissingLineData | Misplaced
                 | BadRecord | BadNumber | UnknownRecord | Incomplete

  function HitLines(counts: Counts): set<nat> {
    set n | n in counts && counts[n] > 0
  }

  // ----- one line -----

  datatype Line = Skipped | Source(name: string) | End | Data(fields: seq<string>)
                | Found(digits: string) | Hit(digits: string) | TestName | Detail | Unknown

  const DETAILS: seq<string> := ["FN:", "FNDA:", "FNF:", "FNH:", "BRDA:", "BRF:", "BRH:", "VER:"]

  function Classify(line: string): Line {
    if line == "" || line[0] == '#' then Skipped
    else if StartsWith(line, "SF:") then Source(line[3..])
    else if line == "end_of_record" then End
    else if StartsWith(line, "DA:") then Data(SplitOn(line[3..], ','))
    else if StartsWith(line, "LF:") then Found(line[3..])
    else if StartsWith(line, "LH:") then Hit(line[3..])
    else if StartsWith(line, "TN:") then TestName
    else if exists k :: 0 <= k < |DETAILS| && StartsWith(line, DETAILS[k]) then Detail
    else Unknown
  }

  // ----- the state machine -----

  datatype State = State(source: Option<string>, counts: Counts, lf: Option<nat>, lh: Option<nat>, seen: set<string>,
                         sections: map<string, Section>, found: nat, hit: nat, mapped: nat, mappedHit: nat)

  const START := State(None, map[], None, None, {}, map[], 0, 0, 0, 0)

  function Step(s: State, line: Line): Result<State, Fault> {
    match line
    case Skipped => Ok(s)
    case Source(name) =>
      if s.source.Some? then Err(Unterminated)
      else if name == "" || name in s.seen then Err(BadSource)
      else Ok(s.(source := Some(name), seen := s.seen + {name}, counts := map[], lf := None, lh := None))
    case End => Close(s)
    case Data(fields) =>
      if s.source.None? then Err(Misplaced)
      else if |fields| != 2 && |fields| != 3 then Err(BadRecord)
      else
        var number, count := Unsigned(fields[0]), Unsigned(fields[1]);
        if number.None? || count.None? then Err(BadNumber)
        else if number.value == 0 || number.value in s.counts then Err(BadRecord)
        else Ok(s.(counts := s.counts[number.value := count.value]))
    case Found(digits) =>
      if s.source.None? || s.lf.Some? then Err(Misplaced)
      else if Unsigned(digits).None? then Err(BadNumber)
      else Ok(s.(lf := Unsigned(digits)))
    case Hit(digits) =>
      if s.source.None? || s.lh.Some? then Err(Misplaced)
      else if Unsigned(digits).None? then Err(BadNumber)
      else Ok(s.(lh := Unsigned(digits)))
    case TestName => if s.source.Some? then Err(Misplaced) else Ok(s)
    case Detail => if s.source.None? then Err(Misplaced) else Ok(s)
    case Unknown => Err(UnknownRecord)
  }

  /** End of a file section: it joins the report and its figures join the totals. */
  function Close(s: State): Result<State, Fault> {
    if s.source.None? || s.lf.None? || s.lh.None? then Err(BadSection)
    else if s.lh.value > s.lf.value then Err(HitsExceedLines)
    else if s.lf.value > 0 && s.counts == map[] then Err(MissingLineData)
    else
      Ok(s.(source := None, sections := s.sections[s.source.value := Section(s.counts, s.lf.value, s.lh.value)],
            found := s.found + s.lf.value, hit := s.hit + s.lh.value,
            mapped := s.mapped + |s.counts|, mappedHit := s.mappedHit + |HitLines(s.counts)|))
  }

  function Run(s: State, lines: seq<string>): Result<State, Fault>
    decreases |lines|
  {
    if lines == [] then Ok(s)
    else
      match Step(s, Classify(lines[0]))
      case Err(e) => Err(e)
      case Ok(t) => Run(t, lines[1..])
  }

  function Finish(s: State): Result<Coverage, Fault> {
    if s.source.Some? || s.seen == {} || s.found == 0 || s.mapped == 0 then Err(Incomplete)
    else Ok(Coverage(|s.seen|, s.found, s.hit, s.mapped, s.mappedHit, s.sections))
  }

  function Read(text: string): Result<Coverage, Fault> {
    match Run(START, SplitLines(text))
    case Err(e) => Err(e)
    case Ok(s) => Finish(s)
  }

  /** `read_coverage`: the loop over the lines with its running dictionaries and totals. */
  method ReadCoverage(text: string) returns (r: Result<Coverage, Fault>)
    ensures r == Read(text)
  {
    hide Classify, HitLines;
    var lines := SplitLines(text);
    var source: Option<string> := None;
    var seen: set<string>, counts: Counts, lf: Option<nat>, lh: Option<nat> := {}, map[], None, None;
    var sections: map<string, Section> := map[];
    var found, hit, mapped, mappedHit := 0, 0, 0, 0;
    var i := 0;
    assert lines[0..] == lines;
    while i < |lines|
      invariant 0 <= i <= |lines|
      invariant found >= 0 && hit >= 0 && mapped >= 0 && mappedHit >= 0
      invariant Run(START, lines) ==
        Run(State(source, counts, lf, lh, seen, sections, found, hit, mapped, mappedHit), lines[i..])
    {
      var line := Classify(lines[i]);
      assert lines[i..][1..] == lines[i + 1..];
      i := i + 1;
      match line {
        case Skipped =>
        case Source(name) =>
          if source.Some? { return Err(Unterminated); }
          if name == "" || name in seen { return Err(BadSource); }
          source, seen, counts, lf, lh := Some(name), seen + {name}, map[], None, None;
        case End =>
          if source.None? || lf.None? || lh.None? { return Err(BadSection); }
          if lh.value > lf.value { return Err(HitsExceedLines); }
          if lf.value > 0 && counts == map[] { return Err(MissingLineData); }
          sections := sections[source.value := Section(counts, lf.value, lh.value)];
          found, hit := found + lf.value, hit + lh.value;
          mapped, mappedHit := mapped + |counts|, mappedHit + |HitLines(counts)|;
          source := None;
        case Data(fields) =>
          if source.None? { return Err(Misplaced); }
          if |fields| != 2 && |fields| != 3 { return Err(BadRecord); }
          var number, count := Unsigned(fields[0]), Unsigned(fields[1]);
          if number.None? || count.None? { return Err(BadNumber); }
          if number.value == 0 || number.value in counts { return Err(BadRecord); }
          counts := counts[number.value := count.value];
        case Found(digits) =>
          if source.None? || lf.Some? { return Err(Misplaced); }
          var n := Unsigned(digits);
          if n.None? { return Err(BadNumber); }
          lf := n;
        case Hit(digits) =>
          if source.None? || lh.Some? { return Err(Misplaced); }
          var n := Unsigned(digits);
          if n.None? { return Err(BadNumber); }
          lh := n;
        case TestName => if source.Some? { return Err(Misplaced); }
        case Detail => if source.None? { return Err(Misplaced); }
        case Unknown => return Err(UnknownRecord);
      }
    }
    if source.Some? || seen == {} || found == 0 || mapped == 0 { return Err(Incomplete); }
    r := Ok(Coverage(|seen|, found, hit, mapped, mappedHit, sections));
  }

  // ----- what an accepted report satisfies -----

  /** A figure of the sections, added up over a report. */
  ghost function SumOf<K>(m: map<K, Section>, f: Section -> int): int {
    Total(map k | k in m :: f(m[k]))
  }

  lemma SumAdd<K>(m: map<K, Section>, k: K, x: Section, f: Section -> int)
    requires k !in m
    ensures SumOf(m[k := x], f) == SumOf(m, f) + f(x)
  {
    var n := m[k := x];
    TotalInsert(map j | j in m :: f(m[j]), k, f(x));
    assert (map j | j in n :: f(n[j])) == (map j | j in m :: f(m[j]))[k := f(x)];
  }

  ghost function Each<K>(m: map<K, Section>, f: Section -> int): (r: map<K, int>)
    ensures r.Keys == m.Keys
  {
    map k | k in m :: f(m[k])
  }

  lemma SumOfEach<K>(m: map<K, Section>, f: Section -> int)
    ensures SumOf(m, f) == Total(Each(m, f))
  {
    assert Each(m, f) == map k | k in m :: f(m[k]);
  }

  lemma SumEmpty<K>(m: map<K, Section>, f: Section -> int)
    ensures m == map[] ==> SumOf(m, f) == 0
  {
    var figures := map k | k in m :: f(m[k]);
    if m == map[] { assert figures == map[]; }
  }

  lemma SumMonotone<K>(m: map<K, Section>, f: Section -> int, g: Section -> int)
    requires forall k :: k in m ==> f(m[k]) <= g(m[k])
    ensures SumOf(m, f) <= SumOf(m, g)
  {
    TotalMonotone(map k | k in m :: f(m[k]), map k | k in m :: g(m[k]));
  }

  function Lf(x: Section): int { x.lf }

  function Lh(x: Section): int { x.lh }

  function Mapped(x: Section): int { |x.counts| }

  function MappedHit(x: Section): int { |HitLines(x.counts)| }

  predicate SectionOk(x: Section) {
    x.lh <= x.lf && (x.lf > 0 ==> x.counts != map[]) && 0 !in x.counts
  }

  ghost predicate SectionsOk<K(!new)>(m: map<K, Section>) {
    forall k :: k in m ==> SectionOk(m[k])
  }

  ghost predicate Totals<K>(m: map<K, Section>, found: int, hit: int, mapped: int, mappedHit: int) {
    found == SumOf(m, Lf) && hit == SumOf(m, Lh) && mapped == SumOf(m, Mapped) && mappedHit == SumOf(m, MappedHit)
  }

  ghost predicate Good(s: State) {
    && SectionsOk(s.sections) && "" !in s.sections && Totals(s.sections, s.found, s.hit, s.mapped, s.mappedHit)
    && 0 !in s.counts
    && s.seen == s.sections.Keys + (if s.source.Some? then {s.source.value} else {})
    && (s.source.Some? ==> s.source.value != "" && s.source.value !in s.sections)
  }

  lemma TotalsAdd<K>(m: map<K, Section>, k: K, x: Section, found: int, hit: int, mapped: int, mappedHit: int)
    requires k !in m && Totals(m, found, hit, mapped, mappedHit)
    ensures Totals(m[k := x], found + x.lf, hit + x.lh, mapped + |x.counts|, mappedHit + |HitLines(x.counts)|)
  {
    hide HitLines;
    SumAdd(m, k, x, Lf);
    SumAdd(m, k, x, Lh);
    SumAdd(m, k, x, Mapped);
    SumAdd(m, k, x, MappedHit);
  }

  lemma CloseKeeps(s: State)
    requires Good(s) && Close(s).Ok?
    ensures Good(Close(s).value)
  {
    hide HitLines, Totals, SectionsOk;
    var x := Section(s.counts, s.lf.value, s.lh.value);
    var sections := s.sections[s.source.value := x];
    SectionAdded(s.sections, s.source.value, x);
    TotalsAdd(s.sections, s.source.value, x, s.found, s.hit, s.mapped, s.mappedHit);
    assert sections.Keys == s.sections.Keys + {s.source.value};
    assert s.seen == sections.Keys + {};
    assert Close(s).value.sections == sections;
  }

  lemma SectionAdded<K(!new)>(m: map<K, Section>, k: K, x: Section)
    requires SectionsOk(m) && SectionOk(x)
    ensures SectionsOk(m[k := x])
  {
  }

  lemma StepKeeps(s: State, line: Line)
    requires Good(s) && Step(s, line).Ok?
    ensures Good(Step(s, line).value)
  {
    hide Close, Totals, Unsigned, SectionsOk;
    if line == End { CloseKeeps(s); }
  }

  lemma {:induction false} RunKeeps(s: State, lines: seq<string>)
    requires Good(s) && Run(s, lines).Ok?
    ensures Good(Run(s, lines).value)
    decreases |lines|
  {
    hide Good, Step, Classify;
    if lines != [] {
      StepKeeps(s, Classify(lines[0]));
      RunKeeps(Step(s, Classify(lines[0])).value, lines[1..]);
    }
  }

  /** What every reader of an accepted report may rely on. */
  ghost predicate WellFormed(c: Coverage) {
    && SectionsOk(c.sections) && "" !in c.sections && Totals(c.sections, c.found, c.hit, c.mapped, c.mappedHit)
    && c.files == |c.sections| && c.found > 0 && c.mapped > 0
  }

  lemma NoTotals()
    ensures Good(START)
  {
    SumEmpty(START.sections, Lf);
    SumEmpty(START.sections, Lh);
    SumEmpty(START.sections, Mapped);
    SumEmpty(START.sections, MappedHit);
  }

  lemma HitsBounded(x: Section)
    ensures 0 <= MappedHit(x) <= Mapped(x)
  {
    SubsetSize(HitLines(x.counts), x.counts.Keys);
  }

  lemma TotalsBounded<K(!new)>(m: map<K, Section>)
    requires SectionsOk(m)
    ensures 0 <= SumOf(m, Lh) <= SumOf(m, Lf) && 0 <= SumOf(m, MappedHit) <= SumOf(m, Mapped)
  {
    hide SumOf, MappedHit, Mapped;
    forall k | k in m ensures 0 <= MappedHit(m[k]) <= Mapped(m[k]) { HitsBounded(m[k]); }
    SumMonotone(m, Lh, Lf);
    SumMonotone(m, MappedHit, Mapped);
    SumOfEach(m, Lh);
    SumOfEach(m, MappedHit);
    TotalNonnegative(Each(m, Lh));
    TotalNonnegative(Each(m, MappedHit));
  }

  /** Every accepted report is well formed, and no file or total has more hits than lines. */
  lemma AcceptedIsWellFormed(text: string)
    requires Read(text).Ok?
    ensures WellFormed(Read(text).value)
    ensures var c := Read(text).value; c.hit <= c.found && c.mappedHit <= c.mapped
  {
    hide Run, SumOf;
    NoTotals();
    RunKeeps(START, SplitLines(text));
    TotalsBounded(Read(text).value.sections);
  }

  // ----- printing and reading back -----

  /** A file section to print: its line records in any order. */
  datatype Chunk = Chunk(source: string, entries: seq<(nat, nat)>, lf: nat, lh: nat)

  function DataLine(e: (nat, nat)): string {
    "DA:" + (Numeral(e.0) + [','] + Numeral(e.1))
  }

  function DataLines(entries: seq<(nat, nat)>): seq<string> {
    if entries == [] then [] else [DataLine(entries[0])] + DataLines(entries[1..])
  }

  function ChunkLines(c: Chunk): seq<string> {
    ["SF:" + c.source] + (DataLines(c.entries) + ["LF:" + Numeral(c.lf), "LH:" + Numeral(c.lh), "end_of_record"])
  }

  function ReportLines(chunks: seq<Chunk>): seq<string> {
    if chunks == [] then [] else ChunkLines(chunks[0]) + ReportLines(chunks[1..])
  }

  function Unlines(lines: seq<string>): string {
    if lines == [] then "" else lines[0] + "\n" + Unlines(lines[1..])
  }

  predicate Lines(lines: seq<string>) {
    forall k :: 0 <= k < |lines| ==> OneLine(lines[k])
  }

  lemma {:induction false} SplitUnlines(lines: seq<string>)
    requires Lines(lines)
    ensures SplitLines(Unlines(lines)) == lines
  {
    if lines != [] {
      SplitFirstLine(lines[0], Unlines(lines[1..]));
      SplitUnlines(lines[1..]);
    }
  }

  lemma DigitsOneLine(s: string)
    requires AllDigits(s)
    ensures OneLine(s) && ',' !in s
  {
    forall k | 0 <= k < |s| ensures !IsBreak(s[k]) && s[k] != ',' { assert IsDigit(s[k]); }
  }

  lemma ReadNumeral(n: nat)
    ensures Unsigned(Numeral(n)) == Some(n)
  {
    NumeralRoundTrip(n);
  }

  lemma ClassifySource(name: string)
    ensures Classify("SF:" + name) == Source(name)
    ensures OneLine(name) ==> OneLine("SF:" + name)
  {
    var line := "SF:" + name;
    assert line[0] == 'S' && line[..3] == "SF:" && line[3..] == name;
  }

  lemma ClassifyData(e: (nat, nat))
    ensures Classify(DataLine(e)) == Data([Numeral(e.0), Numeral(e.1)]) && OneLine(DataLine(e))
  {
    var rest := Numeral(e.0) + [','] + Numeral(e.1);
    var line := DataLine(e);
    DigitsOneLine(Numeral(e.0));
    DigitsOneLine(Numeral(e.1));
    assert line[0] == 'D' && line[1] == 'A' && line[..3] == "DA:" && line[3..] == rest;
    SplitPair(Numeral(e.0), ',', Numeral(e.1));
  }

  lemma ClassifySummary(n: nat)
    ensures Classify("LF:" + Numeral(n)) == Found(Numeral(n)) && OneLine("LF:" + Numeral(n))
    ensures Classify("LH:" + Numeral(n)) == Hit(Numeral(n)) && OneLine("LH:" + Numeral(n))
  {
    var a, b := "LF:" + Numeral(n), "LH:" + Numeral(n);
    DigitsOneLine(Numeral(n));
    assert a[0] == 'L' && a[1] == 'F' && a[..3] == "LF:" && a[3..] == Numeral(n);
    assert b[0] == 'L' && b[1] == 'H' && b[..3] == "LH:" && b[3..] == Numeral(n);
  }

  lemma ClassifyEnd()
    ensures Classify("end_of_record") == End && OneLine("end_of_record")
  {
    var line := "end_of_record";
    assert line[0] == 'e';
  }

  lemma {:induction false} RunAppend(s: State, a: seq<string>, b: seq<string>)
    ensures Run(s, a + b) == match Run(s, a) { case Err(e) => Err(e) case Ok(t) => Run(t, b) }
    decreases |a|
  {
    hide Step, Classify;
    if a == [] {
      assert a + b == b;
    } else {
      assert (a + b)[0] == a[0] && (a + b)[1..] == a[1..] + b;
      var r := Step(s, Classify(a[0]));
      if r.Ok? { RunAppend(r.value, a[1..], b); }
    }
  }

  /** The line records that can be added to the ones already read. */
  predicate Fresh(counts: Counts, entries: seq<(nat, nat)>) {
    && (forall k :: 0 <= k < |entries| ==> entries[k].0 != 0 && entries[k].0 !in counts)
    && (forall j, k :: 0 <= j < k < |entries| ==> entries[j].0 != entries[k].0)
  }

  function Extended(counts: Counts, entries: seq<(nat, nat)>): (r: Counts)
    ensures entries != [] ==> r != map[]
    decreases |entries|
  {
    if entries == [] then counts else
      var r := Extended(counts[entries[0].0 := entries[0].1], entries[1..]);
      assert |entries| == 1 ==> r == counts[entries[0].0 := entries[0].1] && entries[0].0 in r;
      r
  }

  lemma FreshStep(counts: Counts, entries: seq<(nat, nat)>)
    requires entries != []
    ensures var e := entries[0];
      Fresh(counts, entries) <==> e.0 != 0 && e.0 !in counts && Fresh(counts[e.0 := e.1], entries[1..])
  {
    var e, rest := entries[0], entries[1..];
    assert forall k :: 0 <= k < |rest| ==> rest[k] == entries[k + 1];
    assert forall k :: 1 <= k < |entries| ==> entries[k] == rest[k - 1];
  }

  /** The map read from distinct records holds exactly those records. */
  lemma {:induction false} ExtendedExact(counts: Counts, entries: seq<(nat, nat)>)
    requires Fresh(counts, entries)
    ensures forall n ::
      n in Extended(counts, entries) <==> n in counts || exists k :: 0 <= k < |entries| && entries[k].0 == n
    ensures forall n :: n in counts ==> n in Extended(counts, entries) && Extended(counts, entries)[n] == counts[n]
    ensures forall k :: 0 <= k < |entries| ==>
      entries[k].0 in Extended(counts, entries) && Extended(counts, entries)[entries[k].0] == entries[k].1
    decreases |entries|
  {
    if entries != [] {
      var e, rest := entries[0], entries[1..];
      FreshStep(counts, entries);
      ExtendedExact(counts[e.0 := e.1], rest);
      assert forall k :: 0 <= k < |rest| ==> rest[k] == entries[k + 1];
      forall k | 0 <= k < |entries|
        ensures entries[k].0 in Extended(counts, entries) && Extended(counts, entries)[entries[k].0] == entries[k].1
      {
        if k > 0 { assert entries[k] == rest[k - 1]; }
      }
    }
  }

  lemma {:induction false} RunEntries(s: State, entries: seq<(nat, nat)>)
    requires s.source.Some?
    ensures Run(s, DataLines(entries)) .Ok? <==> Fresh(s.counts, entries)
    ensures Fresh(s.counts, entries) ==> Run(s, DataLines(entries)) == Ok(s.(counts := Extended(s.counts, entries)))
    decreases |entries|
  {
    hide Classify, Fresh, Unsigned, DataLine;
    if entries == [] {
      NothingFresh(s.counts);
    } else {
      var e := entries[0];
      FreshStep(s.counts, entries);
      ClassifyData(e);
      ReadNumeral(e.0);
      ReadNumeral(e.1);
      var lines := DataLines(entries);
      assert lines[0] == DataLine(e) && lines[1..] == DataLines(entries[1..]);
      if e.0 != 0 && e.0 !in s.counts {
        RunEntries(s.(counts := s.counts[e.0 := e.1]), entries[1..]);
      }
    }
  }

  lemma NothingFresh(counts: Counts)
    ensures Fresh(counts, [])
  {
  }

  predicate ChunkOk(c: Chunk) {
    c.source != "" && Fresh(map[], c.entries) && c.lh <= c.lf && (c.lf > 0 ==> c.entries != [])
  }

  function ToSection(c: Chunk): Section {
    Section(Extended(map[], c.entries), c.lf, c.lh)
  }

  function After(s: State, c: Chunk): State {
    var x := ToSection(c);
    State(None, x.counts, Some(c.lf), Some(c.lh), s.seen + {c.source}, s.sections[c.source := x],
          s.found + c.lf, s.hit + c.lh, s.mapped + |x.counts|, s.mappedHit + |HitLines(x.counts)|)
  }

  lemma RunSummaries(s: State, c: Chunk)
    requires s.source.Some? && s.lf.None? && s.lh.None?
    ensures Run(s, ["LF:" + Numeral(c.lf), "LH:" + Numeral(c.lh), "end_of_record"]) ==
      Close(s.(lf := Some(c.lf), lh := Some(c.lh)))
  {
    hide Classify, Close, Unsigned;
    ClassifySummary(c.lf);
    ClassifySummary(c.lh);
    ClassifyEnd();
    ReadNumeral(c.lf);
    ReadNumeral(c.lh);
    var a, b, e := "LF:" + Numeral(c.lf), "LH:" + Numeral(c.lh), "end_of_record";
    var s1 := s.(lf := Some(c.lf));
    var s2 := s1.(lh := Some(c.lh));
    assert [a, b, e][1..] == [b, e] && [b, e][1..] == [e] && [e][1..] == [];
    assert Step(s, Classify(a)) == Ok(s1) && Step(s1, Classify(b)) == Ok(s2) && Step(s2, Classify(e)) == Close(s2);
    assert Run(s2, [e]) == Close(s2);
    assert Run(s1, [b, e]) == Run(s2, [e]);
  }

  lemma RunChunk(s: State, c: Chunk)
    requires s.source.None?
    ensures Run(s, ChunkLines(c)).Ok? <==> ChunkOk(c) && c.source !in s.seen
    ensures ChunkOk(c) && c.source !in s.seen ==> Run(s, ChunkLines(c)) == Ok(After(s, c))
  {
    hide Classify, Fresh, Unsigned, HitLines;
    ClassifySource(c.source);
    var lines := ChunkLines(c);
    var tail := ["LF:" + Numeral(c.lf), "LH:" + Numeral(c.lh), "end_of_record"];
    assert lines[0] == "SF:" + c.source && lines[1..] == DataLines(c.entries) + tail;
    if c.source != "" && c.source !in s.seen {
      var t := s.(source := Some(c.source), seen := s.seen + {c.source}, counts := map[], lf := None, lh := None);
      assert Run(s, lines) == Run(t, DataLines(c.entries) + tail);
      RunAppend(t, DataLines(c.entries), tail);
      RunEntries(t, c.entries);
      if Fresh(map[], c.entries) {
        RunSummaries(t.(counts := Extended(map[], c.entries)), c);
      }
    }
  }

  predicate Distinct(chunks: seq<Chunk>) {
    forall j, k :: 0 <= j < k < |chunks| ==> chunks[j].source != chunks[k].source
  }

  predicate ChunksOk(seen: set<string>, chunks: seq<Chunk>) {
    Distinct(chunks) && forall k :: 0 <= k < |chunks| ==> ChunkOk(chunks[k]) && chunks[k].source !in seen
  }

  lemma ChunksStep(seen: set<string>, chunks: seq<Chunk>)
    requires chunks != []
    ensures var c := chunks[0];
      ChunksOk(seen, chunks) <==> ChunkOk(c) && c.source !in seen && ChunksOk(seen + {c.source}, chunks[1..])
  {
    hide ChunkOk;
    var rest := chunks[1..];
    assert forall k :: 0 <= k < |rest| ==> rest[k] == chunks[k + 1];
    assert forall k :: 1 <= k < |chunks| ==> chunks[k] == rest[k - 1];
  }

  function Sections(m: map<string, Section>, chunks: seq<Chunk>): map<string, Section>
    decreases |chunks|
  {
    if chunks == [] then m else Sections(m[chunks[0].source := ToSection(chunks[0])], chunks[1..])
  }

  predicate Measured(chunks: seq<Chunk>) {
    exists k :: 0 <= k < |chunks| && chunks[k].lf > 0
  }

  lemma MeasuredStep(chunks: seq<Chunk>)
    requires chunks != []
    ensures Measured(chunks) <==> chunks[0].lf > 0 || Measured(chunks[1..])
  {
    if Measured(chunks) && chunks[0].lf == 0 {
      var k :| 0 <= k < |chunks| && chunks[k].lf > 0;
      assert chunks[1..][k - 1].lf > 0;
    }
  }

  lemma {:induction false} RunChunks(s: State, chunks: seq<Chunk>)
    requires s.source.None? && (s.found > 0 ==> s.mapped > 0)
    ensures Run(s, ReportLines(chunks)).Ok? <==> ChunksOk(s.seen, chunks)
    ensures ChunksOk(s.seen, chunks) ==>
      var t := Run(s, ReportLines(chunks)).value;
      && t.source.None? && t.sections == Sections(s.sections, chunks) && s.seen <= t.seen
      && (chunks != [] ==> t.seen != {})
      && (t.found > 0 <==> s.found > 0 || Measured(chunks)) && (t.found > 0 ==> t.mapped > 0)
    decreases |chunks|
  {
    hide ChunkOk, ChunksOk, ChunkLines, HitLines, Measured;
    if chunks == [] {
      NoChunks(s.seen);
    } else {
      var c := chunks[0];
      ChunksStep(s.seen, chunks);
      MeasuredStep(chunks);
      RunChunk(s, c);
      RunAppend(s, ChunkLines(c), ReportLines(chunks[1..]));
      if ChunkOk(c) && c.source !in s.seen {
        var t := After(s, c);
        if c.lf > 0 { SomeLines(c); }
        assert c.source in t.seen;
        RunChunks(t, chunks[1..]);
      }
    }
  }

  lemma NoChunks(seen: set<string>)
    ensures ChunksOk(seen, []) && !Measured([])
  {
  }

  lemma SomeLines(c: Chunk)
    requires ChunkOk(c) && c.lf > 0
    ensures |ToSection(c).counts| > 0
  {
    var m := Extended(map[], c.entries);
    assert m != map[];
    assert |m| == 0 ==> m == map[];
  }

  lemma {:induction false} PrintedLines(chunks: seq<Chunk>)
    requires forall k :: 0 <= k < |chunks| ==> OneLine(chunks[k].source)
    ensures Lines(ReportLines(chunks))
  {
    hide OneLine;
    if chunks != [] {
      var c := chunks[0];
      ClassifySource(c.source);
      ClassifySummary(c.lf);
      ClassifySummary(c.lh);
      ClassifyEnd();
      DataOneLine(c.entries);
      PrintedLines(chunks[1..]);
    }
  }

  lemma {:induction false} DataOneLine(entries: seq<(nat, nat)>)
    ensures Lines(DataLines(entries))
  {
    hide OneLine, DataLine;
    if entries != [] {
      ClassifyData(entries[0]);
      DataOneLine(entries[1..]);
    }
  }

  /**
   A printed report is accepted exactly when its files are named and distinct, their lines are
   positive and distinct, no file has more hits than lines or lines without records, and some
   line is instrumented; and then it reads back as printed.
   */
  lemma ReportRoundTrip(chunks: seq<Chunk>)
    requires forall k :: 0 <= k < |chunks| ==> OneLine(chunks[k].source)
    ensures Read(Unlines(ReportLines(chunks))).Ok? <==> ChunksOk({}, chunks) && Measured(chunks)
    ensures Read(Unlines(ReportLines(chunks))).Ok? ==>
      Read(Unlines(ReportLines(chunks))).value.sections == Sections(map[], chunks)
  {
    hide Run, ReportLines, ChunksOk, Measured, SplitLines;
    PrintedLines(chunks);
    SplitUnlines(ReportLines(chunks));
    RunChunks(START, chunks);
    if chunks == [] { NoChunks({}); }
  }

  /** In a printed report every file has the section printed for it. */
  lemma {:induction false} SectionsExact(m: map<string, Section>, chunks: seq<Chunk>, k: nat)
    requires Distinct(chunks) && k < |chunks|
    ensures chunks[k].source in Sections(m, chunks) && Sections(m, chunks)[chunks[k].source] == ToSection(chunks[k])
    decreases |chunks|
  {
    hide ToSection;
    var rest := chunks[1..];
    assert Distinct(rest) by { assert forall j :: 0 <= j < |rest| ==> rest[j] == chunks[j + 1]; }
    if k > 0 {
      SectionsExact(m[chunks[0].source := ToSection(chunks[0])], rest, k - 1);
    } else {
      SectionsKeep(m[chunks[0].source := ToSection(chunks[0])], rest, chunks[0].source);
    }
  }

  lemma {:induction false} SectionsKeep(m: map<string, Section>, chunks: seq<Chunk>, name: string)
    requires name in m && forall j :: 0 <= j < |chunks| ==> chunks[j].source != name
    ensures name in Sections(m, chunks) && Sections(m, chunks)[name] == m[name]
    decreases |chunks|
  {
    hide ToSection;
    if chunks != [] {
      SectionsKeep(m[chunks[0].source := ToSection(chunks[0])], chunks[1..], name);
    }
  }

  /** A printed report names no other files. */
  lemma {:induction false} SectionsOnly(m: map<string, Section>, chunks: seq<Chunk>, name: string)
    requires name in Sections(m, chunks) && name !in m
    ensures exists k :: 0 <= k < |chunks| && chunks[k].source == name
    decreases |chunks|
  {
    hide ToSection;
    if chunks[0].source != name {
      SectionsOnly(m[chunks[0].source := ToSection(chunks[0])], chunks[1..], name);
      var k :| 0 <= k < |chunks[1..]| && chunks[1..][k].source == name;
      assert chunks[k + 1].source == name;
    }
  }

  // ----- the other records -----

  /** A line in the middle of a report: what was read before it decides, then the line, then the rest. */
  lemma RunAround(s: State, a: seq<string>, line: string, b: seq<string>)
    ensures Run(s, a + [line] + b) ==
      match Run(s, a)
      case Err(e) => Err(e)
      case Ok(t) => (match Step(t, Classify(line)) case Err(e) => Err(e) case Ok(u) => Run(u, b))
  {
    hide Step, Classify;
    assert a + [line] + b == a + ([line] + b);
    RunAppend(s, a, [line] + b);
    assert ([line] + b)[1..] == b;
  }

  /** Empty lines and comments may stand anywhere. */
  lemma CommentsIgnored(s: State, a: seq<string>, line: string, b: seq<string>)
    requires line == "" || line[0] == '#'
    ensures Run(s, a + [line] + b) == Run(s, a + b)
  {
    hide Run;
    RunAround(s, a, line, b);
    RunAppend(s, a, b);
  }

  lemma ClassifyTest(text: string)
    ensures Classify("TN:" + text) == TestName
  {
    var line := "TN:" + text;
    assert line[0] == 'T' && line[..3] == "TN:";
    assert line[..3][0] == 'T';
  }

  lemma ClassifyDetail(prefix: string, text: string)
    requires prefix in {"FN:", "FNDA:", "FNF:", "FNH:", "BRDA:", "BRF:", "BRH:", "VER:"}
    ensures Classify(prefix + text) == Detail
  {
    var line := prefix + text;
    assert line[0] == prefix[0] && line[..|prefix|] == prefix;
    assert line[..3][0] == line[0];
    assert line != "end_of_record" by { assert "end_of_record"[0] == 'e'; }
    assert DETAILS[0] == "FN:" && DETAILS[1] == "FNDA:" && DETAILS[2] == "FNF:" && DETAILS[3] == "FNH:";
    assert DETAILS[4] == "BRDA:" && DETAILS[5] == "BRF:" && DETAILS[6] == "BRH:" && DETAILS[7] == "VER:";
    var k :| 0 <= k < |DETAILS| && DETAILS[k] == prefix;
    assert StartsWith(line, DETAILS[k]);
  }

  /** A test name is ignored between file sections and refused inside one. */
  lemma TestNameLine(s: State, a: seq<string>, text: string, b: seq<string>)
    requires Run(s, a).Ok?
    ensures Run(s, a + ["TN:" + text] + b) ==
      if Run(s, a).value.source.Some? then Err(Misplaced) else Run(s, a + b)
  {
    hide Run, Classify;
    ClassifyTest(text);
    RunAround(s, a, "TN:" + text, b);
    RunAppend(s, a, b);
  }

  /** Function and branch records are ignored inside a file section and refused between sections. */
  lemma DetailLine(s: State, a: seq<string>, prefix: string, text: string, b: seq<string>)
    requires prefix in {"FN:", "FNDA:", "FNF:", "FNH:", "BRDA:", "BRF:", "BRH:", "VER:"} && Run(s, a).Ok?
    ensures Run(s, a + [prefix + text] + b) ==
      if Run(s, a).value.source.None? then Err(Misplaced) else Run(s, a + b)
  {
    hide Run, Classify;
    ClassifyDetail(prefix, text);
    RunAround(s, a, prefix + text, b);
    RunAppend(s, a, b);
  }

  lemma {:induction false} SplitMore(a: string, sep: char, b: string)
    requires sep !in a
    ensures SplitOn(a + [sep] + b, sep) == [a] + SplitOn(b, sep)
  {
    var s := a + [sep] + b;
    UntilCharOf(a, sep, b);
    assert s[..|a|] == a && s[|a| + 1..] == b;
  }

  lemma {:induction false} SplitOne(a: string, sep: char)
    requires sep !in a
    ensures SplitOn(a, sep) == [a]
  {
    var n := UntilChar(a, sep);
    if n < |a| { assert false; }
    assert a[..n] == a;
  }

  lemma ClassifyFields(fields: string)
    ensures Classify("DA:" + fields) == Data(SplitOn(fields, ','))
  {
    hide SplitOn;
    var line := "DA:" + fields;
    assert line[0] == 'D' && line[..3] == "DA:" && line[3..] == fields;
    assert line[..3][0] == 'D';
  }

  /** The optional third field of a line record is ignored. */
  lemma ChecksumIgnored(s: State, a: seq<string>, number: string, count: string, checksum: string, b: seq<string>)
    requires ',' !in number && ',' !in count && ',' !in checksum
    ensures Run(s, a + ["DA:" + (number + [','] + (count + [','] + checksum))] + b)
         == Run(s, a + ["DA:" + (number + [','] + count)] + b)
  {
    hide Run, Classify, Unsigned, SplitOn;
    var long, short := number + [','] + (count + [','] + checksum), number + [','] + count;
    SplitMore(number, ',', count + [','] + checksum);
    SplitMore(count, ',', checksum);
    SplitOne(checksum, ',');
    SplitPair(number, ',', count);
    ClassifyFields(long);
    ClassifyFields(short);
    RunAround(s, a, "DA:" + long, b);
    RunAround(s, a, "DA:" + short, b);
    SameRecord(number, count, checksum);
  }

  lemma SameRecord(number: string, count: string, checksum: string)
    ensures forall t :: Step(t, Data([number] + ([count] + [checksum]))) == Step(t, Data([number, count]))
  {
  }

  const RECORDS := {"SF:", "DA:", "LF:", "LH:", "TN:", "FN:", "FNDA:", "FNF:", "FNH:", "BRDA:", "BRF:", "BRH:", "VER:"}

  /** Any other line is refused. */
  lemma UnknownLine(s: State, a: seq<string>, line: string, b: seq<string>)
    requires line != "" && line[0] != '#' && line != "end_of_record" && Run(s, a).Ok?
    requires forall prefix :: prefix in RECORDS ==> !StartsWith(line, prefix)
    ensures Run(s, a + [line] + b) == Err(UnknownRecord)
  {
    hide Run, StartsWith;
    forall k | 0 <= k < |DETAILS| ensures !StartsWith(line, DETAILS[k]) { assert DETAILS[k] in RECORDS; }
    assert Classify(line) == Unknown;
    hide Classify;
    RunAround(s, a, line, b);
  }
}
