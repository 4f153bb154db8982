/**
 The source-aware coverage gate: canonical file names, the comparison of every file, the
 attribution of deleted lines to deleted functions, and the ratio comparison at the end.
 */
module CoverageGate {
  import opened Prelude
  import opened Text
  import opened Correspondence
  import opened Deletion
  import LcovReport

  type Section = LcovReport.Section
  type Coverage = LcovReport.Coverage

  // ----- file identities -----

  /** The source files of a commit, by repository path. */
  datatype Sources = Sources(names: seq<string>, lines: map<string, seq<string>>) {
    ghost predicate Valid() {
      forall name :: name in names <==> name in lines
    }
  }

  predicate PathOk(path: string) {
    StartsWith(path, "/") && ".." !in SplitOn(path, '/') && '\\' !in path
  }

  /** The only repository path that ends the given absolute path, if there is exactly one. */
  function Canonical(path: string, sources: Sources): (r: Option<string>)
    ensures r.Some? ==> r.value in sources.names && EndsWith(path, "/" + r.value)
    ensures r.Some? ==> forall name :: name in sources.names && EndsWith(path, "/" + name) ==> name == r.value
  {
    if !PathOk(path) then None
    else
      var matches := Filter(sources.names, (name: string) => EndsWith(path, "/" + name));
      if |matches| != 1 then None
      else
        assert matches == [matches[0]];
        assert matches[0] in matches;
        Some(matches[0])
  }

  /** An absolute path in plain form, with no step to a parent directory. */
  ghost predicate PlainPath(path: string) {
    && path != "" && path[0] == '/' && '\\' !in path
    && !exists before, after :: PartAt(path, '/', before, "..", after)
  }

  ghost predicate EndsIn(path: string, name: string) {
    exists before :: path == before + "/" + name
  }

  /** One source and no other ends the path. */
  ghost predicate OnlyEnding(names: seq<string>, path: string, i: int) {
    0 <= i < |names| && EndsIn(path, names[i]) && forall j :: 0 <= j < |names| && j != i ==> !EndsIn(path, names[j])
  }

  lemma EndsInIs(path: string, name: string)
    ensures EndsWith(path, "/" + name) <==> EndsIn(path, name)
  {
    var tail := "/" + name;
    if EndsWith(path, tail) { assert path == path[..|path| - |tail|] + "/" + name; }
    if before :| path == before + "/" + name {
      assert path == before + tail;
      assert path[|path| - |tail|..] == tail;
    }
  }

  /** A path is identified exactly when it is absolute and plain and one source ends it. */
  lemma CanonicalExact(path: string, sources: Sources, name: string)
    ensures Canonical(path, sources) == Some(name) <==>
      PlainPath(path) && exists i :: OnlyEnding(sources.names, path, i) && sources.names[i] == name
  {
    var p := (n: string) => EndsWith(path, "/" + n);
    PartExact(path, '/', "..");
    assert PathOk(path) <==> PlainPath(path) by { if path != "" { assert path[..1] == [path[0]]; } }
    FilterSingle(sources.names, p);
    forall i ensures OnlyEnding(sources.names, path, i) <==> Sole(sources.names, p, i) {
      forall n ensures p(n) <==> EndsIn(path, n) { EndsInIs(path, n); }
    }
    hide PathOk, PlainPath, OnlyEnding;
    var matches := Filter(sources.names, p);
    assert Canonical(path, sources) == if !PathOk(path) || |matches| != 1 then None else Some(matches[0]);
    if |matches| == 1 {
      var i :| Sole(sources.names, p, i);
      assert OnlyEnding(sources.names, path, i);
    }
    if i :| OnlyEnding(sources.names, path, i) { assert Sole(sources.names, p, i); }
  }

  ghost predicate Injects(files: map<string, string>) {
    forall p, q :: p in files && q in files && files[p] == files[q] ==> p == q
  }

  ghost predicate Identified(paths: set<string>, sources: Sources, files: map<string, string>) {
    files.Keys == paths && forall p :: p in files ==> Canonical(p, sources) == Some(files[p])
  }

  /** The sections under their repository paths. */
  ghost predicate Renames(sections: map<string, Section>, files: map<string, string>, renamed: map<string, Section>) {
    && files.Keys == sections.Keys && Injects(files)
    && (forall p :: p in files ==> files[p] in renamed && renamed[files[p]] == sections[p])
    && (forall name :: name in renamed ==> exists p :: p in files && files[p] == name)
  }

  lemma RenamesRemove(sections: map<string, Section>, files: map<string, string>, renamed: map<string, Section>,
      p: string)
    requires Renames(sections, files, renamed) && p in sections
    ensures Renames(sections - {p}, files - {p}, renamed - {files[p]})
  {
    var s, f, r := sections - {p}, files - {p}, renamed - {files[p]};
    forall name | name in r ensures exists q :: q in f && f[q] == name {
      var q :| q in files && files[q] == name;
      assert q in f && f[q] == name;
    }
  }

  lemma {:induction false} SumRenamed(sections: map<string, Section>, files: map<string, string>,
      renamed: map<string, Section>, g: Section -> int)
    requires Renames(sections, files, renamed)
    ensures LcovReport.SumOf(renamed, g) == LcovReport.SumOf(sections, g)
    decreases |sections|
  {
    hide Renames, LcovReport.SumOf;
    if sections == map[] {
      NoneRenamed(sections, files, renamed);
      LcovReport.SumEmpty(sections, g);
      LcovReport.SumEmpty(renamed, g);
    } else {
      var p := SomeKey(sections);
      RenamesRemove(sections, files, renamed, p);
      Smaller(sections, p);
      SumRenamed(sections - {p}, files - {p}, renamed - {files[p]}, g) by { AtPath(sections, files, renamed, p); }
      AtPath(sections, files, renamed, p);
      LcovReport.SumAdd(sections - {p}, p, sections[p], g);
      LcovReport.SumAdd(renamed - {files[p]}, files[p], sections[p], g);
      assert (sections - {p})[p := sections[p]] == sections;
      assert (renamed - {files[p]})[files[p] := sections[p]] == renamed;
    }
  }

  lemma Smaller(m: map<string, Section>, p: string)
    requires p in m
    ensures |m - {p}| < |m|
  {
    assert m.Keys == (m - {p}).Keys + {p};
  }

  lemma AtPath(sections: map<string, Section>, files: map<string, string>, renamed: map<string, Section>, p: string)
    requires Renames(sections, files, renamed) && p in sections
    ensures p in files && files[p] in renamed && renamed[files[p]] == sections[p]
  {
  }

  lemma NoneRenamed(sections: map<string, Section>, files: map<string, string>, renamed: map<string, Section>)
    requires Renames(sections, files, renamed) && sections == map[]
    ensures renamed == map[]
  {
    if renamed != map[] {
      var name := SomeKey(renamed);
      assert false;
    }
  }

  // ----- figures and ratios -----

  datatype Figures = Figures(found: int, hit: int, mapped: int, mappedHit: int)

  function FiguresOf(c: Coverage): Figures {
    Figures(c.found, c.hit, c.mapped, c.mappedHit)
  }

  predicate FiguresOk(f: Figures) {
    0 <= f.hit <= f.found && 0 <= f.mappedHit <= f.mapped
  }

  predicate Meets(base: Figures, head: Figures) {
    head.hit * base.found >= base.hit * head.found && head.mappedHit * base.mapped >= base.mappedHit * head.mapped
  }

  predicate NoRegression(base: Figures, head: Figures) {
    FiguresOk(base) && FiguresOk(head) && Meets(base, head)
  }

  lemma RatioTransitive(ha: int, fa: int, hb: int, fb: int, hc: int, fc: int)
    requires 0 <= fa && 0 < fb && 0 <= fc && hb * fa >= ha * fb && hc * fb >= hb * fc
    ensures hc * fa >= ha * fc
  {
    assert (hc * fb) * fa >= (hb * fc) * fa;
    assert (hb * fa) * fc >= (ha * fb) * fc;
    assert fb * (hc * fa) >= fb * (ha * fc);
    Cancel(fb, hc * fa, ha * fc);
  }

  lemma Cancel(k: int, a: int, b: int)
    requires k > 0 && k * a >= k * b
    ensures a >= b
  {
    assert a < b ==> k * (b - a) > 0;
  }

  lemma NoRegressionTransitive(a: Figures, b: Figures, c: Figures)
    requires b.found > 0 && b.mapped > 0 && NoRegression(a, b) && NoRegression(b, c)
    ensures NoRegression(a, c)
  {
    RatioTransitive(a.hit, a.found, b.hit, b.found, c.hit, c.found);
    RatioTransitive(a.mappedHit, a.mapped, b.mappedHit, b.mapped, c.mappedHit, c.mapped);
  }

  /** A middle report that carries every comparison on. */
  ghost predicate CarriesOver(b: Figures) {
    forall a, c :: NoRegression(a, b) && NoRegression(b, c) ==> NoRegression(a, c)
  }

  /** The comparison is reflexive, and transitive through exactly the reports that measure both kinds of line. */
  lemma NoRegressionIsAPreorder(b: Figures)
    requires FiguresOk(b)
    ensures NoRegression(b, b)
    ensures CarriesOver(b) <==> b.found > 0 && b.mapped > 0
  {
    if b.found > 0 && b.mapped > 0 {
      forall a, c | NoRegression(a, b) && NoRegression(b, c) ensures NoRegression(a, c) {
        NoRegressionTransitive(a, b, c);
      }
    } else if b.found == 0 {
      var a, c := Figures(1, 1, b.mapped, b.mappedHit), Figures(1, 0, b.mapped, b.mappedHit);
      assert NoRegression(a, b) && NoRegression(b, c) && !NoRegression(a, c);
    } else {
      var a, c := Figures(b.found, b.hit, 1, 1), Figures(b.found, b.hit, 1, 0);
      assert NoRegression(a, b) && NoRegression(b, c) && !NoRegression(a, c);
    }
  }

  /** Every report the reader accepts can stand in the middle, so along a series of accepted commits nothing is lost. */
  lemma AcceptedReportsCarryOver(text: string)
    requires LcovReport.Read(text).Ok?
    ensures CarriesOver(FiguresOf(LcovReport.Read(text).value))
  {
    hide LcovReport.Read, LcovReport.Totals, LcovReport.SectionsOk, CarriesOver;
    LcovReport.AcceptedIsWellFormed(text);
    var c := LcovReport.Read(text).value;
    AcceptedFigures(c);
    NoRegressionIsAPreorder(FiguresOf(c));
  }

  lemma AcceptedFigures(c: Coverage)
    requires LcovReport.WellFormed(c)
    ensures FiguresOk(FiguresOf(c))
  {
    hide LcovReport.SumOf;
    LcovReport.TotalsBounded(c.sections);
  }

  // ----- one side of the comparison -----

  datatype Side = Side(coverage: Coverage, files: map<string, string>, sections: map<string, Section>,
                       functions: seq<Function>, lines: map<string, seq<string>>) {
    ghost predicate Valid() {
      && LcovReport.WellFormed(coverage) && Renames(coverage.sections, files, sections)
      && forall name :: name in sections ==> name in lines
    }
  }

  lemma SideFigures(s: Side)
    requires s.Valid()
    ensures LcovReport.SectionsOk(s.sections) && FiguresOk(FiguresOf(s.coverage))
    ensures LcovReport.Totals(s.sections, s.coverage.found, s.coverage.hit, s.coverage.mapped, s.coverage.mappedHit)
  {
    hide LcovReport.SumOf;
    var c := s.coverage;
    AcceptedFigures(c);
    SumRenamed(c.sections, s.files, s.sections, LcovReport.Lf);
    SumRenamed(c.sections, s.files, s.sections, LcovReport.Lh);
    SumRenamed(c.sections, s.files, s.sections, LcovReport.Mapped);
    SumRenamed(c.sections, s.files, s.sections, LcovReport.MappedHit);
    forall name | name in s.sections ensures LcovReport.SectionOk(s.sections[name]) {
      var p :| p in s.files && s.files[p] == name;
      assert LcovReport.SectionOk(c.sections[p]);
    }
  }

  // ----- all files -----

  type Diffs = map<string, seq<Op>>

  function ContextOf(base: Side, head: Side, name: string): Context
    requires name in base.sections && name in head.sections && name in base.lines && name in head.lines
  {
    Context(name, base.lines[name], head.lines[name], base.sections[name].counts, head.sections[name].counts,
            base.files, head.files, base.functions, head.functions)
  }

  /** Both sides cover the same files, and there is a diff for each. */
  ghost predicate Comparable(base: Side, head: Side, diffs: Diffs) {
    && base.Valid() && head.Valid() && base.sections.Keys == head.sections.Keys && base.sections.Keys <= diffs.Keys
    && forall name :: name in base.sections ==> ValidOps(base.lines[name], head.lines[name], diffs[name])
  }

  lemma DiffInside(base: Side, head: Side, diffs: Diffs, name: string)
    requires Comparable(base, head, diffs) && name in base.sections
    ensures name in head.sections && name in base.lines && name in head.lines && name in diffs
    ensures OpsInside(ContextOf(base, head, name), diffs[name])
  {
    var was, now, ops := base.lines[name], head.lines[name], diffs[name];
    ValidOrdered(was, now, ops);
    forall k | 0 <= k < |ops| ensures ops[k].b <= |was| { OpAt(was, now, ops, k); }
  }

  ghost function FileOutcome(base: Side, head: Side, diffs: Diffs, name: string): Option<Pairing>
    requires Comparable(base, head, diffs) && name in base.sections
  {
    DiffInside(base, head, diffs, name);
    Compared(ContextOf(base, head, name), OwnersOf(base.functions, base.files, name), diffs[name])
  }

  ghost predicate FilesAccepted(base: Side, head: Side, diffs: Diffs)
    requires Comparable(base, head, diffs)
  {
    forall name :: name in base.sections ==> FileOutcome(base, head, diffs, name).Some?
  }

  ghost function RemovedLines(base: Side, head: Side, diffs: Diffs): map<string, set<int>>
    requires Comparable(base, head, diffs) && FilesAccepted(base, head, diffs)
  {
    map name | name in base.sections :: FileOutcome(base, head, diffs, name).value.gone
  }

  function GoneLines(counts: Counts, gone: set<int>): set<nat> {
    set l | l in counts && l in gone
  }

  function GoneHits(counts: Counts, gone: set<int>): set<nat> {
    set l | l in counts && l in gone && counts[l] > 0
  }

  ghost function GoneCounts(sections: map<string, Section>, names: set<string>,
      removed: map<string, set<int>>): map<string, int> {
    map name | name in names && name in sections && name in removed :: |GoneLines(sections[name].counts, removed[name])|
  }

  ghost function GoneHitCounts(sections: map<string, Section>, names: set<string>,
      removed: map<string, set<int>>): map<string, int> {
    map name | name in names && name in sections && name in removed :: |GoneHits(sections[name].counts, removed[name])|
  }

  lemma GoneStep(sections: map<string, Section>, names: set<string>, removed: map<string, set<int>>, name: string,
      gone: set<int>)
    requires name in sections && name !in names && name !in removed
    ensures Total(GoneCounts(sections, names + {name}, removed[name := gone])) ==
      Total(GoneCounts(sections, names, removed)) + |GoneLines(sections[name].counts, gone)|
  {
    hide GoneLines;
    TotalInsert(GoneCounts(sections, names, removed), name, |GoneLines(sections[name].counts, gone)|);
    assert GoneCounts(sections, names + {name}, removed[name := gone])
        == GoneCounts(sections, names, removed)[name := |GoneLines(sections[name].counts, gone)|];
  }

  lemma GoneHitStep(sections: map<string, Section>, names: set<string>, removed: map<string, set<int>>, name: string,
      gone: set<int>)
    requires name in sections && name !in names && name !in removed
    ensures Total(GoneHitCounts(sections, names + {name}, removed[name := gone])) ==
      Total(GoneHitCounts(sections, names, removed)) + |GoneHits(sections[name].counts, gone)|
  {
    hide GoneHits;
    TotalInsert(GoneHitCounts(sections, names, removed), name, |GoneHits(sections[name].counts, gone)|);
    assert GoneHitCounts(sections, names + {name}, removed[name := gone])
        == GoneHitCounts(sections, names, removed)[name := |GoneHits(sections[name].counts, gone)|];
  }

  ghost predicate Progress(base: Side, head: Side, diffs: Diffs, done: set<string>, removed: map<string, set<int>>,
      mapped: int, hit: int)
    requires Comparable(base, head, diffs) && done <= base.sections.Keys
  {
    && removed.Keys == done
    && (forall name :: name in done ==>
          var r := FileOutcome(base, head, diffs, name); r.Some? && removed[name] == r.value.gone)
    && mapped == Total(GoneCounts(base.sections, done, removed))
    && hit == Total(GoneHitCounts(base.sections, done, removed))
  }

  lemma ProgressStep(base: Side, head: Side, diffs: Diffs, done: set<string>, removed: map<string, set<int>>,
      mapped: int, hit: int, name: string)
    requires Comparable(base, head, diffs) && done <= base.sections.Keys
    requires Progress(base, head, diffs, done, removed, mapped, hit)
    requires name in base.sections && name !in done && FileOutcome(base, head, diffs, name).Some?
    ensures var gone := FileOutcome(base, head, diffs, name).value.gone;
      var counts := base.sections[name].counts;
      Progress(base, head, diffs, done + {name}, removed[name := gone],
               mapped + |GoneLines(counts, gone)|, hit + |GoneHits(counts, gone)|)
  {
    hide GoneLines, GoneHits, Comparable, FileOutcome, GoneCounts, GoneHitCounts, Total;
    var gone := FileOutcome(base, head, diffs, name).value.gone;
    GoneStep(base.sections, done, removed, name, gone);
    GoneHitStep(base.sections, done, removed, name, gone);
  }

  lemma ProgressDone(base: Side, head: Side, diffs: Diffs, removed: map<string, set<int>>, mapped: int, hit: int)
    requires Comparable(base, head, diffs) && Progress(base, head, diffs, base.sections.Keys, removed, mapped, hit)
    ensures FilesAccepted(base, head, diffs) && removed == RemovedLines(base, head, diffs)
  {
    hide FileOutcome, Comparable, GoneCounts, GoneHitCounts, Total;
  }

  /** The loop over the files: the lines that are gone, and how many of them were instrumented and hit. */
  method CompareFiles(base: Side, head: Side, diffs: Diffs)
      returns (ok: bool, removed: map<string, set<int>>, deletedMapped: int, deletedHit: int)
    requires Comparable(base, head, diffs)
    ensures ok <==> FilesAccepted(base, head, diffs)
    ensures ok ==> removed == RemovedLines(base, head, diffs)
    ensures ok ==> deletedMapped == Total(GoneCounts(base.sections, base.sections.Keys, removed))
    ensures ok ==> deletedHit == Total(GoneHitCounts(base.sections, base.sections.Keys, removed))
  {
    hide GoneLines, GoneHits, Comparable, FileOutcome, Side.Valid, Total, GoneCounts, GoneHitCounts;
    ok, removed, deletedMapped, deletedHit := true, map[], 0, 0;
    var left := base.sections.Keys;
    ghost var done: set<string> := {};
    NothingGone(base.sections);
    while left != {}
      invariant done + left == base.sections.Keys && done !! left
      invariant Progress(base, head, diffs, done, removed, deletedMapped, deletedHit)
      decreases left
    {
      hide Progress;
      var name :| name in left;
      DiffInside(base, head, diffs, name);
      var r := CompareFile(ContextOf(base, head, name), OwnersOf(base.functions, base.files, name), diffs[name]);
      OutcomeIs(base, head, diffs, name);
      if r.None? {
        ok := false;
        return;
      }
      ProgressStep(base, head, diffs, done, removed, deletedMapped, deletedHit, name);
      removed := removed[name := r.value.gone];
      deletedMapped := deletedMapped + |GoneLines(base.sections[name].counts, r.value.gone)|;
      deletedHit := deletedHit + |GoneHits(base.sections[name].counts, r.value.gone)|;
      left, done := left - {name}, done + {name};
    }
    assert done == base.sections.Keys;
    ProgressDone(base, head, diffs, removed, deletedMapped, deletedHit);
  }

  lemma NothingGone(sections: map<string, Section>)
    ensures Total(GoneCounts(sections, {}, map[])) == 0 && Total(GoneHitCounts(sections, {}, map[])) == 0
  {
    TotalZero(GoneCounts(sections, {}, map[]));
    TotalZero(GoneHitCounts(sections, {}, map[]));
  }

  lemma OutcomeIs(base: Side, head: Side, diffs: Diffs, name: string)
    requires Comparable(base, head, diffs) && name in base.sections
    ensures name in head.sections && name in base.lines && name in head.lines && name in diffs
    ensures OpsInside(ContextOf(base, head, name), diffs[name])
    ensures FileOutcome(base, head, diffs, name) ==
      Compared(ContextOf(base, head, name), OwnersOf(base.functions, base.files, name), diffs[name])
  {
    hide Compared;
    DiffInside(base, head, diffs, name);
  }

  // ----- the final comparison -----

  function Kept(counts: Counts, gone: set<int>): Counts {
    map l | l in counts && l !in gone :: counts[l]
  }

  /**
   The deleted lines of a file are all attributed, and its head figures are its base figures less
   what was taken off.
   */
  predicate Balanced(before: Section, after: Section, gone: set<int>, accounted: set<int>, found: int, hit: int) {
    && GoneLines(before.counts, gone) <= accounted
    && (found != 0 ==>
          && 0 <= hit <= found <= before.lf && hit <= before.lh
          && after.lf == before.lf - found && after.lh == before.lh - hit
          && |after.counts| == |Kept(before.counts, gone)|
          && |LcovReport.HitLines(after.counts)| == |LcovReport.HitLines(Kept(before.counts, gone))|)
  }

  function DeletionBase(base: Side, head: Side, removed: map<string, set<int>>): Base {
    var counts := map name | name in base.sections :: base.sections[name].counts;
    Base(base.functions, head.functions, base.files, counts, removed)
  }

  lemma DeletionBaseValid(base: Side, head: Side, removed: map<string, set<int>>)
    requires base.Valid() && removed.Keys == base.sections.Keys
    ensures DeletionBase(base, head, removed).Valid()
    ensures DeletionBase(base, head, removed).counts.Keys == base.sections.Keys
    ensures DeletionBase(base, head, removed).functions == base.functions
  {
  }

  predicate FileBalanced(base: Side, head: Side, removed: map<string, set<int>>, acc: Acc, name: string)
    requires name in base.sections && name in head.sections && name in removed
    requires name in acc.accounted && name in acc.found && name in acc.hit
  {
    Balanced(base.sections[name], head.sections[name], removed[name],
             acc.accounted[name], acc.found[name], acc.hit[name])
  }

  ghost predicate AllBalanced(base: Side, head: Side, removed: map<string, set<int>>, acc: Acc)
    requires base.sections.Keys == head.sections.Keys == removed.Keys && acc.Over(base.sections.Keys)
  {
    forall name :: name in base.sections ==>
      FileBalanced(base, head, removed, acc, name)
  }

  ghost function Normalized(base: Side, removed: map<string, set<int>>, acc: Acc): Figures {
    Figures(base.coverage.found - acc.totalFound, base.coverage.hit - acc.totalHit,
            base.coverage.mapped - Total(GoneCounts(base.sections, base.sections.Keys, removed)),
            base.coverage.mappedHit - Total(GoneHitCounts(base.sections, base.sections.Keys, removed)))
  }

  datatype Deductions = Deductions(found: int, hit: int, mapped: int, mappedHit: int)

  /** The decision once the deleted lines are known. */
  ghost function Decision(base: Side, head: Side, removed: map<string, set<int>>): Option<Deductions>
    requires base.Valid() && base.sections.Keys == head.sections.Keys == removed.Keys
  {
    DeletionBaseValid(base, head, removed);
    if Meets(FiguresOf(base.coverage), FiguresOf(head.coverage)) then
      if NoRegression(FiguresOf(base.coverage), FiguresOf(head.coverage)) then Some(Deductions(0, 0, 0, 0)) else None
    else
      match Account(DeletionBase(base, head, removed), base.functions)
      case None => None
      case Some(acc) =>
        var n := Normalized(base, removed, acc);
        if !AllBalanced(base, head, removed, acc) || n.found <= 0 || n.mapped <= 0
           || !NoRegression(n, FiguresOf(head.coverage)) then None
        else
          Some(Deductions(acc.totalFound, acc.totalHit,
                          base.coverage.mapped - n.mapped, base.coverage.mappedHit - n.mappedHit))
  }

  ghost function Gated(base: Side, head: Side, diffs: Diffs): Option<Deductions>
    requires Comparable(base, head, diffs)
  {
    if !FilesAccepted(base, head, diffs) then None
    else Decision(base, head, RemovedLines(base, head, diffs))
  }

  method CheckBalance(base: Side, head: Side, removed: map<string, set<int>>, acc: Acc) returns (ok: bool)
    requires base.sections.Keys == head.sections.Keys == removed.Keys && acc.Over(base.sections.Keys)
    ensures ok <==> AllBalanced(base, head, removed, acc)
  {
    hide Balanced;
    var left := base.sections.Keys;
    while left != {}
      invariant left <= base.sections.Keys
      invariant forall name :: name in base.sections && name !in left ==>
        FileBalanced(base, head, removed, acc, name)
      decreases left
    {
      var name :| name in left;
      if !FileBalanced(base, head, removed, acc, name) {
        return false;
      }
      left := left - {name};
    }
    return true;
  }

  /** `require_source_no_regression`, once the reports have been read. */
  method RequireNoRegression(base: Side, head: Side, diffs: Diffs) returns (r: Option<Deductions>)
    requires Comparable(base, head, diffs)
    ensures r == Gated(base, head, diffs)
    ensures GateAnswers(base, head, diffs, r)
  {
    hide FilesAccepted, RemovedLines, Account, AllBalanced, GoneCounts, GoneHitCounts, Total, NoRegression, Meets;
    hide Side.Valid, Comparable, Base.Valid, DeletionBase, GateAnswers;
    GateExact(base, head, diffs);
    ComparableSides(base, head, diffs);
    var ok, removed, deletedMapped, deletedHit := CompareFiles(base, head, diffs);
    if !ok { return None; }
    var b, h := FiguresOf(base.coverage), FiguresOf(head.coverage);
    RemovedFiles(base, head, diffs);
    DeletionBaseValid(base, head, removed);
    if Meets(b, h) {
      return if NoRegression(b, h) then Some(Deductions(0, 0, 0, 0)) else None;
    }
    var acc := AccountAll(DeletionBase(base, head, removed));
    if acc.None? { return None; }
    var balanced := CheckBalance(base, head, removed, acc.value);
    if !balanced { return None; }
    var n := Figures(b.found - acc.value.totalFound, b.hit - acc.value.totalHit,
                     b.mapped - deletedMapped, b.mappedHit - deletedHit);
    if n.found <= 0 || n.mapped <= 0 || !NoRegression(n, h) { return None; }
    r := Some(Deductions(acc.value.totalFound, acc.value.totalHit, deletedMapped, deletedHit));
  }

  lemma ComparableSides(base: Side, head: Side, diffs: Diffs)
    requires Comparable(base, head, diffs)
    ensures base.Valid() && head.Valid() && base.sections.Keys == head.sections.Keys
  {
  }

  lemma RemovedFiles(base: Side, head: Side, diffs: Diffs)
    requires Comparable(base, head, diffs) && FilesAccepted(base, head, diffs)
    ensures RemovedLines(base, head, diffs).Keys == base.sections.Keys
  {
  }

  // ----- the normalised figures are always figures -----

  lemma KeptFigures(counts: Counts, gone: set<int>)
    ensures 0 <= |LcovReport.HitLines(counts)| - |GoneHits(counts, gone)| <= |counts| - |GoneLines(counts, gone)|
  {
    var lines, hits := counts.Keys, LcovReport.HitLines(counts);
    var goneLines, goneHits := GoneLines(counts, gone), GoneHits(counts, gone);
    assert |hits - goneHits| == |hits| - |goneHits| by { SubsetSize(goneHits, hits); }
    assert |lines - goneLines| == |lines| - |goneLines| by { SubsetSize(goneLines, lines); }
    SubsetSize(hits - goneHits, lines - goneLines);
  }

  lemma FileFigures(before: Section, after: Section, gone: set<int>, accounted: set<int>, found: int, hit: int)
    requires Balanced(before, after, gone, accounted, found, hit) && 0 <= hit <= found
    requires LcovReport.SectionOk(before) && LcovReport.SectionOk(after)
    ensures 0 <= before.lh - hit <= before.lf - found
  {
  }

  lemma FileSummary(base: Side, head: Side, removed: map<string, set<int>>, acc: Acc, name: string)
    requires base.sections.Keys == head.sections.Keys == removed.Keys && LcovReport.SectionsOk(base.sections)
    requires LcovReport.SectionsOk(head.sections)
    requires acc.Over(base.sections.Keys) && Summed(acc) && AllBalanced(base, head, removed, acc)
    requires name in base.sections
    ensures var lh, lf := LcovReport.Each(base.sections, LcovReport.Lh), LcovReport.Each(base.sections, LcovReport.Lf);
      0 <= lh[name] - acc.hit[name] <= lf[name] - acc.found[name]
  {
    hide Balanced, LcovReport.SectionOk, Total;
    FileFigures(base.sections[name], head.sections[name], removed[name], acc.accounted[name], acc.found[name],
      acc.hit[name]);
  }

  lemma SummaryFigures(base: Side, head: Side, removed: map<string, set<int>>, acc: Acc)
    requires base.Valid() && head.Valid() && base.sections.Keys == head.sections.Keys == removed.Keys
    requires acc.Over(base.sections.Keys) && Summed(acc) && AllBalanced(base, head, removed, acc)
    ensures var n := Normalized(base, removed, acc); 0 <= n.hit <= n.found
  {
    hide AllBalanced, Side.Valid, GoneCounts, GoneHitCounts, LcovReport.SectionsOk, Total, LcovReport.SumOf;
    hide LcovReport.Each;
    SideFigures(base);
    SideFigures(head);
    var s := base.sections;
    var lf, lh := LcovReport.Each(s, LcovReport.Lf), LcovReport.Each(s, LcovReport.Lh);
    LcovReport.SumOfEach(s, LcovReport.Lf);
    LcovReport.SumOfEach(s, LcovReport.Lh);
    forall k | k in lh ensures 0 <= lh[k] - acc.hit[k] <= lf[k] - acc.found[k] {
      FileSummary(base, head, removed, acc, k);
    }
    TotalsAfterDeduction(lh, acc.hit, lf, acc.found);
  }

  lemma FileMapped(sections: map<string, Section>, removed: map<string, set<int>>, name: string)
    requires sections.Keys == removed.Keys && name in sections
    ensures var m, h := LcovReport.Each(sections, LcovReport.Mapped), LcovReport.Each(sections, LcovReport.MappedHit);
      var gm, gh := GoneCounts(sections, sections.Keys, removed), GoneHitCounts(sections, sections.Keys, removed);
      name in gm && name in gh && 0 <= h[name] - gh[name] <= m[name] - gm[name]
  {
    hide GoneLines, GoneHits, LcovReport.HitLines;
    KeptFigures(sections[name].counts, removed[name]);
  }

  lemma GoneFiles(sections: map<string, Section>, removed: map<string, set<int>>)
    requires sections.Keys == removed.Keys
    ensures GoneCounts(sections, sections.Keys, removed).Keys == sections.Keys
    ensures GoneHitCounts(sections, sections.Keys, removed).Keys == sections.Keys
  {
  }

  lemma MappedFigures(base: Side, removed: map<string, set<int>>, acc: Acc)
    requires base.Valid() && base.sections.Keys == removed.Keys
    ensures var n := Normalized(base, removed, acc); 0 <= n.mappedHit <= n.mapped
  {
    hide Side.Valid, GoneCounts, GoneHitCounts, Total, LcovReport.SectionsOk, LcovReport.SumOf, LcovReport.Each;
    SideFigures(base);
    var s := base.sections;
    var m, h := LcovReport.Each(s, LcovReport.Mapped), LcovReport.Each(s, LcovReport.MappedHit);
    LcovReport.SumOfEach(s, LcovReport.Mapped);
    LcovReport.SumOfEach(s, LcovReport.MappedHit);
    var gm, gh := GoneCounts(s, s.Keys, removed), GoneHitCounts(s, s.Keys, removed);
    GoneFiles(s, removed);
    forall k | k in h ensures 0 <= h[k] - gh[k] <= m[k] - gm[k] {
      FileMapped(s, removed, k);
    }
    TotalsAfterDeduction(h, gh, m, gm);
  }

  /**
   Whenever the deductions reach the final comparison, what is left is a possible report: the
   validity check there never fires.
   */
  lemma NormalizedIsValid(base: Side, head: Side, removed: map<string, set<int>>, acc: Acc)
    requires base.Valid() && head.Valid() && base.sections.Keys == head.sections.Keys == removed.Keys
    requires DeletionBase(base, head, removed).Valid()
    requires Account(DeletionBase(base, head, removed), base.functions) == Some(acc)
    requires acc.Over(base.sections.Keys) && AllBalanced(base, head, removed, acc)
    ensures FiguresOk(Normalized(base, removed, acc)) && FiguresOk(FiguresOf(head.coverage))
  {
    hide AllBalanced, Account, Side.Valid, Normalized;
    AccountSummed(DeletionBase(base, head, removed), base.functions);
    SummaryFigures(base, head, removed, acc);
    MappedFigures(base, removed, acc);
    SideFigures(head);
  }

  /** If the plain ratios hold, the gate accepts without deductions; only the per-file comparison can refuse. */
  lemma PlainRatiosSuffice(base: Side, head: Side, diffs: Diffs)
    requires Comparable(base, head, diffs) && Meets(FiguresOf(base.coverage), FiguresOf(head.coverage))
    ensures Gated(base, head, diffs) == if FilesAccepted(base, head, diffs) then Some(Deductions(0, 0, 0, 0)) else None
  {
    hide FilesAccepted, RemovedLines, Meets, Side.Valid;
    SideFigures(base);
    SideFigures(head);
    if FilesAccepted(base, head, diffs) { RemovedFiles(base, head, diffs); }
  }

  // ----- what acceptance means -----

  /** Every deleted instrumented line belongs to a function that is gone as a whole. */
  ghost predicate DeletionsOwned(base: Side, head: Side, removed: map<string, set<int>>)
    requires base.Valid() && base.sections.Keys == head.sections.Keys == removed.Keys
  {
    DeletionBaseValid(base, head, removed);
    var b := DeletionBase(base, head, removed);
    forall name, l :: name in base.sections && l in base.sections[name].counts && l in removed[name] ==>
      Owned(b, base.functions, name, l)
  }

  lemma OwnedDeletions(base: Side, head: Side, removed: map<string, set<int>>, acc: Acc)
    requires base.Valid() && base.sections.Keys == head.sections.Keys == removed.Keys
    requires DeletionBase(base, head, removed).Valid()
    requires Account(DeletionBase(base, head, removed), base.functions) == Some(acc)
    requires acc.Over(base.sections.Keys) && AllBalanced(base, head, removed, acc)
    ensures DeletionsOwned(base, head, removed)
  {
    hide Account, Owned, Side.Valid, Base.Valid, AllBalanced, DeletionBase;
    DeletionBaseValid(base, head, removed);
    var b := DeletionBase(base, head, removed);
    forall name, l | name in base.sections && l in base.sections[name].counts && l in removed[name]
      ensures Owned(b, base.functions, name, l)
    {
      Explained(base, head, removed, acc, name, l);
      AccountedIsOwned(b, base.functions, name, l);
    }
  }

  lemma Explained(base: Side, head: Side, removed: map<string, set<int>>, acc: Acc, name: string, l: int)
    requires base.sections.Keys == head.sections.Keys == removed.Keys && acc.Over(base.sections.Keys)
    requires AllBalanced(base, head, removed, acc)
    requires name in base.sections && l in base.sections[name].counts && l in removed[name]
    ensures l in acc.accounted[name]
  {
    assert l in GoneLines(base.sections[name].counts, removed[name]);
  }

  /** Every base function that touches a deleted line is gone from the head, with all its lines. */
  ghost predicate DeletionsWhole(base: Side, head: Side, removed: map<string, set<int>>)
    requires base.Valid() && base.sections.Keys == head.sections.Keys == removed.Keys
  {
    DeletionBaseValid(base, head, removed);
    var b := DeletionBase(base, head, removed);
    forall f :: f in base.functions && Affected(b, f) ==> exists name :: name in b.counts && Whole(b, f, name)
  }

  lemma WholeDeletions(base: Side, head: Side, removed: map<string, set<int>>)
    requires base.Valid() && base.sections.Keys == head.sections.Keys == removed.Keys
    requires DeletionBase(base, head, removed).Valid()
    requires Account(DeletionBase(base, head, removed), base.functions).Some?
    ensures DeletionsWhole(base, head, removed)
  {
    hide Account, Affected, Whole, Side.Valid, Base.Valid, DeletionBase;
    DeletionBaseValid(base, head, removed);
    var b := DeletionBase(base, head, removed);
    forall f | f in base.functions && Affected(b, f) ensures exists name :: name in b.counts && Whole(b, f, name) {
      TouchedIsWhole(b, base.functions, f);
    }
  }

  /** The two ways past the final comparison. */
  ghost predicate Passes(base: Side, head: Side, removed: map<string, set<int>>)
    requires base.Valid() && base.sections.Keys == head.sections.Keys == removed.Keys
  {
    || NoRegression(FiguresOf(base.coverage), FiguresOf(head.coverage))
    || (DeletionsOwned(base, head, removed) && DeletionsWhole(base, head, removed) && Outweighs(base, head, removed))
  }

  /** The head does not regress against what is left of the base. */
  ghost predicate Outweighs(base: Side, head: Side, removed: map<string, set<int>>)
    requires base.Valid() && base.sections.Keys == head.sections.Keys == removed.Keys
  {
    exists n: Figures ::
      n.found > 0 && n.mapped > 0 && NoRegression(n, FiguresOf(head.coverage)) && Deducts(base, head, removed, n)
  }

  /** The figures of the base less those of its deleted functions and lines, file by file. */
  ghost predicate Deducts(base: Side, head: Side, removed: map<string, set<int>>, n: Figures)
    requires base.Valid() && base.sections.Keys == head.sections.Keys == removed.Keys
  {
    DeletionBaseValid(base, head, removed);
    var acc := Account(DeletionBase(base, head, removed), base.functions);
    acc.Some? && AllBalanced(base, head, removed, acc.value) && n == Normalized(base, removed, acc.value)
  }

  /**
   Acceptance, for any diffs: every file has a sound line correspondence, and either neither
   ratio fell, or every deleted instrumented line belongs to a wholly deleted function, every
   function that touches a deleted line is wholly deleted, and neither ratio fell below that of
   the base without those functions.
   */
  lemma GateIsSound(base: Side, head: Side, diffs: Diffs)
    requires Comparable(base, head, diffs) && Gated(base, head, diffs).Some?
    ensures FilesAccepted(base, head, diffs)
    ensures forall name :: name in base.sections ==> FileSound(base, head, diffs, name)
    ensures RemovedLines(base, head, diffs).Keys == base.sections.Keys
    ensures Passes(base, head, RemovedLines(base, head, diffs))
  {
    hide Sound, FileOutcome, FileSound, NoRegression, Account, AllBalanced, Side.Valid, Passes, RemovedLines;
    hide Comparable, DeletionBase, Base.Valid;
    ComparableSides(base, head, diffs);
    forall name | name in base.sections ensures FileSound(base, head, diffs, name) {
      FileIsSound(base, head, diffs, name);
    }
    RemovedFiles(base, head, diffs);
    DecisionPasses(base, head, RemovedLines(base, head, diffs));
  }

  lemma DecisionPasses(base: Side, head: Side, removed: map<string, set<int>>)
    requires base.Valid() && base.sections.Keys == head.sections.Keys == removed.Keys
    requires Decision(base, head, removed).Some?
    ensures Passes(base, head, removed)
  {
    hide NoRegression, Account, AllBalanced, Side.Valid, DeletionsOwned, DeletionsWhole, Base.Valid, DeletionBase;
    hide Normalized;
    DeletionBaseValid(base, head, removed);
    if !Meets(FiguresOf(base.coverage), FiguresOf(head.coverage)) {
      var acc := Account(DeletionBase(base, head, removed), base.functions).value;
      OwnedDeletions(base, head, removed, acc);
      WholeDeletions(base, head, removed);
      assert Deducts(base, head, removed, Normalized(base, removed, acc));
    }
  }

  // ----- exactly which deletions are accepted -----

  /** The head figures of a file are its base figures less what was taken off, and less the lines that are gone. */
  ghost predicate Moved(before: Section, after: Section, gone: set<int>, found: int, hit: int) {
    && after.lf + found == before.lf && after.lh + hit == before.lh
    && |after.counts| + |GoneLines(before.counts, gone)| == |before.counts|
    && |LcovReport.HitLines(after.counts)| + |GoneHits(before.counts, gone)| == |LcovReport.HitLines(before.counts)|
  }

  lemma KeptSizes(counts: Counts, gone: set<int>)
    ensures |Kept(counts, gone)| == |counts| - |GoneLines(counts, gone)|
    ensures |LcovReport.HitLines(Kept(counts, gone))| == |LcovReport.HitLines(counts)| - |GoneHits(counts, gone)|
  {
    var lines, hits := GoneLines(counts, gone), GoneHits(counts, gone);
    assert Kept(counts, gone).Keys == counts.Keys - lines;
    assert |counts.Keys - lines| == |counts.Keys| - |lines| by { assert lines <= counts.Keys; }
    var all := LcovReport.HitLines(counts);
    assert LcovReport.HitLines(Kept(counts, gone)) == all - hits;
    assert |all - hits| == |all| - |hits| by { assert hits <= all; }
  }

  /** The balance of a file, without the checks that cannot fail. */
  lemma BalancedExact(before: Section, after: Section, gone: set<int>, accounted: set<int>, found: int, hit: int)
    requires 0 <= hit <= found
    ensures Balanced(before, after, gone, accounted, found, hit) <==>
      GoneLines(before.counts, gone) <= accounted && (found > 0 ==> Moved(before, after, gone, found, hit))
  {
    hide GoneLines, GoneHits, Kept, LcovReport.HitLines;
    KeptSizes(before.counts, gone);
  }

  ghost function TakenLines(b: Base): (m: map<string, int>)
    requires b.Valid()
    ensures m.Keys == b.counts.Keys
  {
    map name | name in b.counts :: LinesTaken(b, b.functions, name)
  }

  ghost function TakenHits(b: Base): (m: map<string, int>)
    requires b.Valid()
    ensures m.Keys == b.counts.Keys
  {
    map name | name in b.counts :: HitsTaken(b, b.functions, name)
  }

  /** What is taken off: the lines and hits of the deleted functions, and the deleted instrumented and hit lines. */
  ghost function DeductionsFor(base: Side, head: Side, removed: map<string, set<int>>): Deductions
    requires base.Valid() && base.sections.Keys == head.sections.Keys == removed.Keys
  {
    DeletionBaseValid(base, head, removed);
    var b := DeletionBase(base, head, removed);
    Deductions(Total(TakenLines(b)), Total(TakenHits(b)), Total(GoneCounts(base.sections, base.sections.Keys, removed)),
               Total(GoneHitCounts(base.sections, base.sections.Keys, removed)))
  }

  ghost function Left(f: Figures, d: Deductions): Figures {
    Figures(f.found - d.found, f.hit - d.hit, f.mapped - d.mapped, f.mappedHit - d.mappedHit)
  }

  ghost predicate AllMoved(base: Side, head: Side, removed: map<string, set<int>>)
    requires base.Valid() && base.sections.Keys == head.sections.Keys == removed.Keys
  {
    DeletionBaseValid(base, head, removed);
    var b := DeletionBase(base, head, removed);
    forall name :: name in base.sections && TakenLines(b)[name] > 0 ==>
      Moved(base.sections[name], head.sections[name], removed[name], TakenLines(b)[name], TakenHits(b)[name])
  }

  /**
   A deletion that explains a fallen ratio: the functions that hold deleted lines are attributable,
   every deleted instrumented line belongs to one of them, no file moved otherwise, and the head
   does not regress against what is left of the base.
   */
  ghost predicate DeletionExplains(base: Side, head: Side, removed: map<string, set<int>>)
    requires base.Valid() && base.sections.Keys == head.sections.Keys == removed.Keys
  {
    DeletionBaseValid(base, head, removed);
    var n := Left(FiguresOf(base.coverage), DeductionsFor(base, head, removed));
    && Attributable(DeletionBase(base, head, removed), base.functions)
    && DeletionsOwned(base, head, removed) && AllMoved(base, head, removed)
    && n.found > 0 && n.mapped > 0 && NoRegression(n, FiguresOf(head.coverage))
  }

  /** A whole function that holds a deleted line is affected. */
  lemma WholeIsAffected(b: Base, f: Function, name: string, l: int)
    requires b.Valid() && name in b.counts && FilesNamed(f) && Whole(b, f, name) && HeldBy(f.regions, l)
    requires l in b.removed[name]
    ensures Affected(b, f) && InHome(b, f, name)
  {
    hide Named, Touches, Touched;
    var k :| 0 <= k < |f.regions| && Has(f.regions[k], l);
    assert FileOf(f, f.regions[k]).Some?;
    AffectedCount(b, f);
    assert HoldsDeleted(b, f, f.regions[k], l);
  }

  lemma OwnedIsCovered(b: Base, fs: seq<Function>, name: string, l: int)
    requires b.Valid() && name in b.counts && Attributable(b, fs) && l in b.removed[name]
    ensures Owned(b, fs, name, l) <==> Covered(b, fs, name, l)
  {
    hide Affected, HeldBy, FilesNamed, Repeats, Base.Valid, InHome, Whole, Measured;
    if Owned(b, fs, name, l) {
      var f :| f in fs && Whole(b, f, name) && HeldBy(f.regions, l);
      WholeIsAffected(b, f, name, l);
    }
    if Covered(b, fs, name, l) {
      var f :| f in fs && Affected(b, f) && InHome(b, f, name) && HeldBy(f.regions, l);
      assert HasHome(b, f);
      var home :| home in b.counts && Deletable(b, f, home);
      HomeFacts(b, f, home);
      SameHome(b, f, name, home);
    }
  }

  lemma SameHome(b: Base, f: Function, name: string, home: string)
    requires InHome(b, f, name) && f.filenames != [] && Lookup(b.files, f.filenames[0]) == Some(home)
    ensures home == name
  {
  }

  /** The deleted lines of a file are owned, and nothing else in it moved. */
  ghost predicate FileExplained(base: Side, head: Side, removed: map<string, set<int>>, b: Base, name: string)
    requires b.Valid() && name in b.counts && name in base.sections && name in head.sections && name in removed
  {
    && (TakenLines(b)[name] > 0 ==>
          Moved(base.sections[name], head.sections[name], removed[name], TakenLines(b)[name], TakenHits(b)[name]))
    && forall l :: l in base.sections[name].counts && l in removed[name] ==> Owned(b, base.functions, name, l)
  }

  lemma ExplainedFiles(base: Side, head: Side, removed: map<string, set<int>>)
    requires base.Valid() && base.sections.Keys == head.sections.Keys == removed.Keys
    requires var b := DeletionBase(base, head, removed); b.Valid() && b.counts.Keys == base.sections.Keys
    ensures DeletionsOwned(base, head, removed) && AllMoved(base, head, removed) <==>
      var b := DeletionBase(base, head, removed);
      forall name :: name in base.sections ==> FileExplained(base, head, removed, b, name)
  {
    hide DeletionBase, TakenLines, TakenHits, Moved, Owned, Side.Valid, Base.Valid;
    var b := DeletionBase(base, head, removed);
    if forall name :: name in base.sections ==> FileExplained(base, head, removed, b, name) {
      forall name, l | name in base.sections && l in base.sections[name].counts && l in removed[name]
        ensures Owned(b, base.functions, name, l)
      {
        assert FileExplained(base, head, removed, b, name);
      }
      forall name | name in base.sections && TakenLines(b)[name] > 0
        ensures Moved(base.sections[name], head.sections[name], removed[name], TakenLines(b)[name], TakenHits(b)[name])
      {
        assert FileExplained(base, head, removed, b, name);
      }
    }
  }

  /** In an attribution the balance of all files says that deleted lines are owned and nothing else moved. */
  lemma AllBalancedExact(base: Side, head: Side, removed: map<string, set<int>>, acc: Acc)
    requires base.Valid() && head.Valid() && base.sections.Keys == head.sections.Keys == removed.Keys
    requires DeletionBase(base, head, removed).Valid()
    requires Account(DeletionBase(base, head, removed), base.functions) == Some(acc) && acc.Over(base.sections.Keys)
    ensures AllBalanced(base, head, removed, acc) <==>
      DeletionsOwned(base, head, removed) && AllMoved(base, head, removed)
  {
    hide Account, FileBalanced, FileExplained, Attributable, Side.Valid, Base.Valid, DeletionBase, TakenOff;
    hide DeletionsOwned, AllMoved, Summed;
    DeletionBaseValid(base, head, removed);
    var b := DeletionBase(base, head, removed);
    AccountExact(b, base.functions);
    AccountSummed(b, base.functions);
    ExplainedFiles(base, head, removed);
    forall name | name in base.sections
      ensures FileBalanced(base, head, removed, acc, name) <==> FileExplained(base, head, removed, b, name)
    {
      FileBalancedExact(base, head, removed, acc, name);
    }
  }

  lemma FileBalancedExact(base: Side, head: Side, removed: map<string, set<int>>, acc: Acc, name: string)
    requires base.Valid() && head.Valid() && base.sections.Keys == head.sections.Keys == removed.Keys
    requires var b := DeletionBase(base, head, removed); b.Valid() && b.counts.Keys == base.sections.Keys
    requires acc.Over(base.sections.Keys) && Summed(acc) && name in base.sections
    requires var b := DeletionBase(base, head, removed);
      Attributable(b, base.functions) && TakenOff(b, base.functions, acc)
    ensures var b := DeletionBase(base, head, removed);
      FileBalanced(base, head, removed, acc, name) <==> FileExplained(base, head, removed, b, name)
  {
    hide Balanced, Moved, Owned, Covered, LinesTaken, HitsTaken, Attributable, Listed, Side.Valid, Total;
    var b := DeletionBase(base, head, removed);
    var counts, gone := base.sections[name].counts, removed[name];
    BalancedExact(base.sections[name], head.sections[name], gone, acc.accounted[name], acc.found[name], acc.hit[name]);
    forall l: nat | l in counts && l in gone ensures l in acc.accounted[name] <==> Owned(b, base.functions, name, l) {
      OwnedIsCovered(b, base.functions, name, l);
    }
    assert forall l :: l in GoneLines(counts, gone) <==> l in counts && l in gone;
  }

  lemma TakenTotals(b: Base, acc: Acc)
    requires b.Valid() && Account(b, b.functions) == Some(acc)
    ensures acc.totalFound == Total(TakenLines(b)) && acc.totalHit == Total(TakenHits(b))
  {
    hide Account, LinesTaken, HitsTaken, Covered, Listed, Total;
    AccountExact(b, b.functions);
    AccountSummed(b, b.functions);
    assert acc.found == TakenLines(b) && acc.hit == TakenHits(b);
  }

  /**
   When a ratio has fallen, the gate accepts exactly the file correspondences whose deletions
   explain it, and reports exactly what was taken off.
   */
  lemma DeletionGate(base: Side, head: Side, diffs: Diffs)
    requires Comparable(base, head, diffs) && !Meets(FiguresOf(base.coverage), FiguresOf(head.coverage))
    ensures FilesAccepted(base, head, diffs) ==> RemovedLines(base, head, diffs).Keys == base.sections.Keys
    ensures Gated(base, head, diffs).Some? <==>
      FilesAccepted(base, head, diffs) && DeletionExplains(base, head, RemovedLines(base, head, diffs))
    ensures Gated(base, head, diffs).Some? ==>
      Gated(base, head, diffs).value == DeductionsFor(base, head, RemovedLines(base, head, diffs))
  {
    hide FilesAccepted, RemovedLines, DeletionExplains, Decision, Meets, Side.Valid, Comparable, DeductionsFor;
    ComparableSides(base, head, diffs);
    if FilesAccepted(base, head, diffs) {
      RemovedFiles(base, head, diffs);
      DecisionExact(base, head, RemovedLines(base, head, diffs));
    }
  }

  /** Nothing is taken off while no ratio falls; otherwise the deletions must explain the fall and are taken off. */
  ghost predicate GateAnswers(base: Side, head: Side, diffs: Diffs, r: Option<Deductions>)
    requires Comparable(base, head, diffs)
  {
    if !FilesAccepted(base, head, diffs) then r == None
    else if Meets(FiguresOf(base.coverage), FiguresOf(head.coverage)) then r == Some(Deductions(0, 0, 0, 0))
    else
      ComparableSides(base, head, diffs);
      RemovedFiles(base, head, diffs);
      DeletionAnswers(base, head, RemovedLines(base, head, diffs), r)
  }

  ghost predicate DeletionAnswers(base: Side, head: Side, removed: map<string, set<int>>, r: Option<Deductions>)
    requires base.Valid() && head.Valid() && base.sections.Keys == head.sections.Keys == removed.Keys
  {
    if DeletionExplains(base, head, removed) then r == Some(DeductionsFor(base, head, removed)) else r == None
  }

  lemma GateExact(base: Side, head: Side, diffs: Diffs)
    requires Comparable(base, head, diffs)
    ensures GateAnswers(base, head, diffs, Gated(base, head, diffs))
  {
    hide FilesAccepted, RemovedLines, DeletionExplains, Gated, Meets, Side.Valid, Comparable, DeductionsFor;
    ComparableSides(base, head, diffs);
    if Meets(FiguresOf(base.coverage), FiguresOf(head.coverage)) {
      PlainRatiosSuffice(base, head, diffs);
    } else {
      DeletionGate(base, head, diffs);
    }
  }

  lemma DecisionExact(base: Side, head: Side, removed: map<string, set<int>>)
    requires base.Valid() && head.Valid() && base.sections.Keys == head.sections.Keys == removed.Keys
    requires !Meets(FiguresOf(base.coverage), FiguresOf(head.coverage))
    ensures Decision(base, head, removed).Some? <==> DeletionExplains(base, head, removed)
    ensures Decision(base, head, removed).Some? ==>
      Decision(base, head, removed).value == DeductionsFor(base, head, removed)
  {
    hide Account, AllBalanced, Attributable, DeletionsOwned, AllMoved, Meets, FiguresOk, Side.Valid, Base.Valid, Total;
    hide TakenLines, TakenHits, GoneCounts, GoneHitCounts, DeletionBase, LcovReport.SumOf;
    DeletionBaseValid(base, head, removed);
    var b := DeletionBase(base, head, removed);
    AccountAttributes(b);
    if Account(b, base.functions).Some? {
      var acc := Account(b, base.functions).value;
      AllBalancedExact(base, head, removed, acc);
      TakenTotals(b, acc);
    }
  }

  lemma AccountAttributes(b: Base)
    requires b.Valid()
    ensures Account(b, b.functions).Some? <==> Attributable(b, b.functions)
  {
    AccountExact(b, b.functions);
  }

  ghost predicate FileSound(base: Side, head: Side, diffs: Diffs, name: string)
    requires Comparable(base, head, diffs) && name in base.sections
  {
    DiffInside(base, head, diffs, name);
    var r := FileOutcome(base, head, diffs, name);
    r.Some? && Sound(ContextOf(base, head, name), OwnersOf(base.functions, base.files, name), diffs[name], r.value)
  }

  lemma FileIsSound(base: Side, head: Side, diffs: Diffs, name: string)
    requires Comparable(base, head, diffs) && name in base.sections && FileOutcome(base, head, diffs, name).Some?
    ensures FileSound(base, head, diffs, name)
  {
    hide Sound, Compared, ValidOps, OpsInside;
    DiffInside(base, head, diffs, name);
    ComparedIsSound(ContextOf(base, head, name), OwnersOf(base.functions, base.files, name), diffs[name]);
  }

  /** Neither the lines nor the functions of a file's report lie beyond its end. */
  ghost predicate StaysInside(side: Side, name: string)
    requires name in side.sections && name in side.lines
  {
    var x := ContextOf(side, side, name);
    LinesExist(x) && AllInside(x, OwnersOf(side.functions, side.files, name))
  }

  /**
   A commit measured against itself passes, without deductions, unless its report names lines
   or functions beyond the end of a file.
   */
  lemma UnchangedPasses(side: Side, diffs: Diffs)
    requires Comparable(side, side, diffs)
    requires forall name :: name in side.sections ==> diffs[name] == SelfDiff(side.lines[name])
    ensures Gated(side, side, diffs).Some? <==> forall name :: name in side.sections ==> StaysInside(side, name)
    ensures Gated(side, side, diffs).Some? ==> Gated(side, side, diffs).value == Deductions(0, 0, 0, 0)
  {
    hide StaysInside, FileOutcome, OwnersOf, RemovedLines, SelfDiff, ValidOps, ContextOf;
    PlainRatiosSuffice(side, side, diffs);
    SideFigures(side);
    forall name | name in side.sections
      ensures FileOutcome(side, side, diffs, name).Some? <==> StaysInside(side, name)
    {
      SelfOutcome(side, diffs, name);
    }
  }

  lemma PositiveLines(side: Side, name: string)
    requires side.Valid() && name in side.sections
    ensures 0 !in side.sections[name].counts
  {
    hide Side.Valid, LcovReport.Totals;
    SideFigures(side);
    assert LcovReport.SectionOk(side.sections[name]);
  }

  lemma OwnersAmong(fs: seq<Function>, files: map<string, string>, name: string)
    ensures forall k :: 0 <= k < |OwnersOf(fs, files, name)| ==> OwnersOf(fs, files, name)[k] in fs
  {
  }

  lemma SelfOutcome(side: Side, diffs: Diffs, name: string)
    requires Comparable(side, side, diffs) && name in side.sections && diffs[name] == SelfDiff(side.lines[name])
    ensures FileOutcome(side, side, diffs, name).Some? <==> StaysInside(side, name)
  {
    hide LinesExist, AllInside, SelfDiff, ValidOps, Compared, Side.Valid, Comparable, OwnersOf;
    ComparableSides(side, side, diffs);
    OutcomeIs(side, side, diffs, name);
    PositiveLines(side, name);
    OwnersAmong(side.functions, side.files, name);
    UnchangedFile(ContextOf(side, side, name), OwnersOf(side.functions, side.files, name));
  }

  // ----- reading one side -----

  datatype Summary = Summary(filename: string, count: int, covered: int)

  datatype Evidence = Evidence(coverage: Coverage, summaries: seq<Summary>, functions: seq<Function>, sources: Sources)

  type Lines = map<string, (int, int)>

  /** The summaries of the region report by repository path, unless a file is unknown or comes twice. */
  function SummaryMap(summaries: seq<Summary>, sources: Sources): Option<Lines> {
    if summaries == [] then Some(map[])
    else
      var last := summaries[|summaries| - 1];
      match (SummaryMap(summaries[..|summaries| - 1], sources), Canonical(last.filename, sources))
      case (Some(m), Some(name)) => if name in m then None else Some(m[name := (last.count, last.covered)])
      case _ => None
  }

  ghost function SectionLines(sections: map<string, Section>): Lines {
    map name | name in sections :: (sections[name].lf as int, sections[name].lh as int)
  }

  /** Both reports describe the same files with the same figures, under repository paths. */
  ghost predicate Reads(e: Evidence, s: Side) {
    && s.coverage == e.coverage && s.functions == e.functions && s.lines == e.sources.lines
    && Identified(e.coverage.sections.Keys, e.sources, s.files) && Renames(e.coverage.sections, s.files, s.sections)
    && SummaryMap(e.summaries, e.sources) == Some(SectionLines(s.sections))
  }

  lemma {:induction false} SummaryMapFails(summaries: seq<Summary>, sources: Sources, k: nat)
    requires k <= |summaries| && SummaryMap(summaries[..k], sources).None?
    ensures SummaryMap(summaries, sources).None?
    decreases |summaries| - k
  {
    hide Canonical;
    if k == |summaries| {
      assert summaries[..k] == summaries;
    } else {
      assert summaries[..k + 1][..k] == summaries[..k];
      SummaryMapFails(summaries, sources, k + 1);
    }
  }

  lemma EmptySummaryMap(summaries: seq<Summary>, sources: Sources)
    requires summaries == []
    ensures SummaryMap(summaries, sources) == Some(map[])
  {
  }

  lemma SummaryMapStep(summaries: seq<Summary>, sources: Sources, k: nat, m: Lines)
    requires k < |summaries| && SummaryMap(summaries[..k], sources) == Some(m)
    ensures SummaryMap(summaries[..k + 1], sources) == (
      match Canonical(summaries[k].filename, sources)
      case None => None
      case Some(name) => if name in m then None else Some(m[name := (summaries[k].count, summaries[k].covered)]))
  {
    hide Canonical;
    assert summaries[..k + 1][..k] == summaries[..k];
  }

  method ReadSummaries(summaries: seq<Summary>, sources: Sources) returns (r: Option<Lines>)
    ensures r == SummaryMap(summaries, sources)
  {
    hide Canonical, SummaryMap;
    var m: Lines := map[];
    var k := 0;
    assert SummaryMap(summaries[..0], sources) == Some(m) by { EmptySummaryMap(summaries[..0], sources); }
    while k < |summaries|
      invariant 0 <= k <= |summaries| && SummaryMap(summaries[..k], sources) == Some(m)
    {
      SummaryMapStep(summaries, sources, k, m);
      var name := Canonical(summaries[k].filename, sources);
      if name.None? || name.value in m {
        SummaryMapFails(summaries, sources, k + 1);
        return None;
      }
      m := m[name.value := (summaries[k].count, summaries[k].covered)];
      k := k + 1;
    }
    assert summaries[..k] == summaries;
    r := Some(m);
  }

  ghost predicate Image(files: map<string, string>, renamed: map<string, Section>) {
    && (forall p :: p in files ==> files[p] in renamed)
    && (forall name :: name in renamed ==> exists p :: p in files && files[p] == name)
  }

  /** The sections renamed so far; a collision shows as a missing entry. */
  ghost predicate Renaming(sections: map<string, Section>, files: map<string, string>, renamed: map<string, Section>) {
    && files.Keys <= sections.Keys && Image(files, renamed)
    && |renamed| <= |files| && (|renamed| == |files| <==> Injects(files))
    && (Injects(files) ==> forall p :: p in files && files[p] in renamed ==> renamed[files[p]] == sections[p])
  }

  lemma ImageStep(files: map<string, string>, renamed: map<string, Section>, p: string, name: string, x: Section)
    requires Image(files, renamed) && p !in files
    ensures Image(files[p := name], renamed[name := x])
  {
    var f, r := files[p := name], renamed[name := x];
    forall n | n in r ensures exists q :: q in f && f[q] == n {
      if n == name {
        assert f[p] == n;
      } else {
        var q :| q in files && files[q] == n;
        assert f[q] == n;
      }
    }
  }

  lemma InjectsStep(files: map<string, string>, renamed: map<string, Section>, p: string, name: string)
    requires p !in files && Image(files, renamed)
    ensures Injects(files[p := name]) <==> Injects(files) && name !in renamed
  {
    var f := files[p := name];
    if name in renamed {
      var q :| q in files && files[q] == name;
      assert f[q] == f[p] && q != p;
    } else if Injects(f) {
      forall a, b | a in files && b in files && files[a] == files[b] ensures a == b { assert f[a] == f[b]; }
    }
  }

  lemma MoreEntries<V>(m: map<string, V>, k: string, v: V)
    ensures |m[k := v]| == if k in m then |m| else |m| + 1
  {
    assert m[k := v].Keys == m.Keys + {k};
    if k in m { assert m[k := v].Keys == m.Keys; }
  }

  lemma RenamingStep(sections: map<string, Section>, files: map<string, string>, renamed: map<string, Section>,
      p: string, name: string)
    requires Renaming(sections, files, renamed) && p in sections && p !in files
    ensures Renaming(sections, files[p := name], renamed[name := sections[p]])
  {
    hide Image, Injects;
    ImageStep(files, renamed, p, name, sections[p]);
    InjectsStep(files, renamed, p, name);
    MoreEntries(files, p, name);
    MoreEntries(renamed, name, sections[p]);
    if Injects(files[p := name]) { EntriesStep(sections, files, renamed, p, name); }
  }

  lemma EntriesStep(sections: map<string, Section>, files: map<string, string>, renamed: map<string, Section>,
      p: string, name: string)
    requires files.Keys <= sections.Keys && p in sections && p !in files && Image(files, renamed) && name !in renamed
    requires forall q :: q in files && files[q] in renamed ==> renamed[files[q]] == sections[q]
    ensures var f, r := files[p := name], renamed[name := sections[p]];
      forall q :: q in f && f[q] in r ==> r[f[q]] == sections[q]
  {
  }

  lemma IdentityUnique(paths: set<string>, sources: Sources, a: map<string, string>, b: map<string, string>)
    requires Identified(paths, sources, a) && Identified(paths, sources, b)
    ensures a == b
  {
    hide Canonical;
  }

  lemma RenamingDone(sections: map<string, Section>, files: map<string, string>, renamed: map<string, Section>)
    requires Renaming(sections, files, renamed) && files.Keys == sections.Keys
    ensures |renamed| == |sections| <==> Injects(files)
    ensures Injects(files) ==> Renames(sections, files, renamed)
  {
    hide Injects;
    assert |files| == |files.Keys| && |sections| == |sections.Keys|;
  }

  method RenameSections(sections: map<string, Section>, sources: Sources)
      returns (r: Option<(map<string, string>, map<string, Section>)>)
    ensures r.Some? ==> Identified(sections.Keys, sources, r.value.0) && Renames(sections, r.value.0, r.value.1)
    ensures r.None? ==> forall files :: Identified(sections.Keys, sources, files) ==> !Injects(files)
  {
    hide Canonical, Injects, Renaming, Renames;
    var files: map<string, string>, renamed: map<string, Section> := map[], map[];
    var left := sections.Keys;
    NoneRenaming(sections);
    while left != {}
      invariant files.Keys + left == sections.Keys && files.Keys !! left && Renaming(sections, files, renamed)
      invariant forall p :: p in files ==> Canonical(p, sources) == Some(files[p])
      decreases left
    {
      var p :| p in left;
      var name := Canonical(p, sources);
      if name.None? { return None; }
      RenamingStep(sections, files, renamed, p, name.value);
      files, renamed := files[p := name.value], renamed[name.value := sections[p]];
      left := left - {p};
    }
    assert files.Keys == sections.Keys;
    assert Identified(sections.Keys, sources, files);
    hide Identified;
    RenamingDone(sections, files, renamed);
    if |renamed| != |sections| {
      forall other | Identified(sections.Keys, sources, other) ensures !Injects(other) {
        IdentityUnique(sections.Keys, sources, files, other);
      }
      return None;
    }
    r := Some((files, renamed));
  }

  lemma NoneRenaming(sections: map<string, Section>)
    ensures Renaming(sections, map[], map[])
  {
  }

  /** `region_evidence`: one side under repository paths, or refused if the two reports do not agree. */
  method ReadSide(e: Evidence) returns (r: Option<Side>)
    ensures r.Some? ==> Reads(e, r.value)
    ensures r.None? ==> forall s :: !Reads(e, s)
  {
    hide SummaryMap, SectionLines, Describes, Identified, Renames;
    var summaries := ReadSummaries(e.summaries, e.sources);
    if summaries.None? { return None; }
    var named := RenameSections(e.coverage.sections, e.sources);
    if named.None? {
      forall s ensures !Reads(e, s) {
        if Renames(e.coverage.sections, s.files, s.sections) { OneToOne(e.coverage.sections, s.files, s.sections); }
      }
      return None;
    }
    var files, sections := named.value.0, named.value.1;
    SameLines(sections, summaries.value);
    if !Describes(summaries.value, sections) {
      forall s ensures !Reads(e, s) { if Reads(e, s) { SameSide(e, files, sections, s); } }
      return None;
    }
    r := Some(Side(e.coverage, files, sections, e.functions, e.sources.lines));
  }

  lemma OneToOne(sections: map<string, Section>, files: map<string, string>, renamed: map<string, Section>)
    requires Renames(sections, files, renamed)
    ensures Injects(files)
  {
  }

  predicate Describes(lines: Lines, sections: map<string, Section>) {
    && lines.Keys == sections.Keys
    && forall name :: name in sections && name in lines ==>
      lines[name] == (sections[name].lf as int, sections[name].lh as int)
  }

  lemma SameLines(sections: map<string, Section>, lines: Lines)
    ensures lines == SectionLines(sections) <==> Describes(lines, sections)
  {
  }

  lemma SameSide(e: Evidence, files: map<string, string>, sections: map<string, Section>, s: Side)
    requires Identified(e.coverage.sections.Keys, e.sources, files) && Renames(e.coverage.sections, files, sections)
    requires Reads(e, s)
    ensures s.files == files && s.sections == sections
  {
    hide Canonical, SummaryMap;
    assert s.files == files;
  }

  /** A side that was read is ready to be compared. */
  lemma ReadSideIsValid(e: Evidence, s: Side)
    requires Reads(e, s) && LcovReport.WellFormed(e.coverage) && e.sources.Valid()
    ensures s.Valid()
  {
    hide SummaryMap, SectionLines, LcovReport.WellFormed;
    forall name | name in s.sections ensures name in s.lines {
      var p :| p in s.files && s.files[p] == name;
      assert Canonical(p, e.sources) == Some(name);
    }
  }

  /** A diff for every file the two commits share. */
  ghost predicate Diffed(base: Sources, head: Sources, diffs: Diffs) {
    forall name :: name in base.lines && name in head.lines ==>
      name in diffs && ValidOps(base.lines[name], head.lines[name], diffs[name])
  }

  lemma SidesComparable(base: Evidence, head: Evidence, bs: Side, hs: Side, diffs: Diffs)
    requires Reads(base, bs) && Reads(head, hs) && bs.Valid() && hs.Valid() && Diffed(base.sources, head.sources, diffs)
    ensures Comparable(bs, hs, diffs) <==> bs.sections.Keys == hs.sections.Keys
  {
    hide Renames, Identified, SummaryMap, SectionLines, LcovReport.WellFormed, ValidOps;
  }

  lemma ReadOnce(e: Evidence, s: Side, t: Side)
    requires Reads(e, s) && Reads(e, t)
    ensures s == t
  {
    hide Renames, Identified, SummaryMap, SectionLines;
    SameSide(e, s.files, s.sections, t);
  }

  /** The gate from the two reports on; a file on one side only is refused. */
  method SourceGate(base: Evidence, head: Evidence, diffs: Diffs) returns (r: Option<Deductions>)
    requires LcovReport.WellFormed(base.coverage) && LcovReport.WellFormed(head.coverage)
    requires base.sources.Valid() && head.sources.Valid() && Diffed(base.sources, head.sources, diffs)
    ensures r.Some? ==>
      exists bs, hs :: Reads(base, bs) && Reads(head, hs) && Comparable(bs, hs, diffs) && GateAnswers(bs, hs, diffs, r)
    ensures r.None? ==>
      forall bs, hs :: Reads(base, bs) && Reads(head, hs) && Comparable(bs, hs, diffs) ==>
        GateAnswers(bs, hs, diffs, None)
  {
    hide Reads, Gated, GateAnswers, Comparable, Diffed, LcovReport.WellFormed, Side.Valid, Sources.Valid;
    var b := ReadSide(base);
    if b.None? { return None; }
    var h := ReadSide(head);
    if h.None? { return None; }
    ReadSideIsValid(base, b.value);
    ReadSideIsValid(head, h.value);
    SidesComparable(base, head, b.value, h.value, diffs);
    if b.value.sections.Keys != h.value.sections.Keys {
      forall bs, hs | Reads(base, bs) && Reads(head, hs) ensures !Comparable(bs, hs, diffs) {
        ReadOnce(base, b.value, bs);
        ReadOnce(head, h.value, hs);
      }
      return None;
    }
    r := RequireNoRegression(b.value, h.value, diffs);
    forall bs, hs | Reads(base, bs) && Reads(head, hs) ensures bs == b.value && hs == h.value {
      ReadOnce(base, b.value, bs);
      ReadOnce(head, h.value, hs);
    }
  }
}
