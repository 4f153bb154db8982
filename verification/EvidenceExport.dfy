/**
 The bounded evidence export: a recursive copy of the allowlisted part of a source tree with
 one entry budget and one byte budget shared by all levels, where a budget error raised inside
 a directory is caught by the directory above it.
 */
module EvidenceExport {
  import opened Prelude

  type Path = seq<string>

  /**
   A file system object. A file is copied only if it is a single-link regular file that stays
   the same while it is read; links and everything else cannot be opened.
   */
  datatype Node = File(data: Bytes, copyable: bool) | Directory(entries: seq<Entry>) | Unopenable

  /**
   What becomes of an entry at the destination: it is written, it cannot be created, or it is
   created but writing breaks off. In a copy it tells which entries are whole.
   */
  datatype Sink = Accepts | Rejects | Truncates(kept: nat)

  datatype Entry = Entry(name: string, node: Node, sink: Sink)

  /** The allowlist and the limits of one export. */
  datatype Policy = Policy(directory: Path -> bool, file: Path -> bool, maxFile: nat, maxTotal: nat, maxEntries: nat)

  /** The shared counters and the report. */
  datatype Report = Report(entries: nat, bytes: nat, copied: seq<Path>, skipped: seq<Path>, errors: seq<Path>)

  datatype Walked = Walked(report: Report, copy: seq<Entry>, raised: bool)

  function Fails(r: Report, path: Path): Report {
    r.(errors := r.errors + [path])
  }

  /** What a write that breaks off leaves of the data. */
  function Cut(data: Bytes, kept: nat): (b: Bytes)
    ensures b <= data
  {
    if kept < |data| then data[..kept] else data
  }

  /** One entry of a directory, already counted: what is copied of it, and the report. */
  function Visit(p: Policy, e: Entry, parts: Path, r: Report): Walked
    decreases e, 0
  {
    var child := parts + [e.name];
    if !p.directory(child) && !p.file(child) then Walked(r.(skipped := r.skipped + [child]), [], false)
    else if p.directory(child) then
      if !e.node.Directory? || e.sink.Rejects? then Walked(Fails(r, child), [], false)
      else if e.sink.Truncates? then Walked(Fails(r, child), [Entry(e.name, Directory([]), e.sink)], false)
      else
        var inner := Walk(p, e.node.entries, child, r);
        Walked(if inner.raised then Fails(inner.report, child) else inner.report,
               [Entry(e.name, Directory(inner.copy), Accepts)], false)
    else if !e.node.File? || !e.node.copyable || |e.node.data| > p.maxFile || r.bytes + |e.node.data| > p.maxTotal
    then Walked(Fails(r, child), [], false)
    else if e.sink.Rejects? then Walked(Fails(r, child), [], false)
    else if e.sink.Truncates?
    then Walked(Fails(r, child), [Entry(e.name, File(Cut(e.node.data, e.sink.kept), true), e.sink)], false)
    else Walked(r.(bytes := r.bytes + |e.node.data|, copied := r.copied + [child]), [e], false)
  }

  /** The entries of a directory in listing order, until the entry budget is exceeded. */
  function Walk(p: Policy, es: seq<Entry>, parts: Path, r: Report): Walked
    decreases es, 1
  {
    if es == [] then Walked(r, [], false)
    else
      var counted := r.(entries := r.entries + 1);
      if counted.entries > p.maxEntries then Walked(counted, [], true)
      else
        var first := Visit(p, es[0], parts, counted);
        var rest := Walk(p, es[1..], parts, first.report);
        Walked(rest.report, first.copy + rest.copy, rest.raised)
  }

  // ----- budgets -----

  /** The files that are whole. */
  function FilesIn(es: seq<Entry>): nat {
    if es == [] then 0
    else (match es[0].node
          case File(_, _) => if es[0].sink.Accepts? then 1 else 0
          case Directory(inner) => FilesIn(inner)
          case Unopenable => 0) + FilesIn(es[1..])
  }

  /** Their bytes. */
  function BytesIn(es: seq<Entry>): nat {
    if es == [] then 0
    else (match es[0].node
          case File(data, _) => if es[0].sink.Accepts? then |data| else 0
          case Directory(inner) => BytesIn(inner)
          case Unopenable => 0) + BytesIn(es[1..])
  }

  /** The files that are cut off. */
  function CutsIn(es: seq<Entry>): nat {
    if es == [] then 0
    else (match es[0].node
          case File(_, _) => if es[0].sink.Accepts? then 0 else 1
          case Directory(inner) => CutsIn(inner)
          case Unopenable => 0) + CutsIn(es[1..])
  }

  /** The bytes of all files, whole or not. */
  function Size(es: seq<Entry>): nat {
    if es == [] then 0
    else (match es[0].node
          case File(data, _) => |data|
          case Directory(inner) => Size(inner)
          case Unopenable => 0) + Size(es[1..])
  }

  lemma {:induction false} Totals(a: seq<Entry>, b: seq<Entry>)
    ensures FilesIn(a + b) == FilesIn(a) + FilesIn(b) && BytesIn(a + b) == BytesIn(a) + BytesIn(b)
    ensures CutsIn(a + b) == CutsIn(a) + CutsIn(b) && Size(a + b) == Size(a) + Size(b)
    decreases |a|
  {
    if a == [] {
      assert a + b == b;
    } else {
      assert (a + b)[0] == a[0] && (a + b)[1..] == a[1..] + b;
      Totals(a[1..], b);
    }
  }

  function Cap(p: Policy, n: nat): nat {
    if n < p.maxEntries then n else p.maxEntries
  }

  /** From one report to a later one: what was copied is accounted for and within both budgets. */
  ghost predicate Accounted(p: Policy, r: Report, later: Report, copy: seq<Entry>) {
    && later.entries >= r.entries
    && later.bytes == r.bytes + BytesIn(copy)
    && |later.copied| == |r.copied| + FilesIn(copy)
    && FilesIn(copy) <= Cap(p, later.entries) - Cap(p, r.entries)
    && (r.bytes <= p.maxTotal ==> later.bytes <= p.maxTotal)
    && r.copied <= later.copied && r.errors <= later.errors
  }

  lemma {:induction false} VisitAccounted(p: Policy, e: Entry, parts: Path, r: Report)
    requires 0 < r.entries <= p.maxEntries
    ensures var v := Visit(p, e, parts, r);
      Accounted(p, r.(entries := r.entries - 1), v.report, v.copy) && !v.raised
    decreases e, 0
  {
    var child := parts + [e.name];
    var v := Visit(p, e, parts, r);
    if p.directory(child) && e.node.Directory? && e.sink.Accepts? {
      WalkAccounted(p, e.node.entries, child, r);
      assert v.copy[1..] == [];
    } else {
      assert v.copy != [] ==> v.copy[1..] == [];
    }
  }

  /** The budgets hold at every level, although an exceeded entry budget is caught on the way up. */
  lemma {:induction false} WalkAccounted(p: Policy, es: seq<Entry>, parts: Path, r: Report)
    ensures var w := Walk(p, es, parts, r); Accounted(p, r, w.report, w.copy)
    ensures var w := Walk(p, es, parts, r); w.raised ==> w.report.entries > p.maxEntries
    decreases es, 1
  {
    if es != [] {
      var counted := r.(entries := r.entries + 1);
      if counted.entries <= p.maxEntries {
        VisitAccounted(p, es[0], parts, counted);
        var first := Visit(p, es[0], parts, counted);
        WalkAccounted(p, es[1..], parts, first.report);
        Totals(first.copy, Walk(p, es[1..], parts, first.report).copy);
      }
    }
  }

  /** Beyond the accounted bytes a copy holds at most one file's limit for each file cut off, and each is an error. */
  ghost predicate Overrun(p: Policy, r: Report, later: Report, copy: seq<Entry>) {
    && BytesIn(copy) <= Size(copy) <= BytesIn(copy) + CutsIn(copy) * p.maxFile
    && |r.errors| + CutsIn(copy) <= |later.errors|
  }

  lemma {:induction false} VisitOverrun(p: Policy, e: Entry, parts: Path, r: Report)
    ensures var v := Visit(p, e, parts, r); Overrun(p, r, v.report, v.copy)
    decreases e, 0
  {
    var child := parts + [e.name];
    var v := Visit(p, e, parts, r);
    assert v.copy != [] ==> v.copy[1..] == [];
    if p.directory(child) && e.node.Directory? && e.sink.Accepts? {
      WalkOverrun(p, e.node.entries, child, r);
    }
  }

  /** When writes break off, the destination outgrows the reported bytes by no more than this. */
  lemma {:induction false} WalkOverrun(p: Policy, es: seq<Entry>, parts: Path, r: Report)
    ensures var w := Walk(p, es, parts, r); Overrun(p, r, w.report, w.copy)
    decreases es, 1
  {
    if es != [] && r.entries < p.maxEntries {
      hide Visit, BytesIn, CutsIn, Size, Overrun;
      var counted := r.(entries := r.entries + 1);
      WalkCases(p, es, parts, r);
      var first := Visit(p, es[0], parts, counted);
      var rest := Walk(p, es[1..], parts, first.report);
      VisitOverrun(p, es[0], parts, counted);
      WalkOverrun(p, es[1..], parts, first.report);
      OverrunJoin(p, r, counted, first.report, rest.report, first.copy, rest.copy);
    } else {
      assert Walk(p, es, parts, r).copy == [];
    }
  }

  lemma OverrunJoin(p: Policy, r: Report, a: Report, b: Report, c: Report, x: seq<Entry>, y: seq<Entry>)
    requires Overrun(p, a, b, x) && Overrun(p, b, c, y) && a.errors == r.errors
    ensures Overrun(p, r, c, x + y)
  {
    hide BytesIn, CutsIn, Size;
    Totals(x, y);
    Distribute(CutsIn(x), CutsIn(y), p.maxFile);
  }

  lemma Distribute(a: nat, b: nat, c: nat)
    ensures (a + b) * c == a * c + b * c
  {
  }

  // ----- the copy -----

  /** The allowlisted part of an entry: the directory test comes before the file test. */
  function RestrictEntry(p: Policy, e: Entry, parts: Path): seq<Entry>
    decreases e, 0
  {
    var child := parts + [e.name];
    if p.directory(child) then
      if e.node.Directory? then [Entry(e.name, Directory(Restrict(p, e.node.entries, child)), Accepts)] else []
    else if p.file(child) && e.node.File? then [e.(sink := Accepts)]
    else []
  }

  function Restrict(p: Policy, es: seq<Entry>, parts: Path): seq<Entry>
    decreases es, 1
  {
    if es == [] then [] else RestrictEntry(p, es[0], parts) + Restrict(p, es[1..], parts)
  }

  /** Every allowlisted path is of its kind and can be copied and written on its own. */
  predicate ProperEntry(p: Policy, e: Entry, parts: Path)
    decreases e, 0
  {
    var child := parts + [e.name];
    if p.directory(child) then e.node.Directory? && e.sink.Accepts? && Proper(p, e.node.entries, child)
    else p.file(child) ==> e.node.File? && e.node.copyable && |e.node.data| <= p.maxFile && e.sink.Accepts?
  }

  predicate Proper(p: Policy, es: seq<Entry>, parts: Path)
    decreases es, 1
  {
    es == [] || (ProperEntry(p, es[0], parts) && Proper(p, es[1..], parts))
  }

  /** How many entries are listed: all those of allowlisted directories. */
  function ListedEntry(p: Policy, e: Entry, parts: Path): nat
    decreases e, 0
  {
    var child := parts + [e.name];
    1 + if p.directory(child) && e.node.Directory? then Listed(p, e.node.entries, child) else 0
  }

  function Listed(p: Policy, es: seq<Entry>, parts: Path): nat
    decreases es, 1
  {
    if es == [] then 0 else ListedEntry(p, es[0], parts) + Listed(p, es[1..], parts)
  }

  /** The report after copying everything: only the counters and the path lists move on. */
  ghost predicate Advanced(r: Report, later: Report, listed: nat, bytes: nat) {
    later.entries == r.entries + listed && later.bytes == r.bytes + bytes && later.errors == r.errors
  }

  ghost predicate Fits(p: Policy, r: Report, listed: nat, bytes: nat) {
    r.entries + listed <= p.maxEntries && r.bytes + bytes <= p.maxTotal
  }

  lemma {:induction false} VisitExact(p: Policy, e: Entry, parts: Path, r: Report)
    requires 0 < r.entries <= p.maxEntries && r.bytes <= p.maxTotal
    ensures var v := Visit(p, e, parts, r); var before := r.(entries := r.entries - 1);
      var listed, bytes := ListedEntry(p, e, parts), BytesIn(RestrictEntry(p, e, parts));
      v.report.errors == r.errors <==> ProperEntry(p, e, parts) && Fits(p, before, listed, bytes)
    ensures var v := Visit(p, e, parts, r); var before := r.(entries := r.entries - 1);
      v.report.errors == r.errors ==>
        && v.copy == RestrictEntry(p, e, parts)
        && Advanced(before, v.report, ListedEntry(p, e, parts), BytesIn(v.copy))
    decreases e, 0
  {
    var child := parts + [e.name];
    var out := RestrictEntry(p, e, parts);
    assert out != [] ==> out[1..] == [];
    if p.directory(child) && e.node.Directory? && e.sink.Accepts? {
      WalkExact(p, e.node.entries, child, r);
      WalkAccounted(p, e.node.entries, child, r);
      var inner := Walk(p, e.node.entries, child, r);
      if inner.raised { LongerErrors(r.errors, inner.report.errors, child); }
    }
  }

  lemma LongerErrors(a: seq<Path>, b: seq<Path>, path: Path)
    requires a <= b
    ensures b + [path] != a
  {
  }

  /** The walk reports no error exactly when everything is proper and fits, and then copies it all. */
  lemma {:induction false} WalkExact(p: Policy, es: seq<Entry>, parts: Path, r: Report)
    requires r.bytes <= p.maxTotal
    ensures var w := Walk(p, es, parts, r); var listed, bytes := Listed(p, es, parts), BytesIn(Restrict(p, es, parts));
      w.report.errors == r.errors && !w.raised <==> Proper(p, es, parts) && (es == [] || Fits(p, r, listed, bytes))
    ensures var w := Walk(p, es, parts, r);
      w.report.errors == r.errors && !w.raised ==>
        w.copy == Restrict(p, es, parts) && Advanced(r, w.report, Listed(p, es, parts), BytesIn(w.copy))
    decreases es, 1
  {
    if es != [] {
      var counted := r.(entries := r.entries + 1);
      if counted.entries <= p.maxEntries {
        hide Visit, Restrict, RestrictEntry, ProperEntry, ListedEntry, BytesIn;
        WalkStep(p, es, parts, r);
        var first := Visit(p, es[0], parts, counted);
        var rest := Walk(p, es[1..], parts, first.report);
        VisitExact(p, es[0], parts, counted);
        VisitAccounted(p, es[0], parts, counted);
        WalkExact(p, es[1..], parts, first.report);
        WalkAccounted(p, es[1..], parts, first.report);
        Totals(RestrictEntry(p, es[0], parts), Restrict(p, es[1..], parts));
        NoErrorsBetween(counted.errors, first.report.errors, rest.report.errors);
        NothingLeft(p, parts, first.report);
      }
    }
  }

  lemma WalkStep(p: Policy, es: seq<Entry>, parts: Path, r: Report)
    requires es != [] && r.entries < p.maxEntries
    ensures var first := Visit(p, es[0], parts, r.(entries := r.entries + 1));
      var rest := Walk(p, es[1..], parts, first.report);
      Walk(p, es, parts, r) == Walked(rest.report, first.copy + rest.copy, rest.raised)
    ensures Restrict(p, es, parts) == RestrictEntry(p, es[0], parts) + Restrict(p, es[1..], parts)
  {
  }

  lemma WalkCases(p: Policy, es: seq<Entry>, parts: Path, r: Report)
    ensures es == [] ==> Walk(p, es, parts, r) == Walked(r, [], false)
    ensures es != [] && r.entries >= p.maxEntries ==>
      Walk(p, es, parts, r) == Walked(r.(entries := r.entries + 1), [], true)
    ensures es != [] && r.entries < p.maxEntries ==>
      var first := Visit(p, es[0], parts, r.(entries := r.entries + 1));
      var rest := Walk(p, es[1..], parts, first.report);
      Walk(p, es, parts, r) == Walked(rest.report, first.copy + rest.copy, rest.raised)
  {
  }

  lemma NothingLeft(p: Policy, parts: Path, r: Report)
    ensures Restrict(p, [], parts) == [] && BytesIn([]) == 0 && Listed(p, [], parts) == 0
  {
  }

  lemma NoErrorsBetween(a: seq<Path>, b: seq<Path>, c: seq<Path>)
    requires a <= b <= c
    ensures c == a ==> b == a
  {
  }

  /** `part` results from `full` by leaving out entries, at any depth, and cutting off files that are marked so. */
  predicate Pruned(part: seq<Entry>, full: seq<Entry>)
    decreases full
  {
    if part == [] then true
    else if full == [] then false
    else (PrunedEntry(part[0], full[0]) && Pruned(part[1..], full[1..])) || Pruned(part, full[1..])
  }

  predicate PrunedEntry(part: Entry, full: Entry)
    decreases full
  {
    part.name == full.name &&
    match full.node
    case Directory(inner) => part.node.Directory? && Pruned(part.node.entries, inner)
    case File(data, _) =>
      part.node.File? && if part.sink.Accepts? then part.node.data == data else part.node.data <= data
    case Unopenable => part.node.Unopenable?
  }

  lemma {:induction false} PrunedAppend(a: seq<Entry>, f: seq<Entry>, b: seq<Entry>, g: seq<Entry>)
    requires Pruned(a, f) && Pruned(b, g)
    ensures Pruned(a + b, f + g)
    decreases |f|
  {
    hide PrunedEntry;
    if f == [] {
      assert a + b == b && f + g == g;
    } else {
      assert (f + g)[0] == f[0] && (f + g)[1..] == f[1..] + g;
      if a != [] && PrunedEntry(a[0], f[0]) && Pruned(a[1..], f[1..]) {
        PrunedAppend(a[1..], f[1..], b, g);
        assert (a + b)[0] == a[0] && (a + b)[1..] == a[1..] + b;
      } else {
        PrunedAppend(a, f[1..], b, g);
        PrunedLater(a + b, f + g);
      }
    }
  }

  lemma PrunedLater(part: seq<Entry>, full: seq<Entry>)
    requires full != [] && Pruned(part, full[1..])
    ensures Pruned(part, full)
  {
  }

  lemma {:induction false} VisitPruned(p: Policy, e: Entry, parts: Path, r: Report)
    ensures Pruned(Visit(p, e, parts, r).copy, RestrictEntry(p, e, parts))
    decreases e, 0
  {
    var child := parts + [e.name];
    var v, full := Visit(p, e, parts, r).copy, RestrictEntry(p, e, parts);
    assert v != [] ==> v[1..] == [];
    assert full != [] ==> full[1..] == [];
    if p.directory(child) && e.node.Directory? && e.sink.Accepts? {
      WalkPruned(p, e.node.entries, child, r);
    }
  }

  /**
   Whatever goes wrong, only allowlisted source files are copied, in place; whole files are
   unchanged, and a write that breaks off leaves the beginning of one.
   */
  lemma {:induction false} WalkPruned(p: Policy, es: seq<Entry>, parts: Path, r: Report)
    ensures Pruned(Walk(p, es, parts, r).copy, Restrict(p, es, parts))
    decreases es, 1
  {
    if es != [] && r.entries < p.maxEntries {
      hide Visit, RestrictEntry, Pruned;
      WalkStep(p, es, parts, r);
      var counted := r.(entries := r.entries + 1);
      var first := Visit(p, es[0], parts, counted);
      VisitPruned(p, es[0], parts, counted);
      WalkPruned(p, es[1..], parts, first.report);
      PrunedAppend(first.copy, RestrictEntry(p, es[0], parts),
                   Walk(p, es[1..], parts, first.report).copy, Restrict(p, es[1..], parts));
    }
  }

  // ----- the export -----

  /** The export with the counters and the report as fields that the recursion shares. */
  class Exporter {
    const policy: Policy
    var entries: nat
    var bytes: nat
    var copied: seq<Path>
    var skipped: seq<Path>
    var errors: seq<Path>

    constructor (p: Policy)
      ensures policy == p && Now() == Report(0, 0, [], [], [])
    {
      policy := p;
      entries, bytes, copied, skipped, errors := 0, 0, [], [], [];
    }

    ghost function Now(): Report
      reads this
    {
      Report(entries, bytes, copied, skipped, errors)
    }

    method VisitEntry(e: Entry, parts: Path) returns (copy: seq<Entry>)
      modifies this
      ensures Visit(policy, e, parts, old(Now())) == Walked(Now(), copy, false)
      decreases e, 0
    {
      copy := [];
      var child := parts + [e.name];
      if !policy.directory(child) && !policy.file(child) {
        skipped := skipped + [child];
      } else if policy.directory(child) {
        if !e.node.Directory? || e.sink.Rejects? {
          errors := errors + [child];
        } else if e.sink.Truncates? {
          copy := [Entry(e.name, Directory([]), e.sink)];
          errors := errors + [child];
        } else {
          var inner, failed := WalkDirectory(e.node.entries, child);
          if failed { errors := errors + [child]; }
          copy := [Entry(e.name, Directory(inner), Accepts)];
        }
      } else if !e.node.File? || !e.node.copyable || |e.node.data| > policy.maxFile
         || bytes + |e.node.data| > policy.maxTotal || e.sink.Rejects? {
        errors := errors + [child];
      } else if e.sink.Truncates? {
        copy := [Entry(e.name, File(Cut(e.node.data, e.sink.kept), true), e.sink)];
        errors := errors + [child];
      } else {
        bytes := bytes + |e.node.data|;
        copied := copied + [child];
        copy := [e];
      }
    }

    method WalkDirectory(es: seq<Entry>, parts: Path) returns (copy: seq<Entry>, raised: bool)
      modifies this
      ensures Walk(policy, es, parts, old(Now())) == Walked(Now(), copy, raised)
      decreases es, 1
    {
      hide Visit, Walk;
      copy, raised := [], false;
      ghost var all := Walk(policy, es, parts, Now());
      assert es[0..] == es;
      for k := 0 to |es|
        invariant var w := Walk(policy, es[k..], parts, Now()); all == Walked(w.report, copy + w.copy, w.raised)
      {
        WalkCases(policy, es[k..], parts, Now());
        assert es[k..][0] == es[k] && es[k..][1..] == es[k + 1..];
        entries := entries + 1;
        if entries > policy.maxEntries {
          raised := true;
          return;
        }
        var visited := VisitEntry(es[k], parts);
        ghost var rest := Walk(policy, es[k + 1..], parts, Now()).copy;
        assert copy + (visited + rest) == copy + visited + rest;
        copy := copy + visited;
      }
      WalkCases(policy, es[|es|..], parts, Now());
    }

    /** The destination tree with its report file, and the exit code. */
    method Export(source: Node) returns (destination: seq<Entry>, code: int)
      requires Now() == Report(0, 0, [], [], [])
      modifies this
      ensures destination == Exported(policy, source)
      ensures code == 0 <==> ExportSucceeds(policy, source)
      ensures |copied| <= policy.maxEntries && bytes <= policy.maxTotal
      ensures bytes == BytesIn(Copy(policy, source)) && |copied| == FilesIn(Copy(policy, source))
      ensures Size(Copy(policy, source)) <= policy.maxTotal + |errors| * policy.maxFile
    {
      destination := [];
      if source.Directory? {
        WalkAccounted(policy, source.entries, [], Now());
        WalkExact(policy, source.entries, [], Now());
        WalkOverrun(policy, source.entries, [], Now());
        var copy, raised := WalkDirectory(source.entries, []);
        destination := copy;
        if raised { errors := errors + [[]]; }
      } else {
        errors := errors + [[]];
      }
      AtMostEach(CutsIn(destination), |errors|, policy.maxFile);
      destination := destination + [ReportFile()];
      code := if errors == [] then 0 else 1;
    }
  }

  lemma AtMostEach(a: nat, b: nat, c: nat)
    ensures a <= b ==> a * c <= b * c
  {
  }

  /** The report is written beside the copied entries; its text is not modelled. */
  function ReportFile(): Entry {
    Entry("export-report.json", File([], true), Accepts)
  }

  ghost function Copy(p: Policy, source: Node): seq<Entry> {
    if source.Directory? then Walk(p, source.entries, [], Report(0, 0, [], [], [])).copy else []
  }

  ghost function Exported(p: Policy, source: Node): seq<Entry> {
    Copy(p, source) + [ReportFile()]
  }

  ghost predicate ExportSucceeds(p: Policy, source: Node) {
    && source.Directory? && Proper(p, source.entries, [])
    && Listed(p, source.entries, []) <= p.maxEntries && BytesIn(Restrict(p, source.entries, [])) <= p.maxTotal
  }

  /** A zero exit code means the destination is the source restricted to the allowlist. */
  lemma ZeroMeansComplete(p: Policy, source: Node)
    requires ExportSucceeds(p, source)
    ensures Exported(p, source) == Restrict(p, source.entries, []) + [ReportFile()]
  {
    WalkExact(p, source.entries, [], Report(0, 0, [], [], []));
  }

  // ----- the allowlist of directories -----

  predicate AlphaNumeric(c: char) {
    'a' <= c <= 'z' || 'A' <= c <= 'Z' || '0' <= c <= '9'
  }

  predicate RunName(s: string) {
    |s| > 4 && s[..4] == "run-" && forall k :: 4 <= k < |s| ==> AlphaNumeric(s[k]) || s[k] == '-'
  }

  predicate TrialName(s: string) {
    s != "" && AlphaNumeric(s[0]) && forall k :: 1 <= k < |s| ==> AlphaNumeric(s[k]) || s[k] in {'_', '.', '-'}
  }

  predicate FixedDirectory(rest: Path) {
    || rest == [] || rest == ["guest"] || rest == ["guest", "evidence"]
    || rest == ["guest", "evidence", "benchmarks"] || rest == ["guest", "evidence", "apt-abi"]
    || rest == ["guest", "evidence", "osv"] || rest == ["guest", "evidence", "arch-advisory"]
    || rest == ["guest", "evidence", "fedora-advisory"] || rest == ["inventory"] || rest == ["inventory", "rows"]
    || rest == ["mutation-refusal"] || rest == ["mutation-refusal", "inventory"]
    || rest == ["mutation-refusal", "inventory", "rows"]
    || rest == ["transactions"] || rest == ["transactions", "trials"]
  }

  predicate AllowedDirectory(parts: Path) {
    parts == [] ||
    (RunName(parts[0]) &&
     var rest := parts[1..];
     || FixedDirectory(rest)
     || (3 <= |rest| <= 4 && rest[..2] == ["transactions", "trials"] && TrialName(rest[2])
         && (|rest| == 3 || rest[3] == "transaction-trial")))
  }

  predicate BelowTrials(parent: Path, n: nat) {
    |parent| == n && n >= 2 && parent[..2] == ["transactions", "trials"]
  }

  /** The directories with a table of file names of their own. */
  predicate Tabled(parent: Path) {
    || parent == [] || parent == ["guest"] || parent == ["guest", "evidence"]
    || parent == ["guest", "evidence", "apt-abi"] || parent == ["guest", "evidence", "osv"]
    || parent == ["guest", "evidence", "arch-advisory"] || parent == ["guest", "evidence", "fedora-advisory"]
    || parent == ["mutation-refusal"] || parent == ["inventory"] || parent == ["mutation-refusal", "inventory"]
    || parent == ["inventory", "rows"] || parent == ["mutation-refusal", "inventory", "rows"]
    || parent == ["transactions"] || BelowTrials(parent, 3)
  }

  const BENCHMARK_FILES: set<string> := {
    "summary.json", "preflight.json", "os-release", "boot-id.txt", "cpuinfo.txt",
    "meminfo.txt", "kernel.txt", "binary-sha256.txt", "hyperfine-version.txt",
    "native-version.txt", "omg-version.txt", "extra-version.txt",
    "proc-stat-before.txt", "proc-stat-after.txt", "foreign-architectures.txt",
    "installed.names", "uninstalled-manual.names", "installed-before.tsv",
    "installed-after.tsv", "installed-expected.tsv", "manual-before.names",
    "manual-after.names", "manual-expected.names", "cache-before.sha256",
    "cache-after.sha256", "started-at.txt",
    "native-identity-query.stdout", "native-identity-query.stderr",
    "native-identity-query-before.stdout", "native-identity-query-before.stderr",
    "native-identity-query-after.stdout", "native-identity-query-after.stderr",
    "native-architecture.stdout", "native-architecture.stderr"}

  const COMMANDS: set<string> := {"info", "search", "explicit", "status", "install", "remove", "update"}
  const TOOLS: set<string> := {"omg", "native", "extra"}

  predicate CommandFile(name: string) {
    || (exists c, m, e :: c in COMMANDS && m in {"", ".commands"} && e in {".json", ".md"} && name == c + m + e)
    || (exists c :: c in COMMANDS && name == c + ".raw.json")
  }

  predicate QueryFile(name: string) {
    || (exists t, q, m, e :: t in TOOLS && q in {"-info", "-identity"} && m in {"", "-after"}
          && e in {".stdout", ".stderr", ".tsv"} && name == t + q + m + e)
    || (exists q, t, m, e :: q in {"search-", "explicit-", "count-"} && t in TOOLS && m in {"-before", "-after"}
          && e in {".stdout", ".stderr", ".names"} && name == q + t + m + e)
    || name == "native-cache-prepare.stdout" || name == "native-cache-prepare.stderr"
  }

  predicate BenchmarkFile(name: string) {
    name in BENCHMARK_FILES || CommandFile(name) || QueryFile(name)
  }

  /**
   The file test. `listed` stands for the literal tables of the directories that have one, and
   for the table of a transaction trial.
   */
  predicate AllowedFile(listed: (Path, string) -> bool, parts: Path) {
    || parts == ["provenance.json"]
    || (|parts| >= 2 && AllowedDirectory(parts[..|parts| - 1]) &&
        var parent, name := parts[1..|parts| - 1], parts[|parts| - 1];
        if Tabled(parent) then listed(parent, name)
        else
          || BenchmarkFile(name)
          || (BelowTrials(parent, 4) && parent[3] == "transaction-trial" && listed(parent, name)))
  }

  lemma FixedParent(rest: Path)
    requires FixedDirectory(rest) && rest != []
    ensures FixedDirectory(rest[..|rest| - 1])
  {
    assert rest[..|rest| - 1] == [] || rest[..|rest| - 1] == [rest[0]] || rest[..|rest| - 1] == [rest[0], rest[1]];
  }

  /** The allowed directories are closed upwards, so the walk can reach every one of them. */
  lemma ParentAllowed(parts: Path)
    requires AllowedDirectory(parts) && parts != []
    ensures AllowedDirectory(parts[..|parts| - 1]) && |parts| <= 5
  {
    hide FixedDirectory, RunName, TrialName;
    var rest := parts[1..];
    if |parts| > 1 {
      assert parts[..|parts| - 1][1..] == rest[..|rest| - 1];
      if FixedDirectory(rest) {
        FixedParent(rest);
        FixedDepth(rest);
      } else if |rest| == 3 {
        assert rest[..2] == ["transactions", "trials"];
        TrialsFixed();
      } else {
        assert rest[..3][..2] == rest[..2];
      }
    } else {
      assert parts[..0] == [];
    }
  }

  lemma FixedDepth(rest: Path)
    requires FixedDirectory(rest)
    ensures |rest| <= 3
  {
  }

  lemma TrialsFixed()
    ensures FixedDirectory(["transactions", "trials"])
  {
  }

  /** Every directory above an allowlisted file is allowlisted, whatever the file tables say. */
  lemma {:induction false} AncestorsAllowed(listed: (Path, string) -> bool, parts: Path, k: nat)
    requires AllowedFile(listed, parts) && k < |parts|
    ensures AllowedDirectory(parts[..k])
  {
    if parts == ["provenance.json"] {
      assert parts[..k] == [];
    } else {
      PrefixAllowed(parts[..|parts| - 1], k);
      assert parts[..|parts| - 1][..k] == parts[..k];
    }
  }

  lemma {:induction false} PrefixAllowed(parts: Path, k: nat)
    requires AllowedDirectory(parts) && k <= |parts|
    ensures AllowedDirectory(parts[..k])
    decreases |parts|
  {
    hide AllowedDirectory;
    if k == |parts| {
      assert parts[..k] == parts;
    } else {
      ParentAllowed(parts);
      PrefixAllowed(parts[..|parts| - 1], k);
      assert parts[..|parts| - 1][..k] == parts[..k];
    }
  }

  /** The report file cannot collide with a copied entry of the root. */
  lemma ReportNameIsFree(listed: (Path, string) -> bool)
    ensures !AllowedDirectory(["export-report.json"]) && !AllowedFile(listed, ["export-report.json"])
  {
    assert "export-report.json"[0] == 'e';
    assert "export-report.json"[..4][0] == 'e';
    assert "provenance.json"[0] == 'p';
    assert ["export-report.json"][0] != ["provenance.json"][0];
  }

  lemma FixedInTable(rest: Path)
    requires FixedDirectory(rest) && rest != []
    ensures Tabled(rest[..|rest| - 1])
  {
    assert rest[..|rest| - 1] == [] || rest[..|rest| - 1] == [rest[0]] || rest[..|rest| - 1] == [rest[0], rest[1]];
  }

  lemma TrialsUntabled(rest: Path)
    requires |rest| == 3 && rest[..2] == ["transactions", "trials"]
    ensures !Tabled(rest[..2])
  {
    assert "transactions"[0] == 't' && "guest"[0] == 'g' && "inventory"[0] == 'i' && "mutation-refusal"[0] == 'm';
    assert rest[..2][0] == "transactions";
  }

  /** A trial directory whose name is also that of a benchmark file. */
  predicate TrialOrBenchmark(parts: Path) {
    && |parts| == 4 && RunName(parts[0]) && parts[1..3] == ["transactions", "trials"]
    && TrialName(parts[3]) && BenchmarkFile(parts[3])
  }

  const DIRECTORY_NAMES: set<string> := {
    "guest", "evidence", "benchmarks", "apt-abi", "osv", "arch-advisory", "fedora-advisory", "inventory", "rows",
    "mutation-refusal", "transactions", "trials", "transaction-trial"}

  /** No table lists the name of an allowed directory, as is so of the tables in use. */
  ghost predicate ListsFiles(listed: (Path, string) -> bool) {
    forall parent, name :: listed(parent, name) ==> name !in DIRECTORY_NAMES
  }

  lemma FixedNames(rest: Path)
    requires FixedDirectory(rest) && rest != []
    ensures rest[|rest| - 1] in DIRECTORY_NAMES
  {
  }

  /** Both tests allow a path exactly when it is such a directory. */
  lemma BothTestsAllow(listed: (Path, string) -> bool, parts: Path)
    requires ListsFiles(listed)
    ensures AllowedDirectory(parts) && AllowedFile(listed, parts) <==> TrialOrBenchmark(parts)
  {
    hide RunName, TrialName, BenchmarkFile, FixedDirectory, Tabled;
    if |parts| < 2 {
      ProvenanceIsNoRun();
    } else {
      var rest := parts[1..];
      var parent := parts[1..|parts| - 1];
      assert rest[..|rest| - 1] == parent && parts[..|parts| - 1][1..] == parent;
      assert rest[|rest| - 1] == parts[|parts| - 1];
      if FixedDirectory(rest) {
        FixedInTable(rest);
        FixedNames(rest);
      }
      if TrialOrBenchmark(parts) { BothTestsAllowTrial(listed, parts); }
      if AllowedDirectory(parts) && AllowedFile(listed, parts) {
        if |rest| == 4 { FourthIsTabled(rest); }
        assert parts[1..3] == rest[..2] && rest[2] == parts[3];
        if |rest| == 3 { TrialsUntabled(rest); }
      }
    }
  }

  lemma BothTestsAllowTrial(listed: (Path, string) -> bool, parts: Path)
    requires TrialOrBenchmark(parts)
    ensures AllowedDirectory(parts) && AllowedFile(listed, parts)
  {
    hide RunName, TrialName, BenchmarkFile, FixedDirectory, Tabled;
    var rest := parts[1..];
    assert parts[..3][1..] == parts[1..3] == rest[..2] && rest[2] == parts[3];
    TrialsUntabled(rest);
    TrialsFixed();
  }

  lemma ProvenanceIsNoRun()
    ensures !RunName("provenance.json")
  {
    assert "provenance.json"[..4][0] == 'p';
  }

  lemma FourthIsTabled(rest: Path)
    requires |rest| == 4 && rest[..2] == ["transactions", "trials"]
    ensures Tabled(rest[..3])
  {
    assert rest[..3][..2] == rest[..2];
  }

  /** Such paths exist: a trial may be named like the result of a benchmark. */
  lemma TrialNamedLikeABenchmark()
    ensures TrialOrBenchmark(["run-1", "transactions", "trials", "info.json"])
  {
    var name := "info.json";
    assert "info" in COMMANDS && name == "info" + "" + ".json";
    assert "run-1"[..4] == "run-" && AlphaNumeric("run-1"[4]);
    assert forall k :: 0 <= k < |name| ==> AlphaNumeric(name[k]) || name[k] == '.';
    assert ["run-1", "transactions", "trials", "info.json"][1..3] == ["transactions", "trials"];
  }

  /** A file at such a path is an error, although the file test allows it: the directory test comes first. */
  lemma BenchmarkAmongTrials(p: Policy, listed: (Path, string) -> bool, e: Entry, parts: Path, r: Report)
    requires TrialOrBenchmark(parts + [e.name]) && e.node.File?
    requires p.directory(parts + [e.name]) == AllowedDirectory(parts + [e.name])
    ensures AllowedFile(listed, parts + [e.name])
    ensures Visit(p, e, parts, r) == Walked(Fails(r, parts + [e.name]), [], false)
  {
    hide RunName, TrialName, BenchmarkFile, FixedDirectory, Tabled;
    BothTestsAllowTrial(listed, parts + [e.name]);
  }
}
