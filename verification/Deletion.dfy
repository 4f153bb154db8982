/**
 Attribution of deleted lines: a base function that touches a deleted line must be gone as a
 whole, and its lines and hits are taken off the figures of its file.
 */
module Deletion {
  import opened Prelude
  import opened Correspondence

  /** The base functions and, for every file, the instrumented and the deleted lines. */
  datatype Base = Base(functions: seq<Function>, head: seq<Function>, files: map<string, string>,
                       counts: map<string, Counts>, removed: map<string, set<int>>) {
    ghost predicate Valid() {
      counts.Keys == removed.Keys && forall path :: path in files ==> files[path] in counts
    }
  }

  function RangeOf(r: Region): (lines: set<int>)
    ensures forall l :: l in lines <==> Has(r, l)
  {
    if r.lineStart <= r.lineEnd then Interval(r.lineStart, r.lineEnd - r.lineStart + 1) else {}
  }

  function LinesOf(rs: seq<Region>): set<int> {
    if rs == [] then {} else LinesOf(rs[..|rs| - 1]) + RangeOf(rs[|rs| - 1])
  }

  function HitsOf(rs: seq<Region>): set<int> {
    if rs == [] then {} else HitsOf(rs[..|rs| - 1]) + if rs[|rs| - 1].count > 0 then RangeOf(rs[|rs| - 1]) else {}
  }

  ghost predicate HeldBy(rs: seq<Region>, line: int) {
    exists k :: 0 <= k < |rs| && Has(rs[k], line)
  }

  ghost predicate HitBy(rs: seq<Region>, line: int) {
    exists k :: 0 <= k < |rs| && Has(rs[k], line) && rs[k].count > 0
  }

  lemma HeldStep(rs: seq<Region>, line: int)
    requires rs != []
    ensures var n := |rs| - 1; HeldBy(rs, line) <==> HeldBy(rs[..n], line) || Has(rs[n], line)
  {
    hide Has;
    var n := |rs| - 1;
    if HeldBy(rs[..n], line) {
      var k :| 0 <= k < n && Has(rs[..n][k], line);
      assert Has(rs[k], line);
    }
    if HeldBy(rs, line) {
      var k :| 0 <= k < |rs| && Has(rs[k], line);
      if k < n { assert Has(rs[..n][k], line); }
    }
  }

  lemma HitStep(rs: seq<Region>, line: int)
    requires rs != []
    ensures var n := |rs| - 1; HitBy(rs, line) <==> HitBy(rs[..n], line) || (Has(rs[n], line) && rs[n].count > 0)
  {
    hide Has;
    var n := |rs| - 1;
    if HitBy(rs[..n], line) {
      var k :| 0 <= k < n && Has(rs[..n][k], line) && rs[..n][k].count > 0;
      assert Has(rs[k], line) && rs[k].count > 0;
    }
    if HitBy(rs, line) {
      var k :| 0 <= k < |rs| && Has(rs[k], line) && rs[k].count > 0;
      if k < n { assert Has(rs[..n][k], line); }
    }
  }

  /** The lines of a function are those of its regions; they are hit if one of those regions was. */
  lemma {:induction false} LinesExact(rs: seq<Region>, line: int)
    ensures line in LinesOf(rs) <==> HeldBy(rs, line)
    ensures line in HitsOf(rs) <==> HitBy(rs, line)
  {
    hide Has;
    if rs != [] {
      hide HeldBy, HitBy;
      LinesExact(rs[..|rs| - 1], line);
      HeldStep(rs, line);
      HitStep(rs, line);
    }
  }

  lemma {:induction false} HitsAmongLines(rs: seq<Region>)
    ensures HitsOf(rs) <= LinesOf(rs)
  {
    if rs != [] { HitsAmongLines(rs[..|rs| - 1]); }
  }

  /** The regions of a function without their counts; equal whatever the order. */
  function Shape(rs: seq<Region>): multiset<Region> {
    if rs == [] then multiset{} else Shape(rs[..|rs| - 1]) + multiset{rs[|rs| - 1].(count := 0)}
  }

  /** Whether a region of a selected file holds a deleted line; none if the region names no file. */
  function Touches(b: Base, f: Function, r: Region): Option<bool>
    requires b.Valid()
  {
    match FileOf(f, r)
    case None => None
    case Some(path) => Some(path in b.files && RangeOf(r) * b.removed[b.files[path]] != {})
  }

  function Touched(b: Base, f: Function, rs: seq<Region>): Option<nat>
    requires b.Valid()
  {
    if rs == [] then Some(0)
    else
      match (Touched(b, f, rs[..|rs| - 1]), Touches(b, f, rs[|rs| - 1]))
      case (Some(n), Some(hit)) => Some(n + if hit then 1 else 0)
      case _ => None
  }

  predicate RegionDeleted(b: Base, name: string, r: Region)
    requires b.Valid() && name in b.counts
  {
    && r.lineStart <= r.lineEnd && (r.lineStart == r.lineEnd || r.colEnd > 1) && Plain(r) && r.count >= 0
    && RangeOf(r) <= b.removed[name] && RangeOf(r) <= b.counts[name].Keys
  }

  datatype Verdict = Untouched | Refused | Removed(name: string, lines: set<int>, hits: set<int>,
      shape: multiset<Region>)

  predicate AllDeleted(b: Base, name: string, rs: seq<Region>)
    requires b.Valid() && name in b.counts
  {
    forall k :: 0 <= k < |rs| ==> RegionDeleted(b, name, rs[k])
  }

  function VerdictOf(b: Base, f: Function): Verdict
    requires b.Valid()
  {
    var t := Touched(b, f, f.regions);
    if t.None? then Refused
    else if t.value == 0 then Untouched
    else if |Named(b.functions, f.name)| != 1 || Named(b.head, f.name) != [] || |f.filenames| != 1
       || t.value != |f.regions| then Refused
    else if f.filenames[0] !in b.files then Refused
    else
      var name := b.files[f.filenames[0]];
      if AllDeleted(b, name, f.regions) then Removed(name, LinesOf(f.regions), HitsOf(f.regions), Shape(f.regions))
      else Refused
  }

  // ----- one function -----

  lemma TouchedStep(b: Base, f: Function, rs: seq<Region>, k: nat)
    requires b.Valid() && k < |rs|
    ensures Touched(b, f, rs[..k + 1]) ==
      match (Touched(b, f, rs[..k]), Touches(b, f, rs[k]))
      case (Some(n), Some(hit)) => Some(n + if hit then 1 else 0)
      case _ => None
  {
    assert rs[..k + 1][..k] == rs[..k];
  }

  lemma {:induction false} TouchedFails(b: Base, f: Function, rs: seq<Region>, k: nat)
    requires b.Valid() && k <= |rs| && Touched(b, f, rs[..k]).None?
    ensures Touched(b, f, rs).None?
    decreases |rs| - k
  {
    hide Touches;
    if k == |rs| {
      assert rs[..k] == rs;
    } else {
      TouchedStep(b, f, rs, k);
      TouchedFails(b, f, rs, k + 1);
    }
  }

  method CountTouched(b: Base, f: Function) returns (r: Option<nat>)
    requires b.Valid()
    ensures r == Touched(b, f, f.regions)
  {
    hide Touches;
    var rs := f.regions;
    var n, k := 0, 0;
    assert rs[..0] == [];
    while k < |rs|
      invariant 0 <= k <= |rs| && 0 <= n && Touched(b, f, rs[..k]) == Some(n)
    {
      TouchedStep(b, f, rs, k);
      var hit := Touches(b, f, rs[k]);
      if hit.None? {
        TouchedFails(b, f, rs, k + 1);
        return None;
      }
      if hit.value { n := n + 1; }
      k := k + 1;
    }
    assert rs[..k] == rs;
    r := Some(n);
  }

  ghost predicate Tallied(counts: map<int, int>, lines: set<int>, hits: set<int>) {
    counts.Keys == lines && forall l :: l in counts ==> counts[l] >= 0 && (counts[l] > 0 <==> l in hits)
  }

  lemma TallyStep(counts: map<int, int>, lines: set<int>, hits: set<int>, l: int, c: int)
    requires Tallied(counts, lines, hits) && hits <= lines && c >= 0
    ensures var raised := counts[l := Max(if l in counts then counts[l] else 0, c)];
      Tallied(raised, lines + {l}, hits + if c > 0 then {l} else {})
  {
  }

  function Upto(r: Region, n: nat): set<int> {
    Interval(r.lineStart, n)
  }

  lemma UptoStep(lines: set<int>, hits: set<int>, r: Region, n: nat)
    requires hits <= lines
    ensures lines + Upto(r, n + 1) == lines + Upto(r, n) + {r.lineStart + n}
    ensures hits + (if r.count > 0 then Upto(r, n + 1) else {}) ==
      hits + (if r.count > 0 then Upto(r, n) else {}) + if r.count > 0 then {r.lineStart + n} else {}
    ensures hits + (if r.count > 0 then Upto(r, n) else {}) <= lines + Upto(r, n)
  {
  }

  lemma UptoEnds(lines: set<int>, r: Region)
    requires r.lineStart <= r.lineEnd
    ensures lines + Upto(r, 0) == lines && Upto(r, r.lineEnd - r.lineStart + 1) == RangeOf(r)
  {
  }

  /** Raises the count of every line of a region to the region's count. */
  method AddRegion(counts0: map<int, int>, r: Region, ghost lines: set<int>,
      ghost hits: set<int>) returns (counts: map<int, int>)
    requires r.lineStart <= r.lineEnd && r.count >= 0 && Tallied(counts0, lines, hits) && hits <= lines
    ensures Tallied(counts, lines + RangeOf(r), hits + if r.count > 0 then RangeOf(r) else {})
  {
    hide Tallied, Upto, RangeOf;
    counts := counts0;
    var n := 0;
    UptoEnds(lines, r);
    UptoEnds(hits, r);
    assert hits + {} == hits;
    while n <= r.lineEnd - r.lineStart
      invariant 0 <= n <= r.lineEnd - r.lineStart + 1
      invariant Tallied(counts, lines + Upto(r, n), hits + if r.count > 0 then Upto(r, n) else {})
    {
      var l := r.lineStart + n;
      UptoStep(lines, hits, r, n);
      TallyStep(counts, lines + Upto(r, n), hits + if r.count > 0 then Upto(r, n) else {}, l, r.count);
      counts := counts[l := Max(if l in counts then counts[l] else 0, r.count)];
      n := n + 1;
    }
  }

  lemma RegionsStep(rs: seq<Region>, k: nat)
    requires k < |rs|
    ensures LinesOf(rs[..k + 1]) == LinesOf(rs[..k]) + RangeOf(rs[k])
    ensures HitsOf(rs[..k + 1]) == HitsOf(rs[..k]) + if rs[k].count > 0 then RangeOf(rs[k]) else {}
    ensures Shape(rs[..k + 1]) == Shape(rs[..k]) + multiset{rs[k].(count := 0)}
    ensures HitsOf(rs[..k]) <= LinesOf(rs[..k])
  {
    hide RangeOf;
    assert rs[..k + 1][..k] == rs[..k];
    HitsAmongLines(rs[..k]);
  }

  /** The counts of a deleted function, region by region. */
  method CountRegions(b: Base, name: string, rs: seq<Region>)
      returns (ok: bool, lines: set<int>, hits: set<int>, shape: multiset<Region>)
    requires b.Valid() && name in b.counts
    ensures ok <==> AllDeleted(b, name, rs)
    ensures ok ==> lines == LinesOf(rs) && hits == HitsOf(rs) && shape == Shape(rs)
  {
    hide LinesOf, HitsOf, Shape, RangeOf, Tallied;
    var counts: map<int, int> := map[];
    ok, lines, hits, shape := true, {}, {}, multiset{};
    var k := 0;
    NoRegions();
    assert rs[..0] == [];
    while k < |rs|
      invariant 0 <= k <= |rs| && Tallied(counts, LinesOf(rs[..k]), HitsOf(rs[..k])) && shape == Shape(rs[..k])
      invariant forall j :: 0 <= j < k ==> RegionDeleted(b, name, rs[j])
    {
      if !RegionDeleted(b, name, rs[k]) {
        ok := false;
        return;
      }
      RegionsStep(rs, k);
      counts := AddRegion(counts, rs[k], LinesOf(rs[..k]), HitsOf(rs[..k]));
      shape := shape + multiset{rs[k].(count := 0)};
      k := k + 1;
    }
    assert rs[..k] == rs;
    lines := counts.Keys;
    hits := set l | l in counts && counts[l] > 0;
    CountedHits(counts, lines, hits, rs);
  }

  lemma NoRegions()
    ensures Tallied(map[], LinesOf([]), HitsOf([])) && Shape([]) == multiset{}
  {
  }

  lemma CountedHits(counts: map<int, int>, lines: set<int>, hits: set<int>, rs: seq<Region>)
    requires Tallied(counts, LinesOf(rs), HitsOf(rs)) && lines == counts.Keys
    requires forall l :: l in hits <==> l in counts && counts[l] > 0
    ensures lines == LinesOf(rs) && hits == HitsOf(rs)
  {
    hide LinesOf, HitsOf;
    HitsAmongLines(rs);
    forall l ensures l in hits <==> l in HitsOf(rs) {
      assert l in HitsOf(rs) ==> l in LinesOf(rs);
    }
  }

  method Attribute(b: Base, f: Function) returns (v: Verdict)
    requires b.Valid()
    ensures v == VerdictOf(b, f)
  {
    hide Touched, AllDeleted, LinesOf, HitsOf, Shape;
    var t := CountTouched(b, f);
    if t.None? { return Refused; }
    if t.value == 0 { return Untouched; }
    if |Named(b.functions, f.name)| != 1 || Named(b.head, f.name) != [] || |f.filenames| != 1
       || t.value != |f.regions| {
      return Refused;
    }
    if f.filenames[0] !in b.files { return Refused; }
    var name := b.files[f.filenames[0]];
    var ok, lines, hits, shape := CountRegions(b, name, f.regions);
    v := if ok then Removed(name, lines, hits, shape) else Refused;
  }

  // ----- all functions -----

  /** What has been taken off each file so far, with the running totals. */
  datatype Acc = Acc(found: map<string, int>, hit: map<string, int>, accounted: map<string, set<int>>,
                     shapes: set<(string, multiset<Region>)>, totalFound: int, totalHit: int) {
    predicate Over(names: set<string>) {
      found.Keys == names && hit.Keys == names && accounted.Keys == names
    }
  }

  function Nothing(names: set<string>): Acc {
    Acc(map name | name in names :: 0, map name | name in names :: 0, map name | name in names :: {}, {}, 0, 0)
  }

  function AccStep(names: set<string>, acc: Acc, v: Verdict): (r: Option<Acc>)
    requires acc.Over(names) && (v.Removed? ==> v.name in names)
    ensures r.Some? ==> r.value.Over(names)
  {
    match v
    case Untouched => Some(acc)
    case Refused => None
    case Removed(name, lines, hits, shape) =>
      if (name, shape) in acc.shapes then None else Some(TakeOff(names, acc, v))
  }

  function TakeOff(names: set<string>, acc: Acc, v: Verdict): (r: Acc)
    requires acc.Over(names) && v.Removed? && v.name in names
    ensures r.Over(names)
  {
    Acc(acc.found[v.name := acc.found[v.name] + |v.lines|], acc.hit[v.name := acc.hit[v.name] + |v.hits|],
        acc.accounted[v.name := acc.accounted[v.name] + v.lines], acc.shapes + {(v.name, v.shape)},
        acc.totalFound + |v.lines|, acc.totalHit + |v.hits|)
  }

  lemma VerdictName(b: Base, f: Function)
    requires b.Valid()
    ensures VerdictOf(b, f).Removed? ==> VerdictOf(b, f).name in b.counts
  {
  }

  function Account(b: Base, fs: seq<Function>): (r: Option<Acc>)
    requires b.Valid()
    ensures r.Some? ==> r.value.Over(b.counts.Keys)
  {
    if fs == [] then Some(Nothing(b.counts.Keys))
    else
      match Account(b, fs[..|fs| - 1])
      case None => None
      case Some(acc) =>
        VerdictName(b, fs[|fs| - 1]);
        AccStep(b.counts.Keys, acc, VerdictOf(b, fs[|fs| - 1]))
  }

  lemma AccountStep(b: Base, fs: seq<Function>, k: nat)
    requires b.Valid() && k < |fs| && Account(b, fs[..k]).Some?
    ensures VerdictOf(b, fs[k]).Removed? ==> VerdictOf(b, fs[k]).name in b.counts.Keys
    ensures Account(b, fs[..k + 1]) == AccStep(b.counts.Keys, Account(b, fs[..k]).value, VerdictOf(b, fs[k]))
  {
    VerdictName(b, fs[k]);
    assert fs[..k + 1][..k] == fs[..k];
  }

  lemma {:induction false} AccountFails(b: Base, fs: seq<Function>, k: nat)
    requires b.Valid() && k <= |fs| && Account(b, fs[..k]).None?
    ensures Account(b, fs).None?
    decreases |fs| - k
  {
    hide VerdictOf, AccStep;
    if k == |fs| {
      assert fs[..k] == fs;
    } else {
      assert fs[..k + 1][..k] == fs[..k];
      AccountFails(b, fs, k + 1);
    }
  }

  lemma StartAccount(b: Base, fs: seq<Function>)
    requires b.Valid()
    ensures Account(b, fs[..0]) == Some(Nothing(b.counts.Keys)) && Nothing(b.counts.Keys).Over(b.counts.Keys)
  {
    assert fs[..0] == [];
  }

  /** The loop over the base functions. */
  method AccountAll(b: Base) returns (r: Option<Acc>)
    requires b.Valid()
    ensures r == Account(b, b.functions)
  {
    hide VerdictOf, Account, Base.Valid, TakeOff, Nothing;
    var fs, names := b.functions, b.counts.Keys;
    var acc := Nothing(names);
    var k := 0;
    StartAccount(b, fs);
    while k < |fs|
      invariant 0 <= k <= |fs| && acc.Over(names) && Account(b, fs[..k]) == Some(acc)
    {
      AccountStep(b, fs, k);
      var v := Attribute(b, fs[k]);
      if v == Refused || (v.Removed? && (v.name, v.shape) in acc.shapes) {
        AccountFails(b, fs, k + 1);
        return None;
      }
      if v.Removed? {
        acc := TakeOff(names, acc, v);
      }
      k := k + 1;
    }
    assert fs[..k] == fs;
    r := Some(acc);
  }

  // ----- what the attribution guarantees -----

  ghost predicate Summed(acc: Acc) {
    && acc.found.Keys == acc.hit.Keys
    && acc.totalFound == Total(acc.found) && acc.totalHit == Total(acc.hit)
    && forall name :: name in acc.found ==> 0 <= acc.hit[name] <= acc.found[name]
  }

  /**
   The line belongs to a base function that is gone from the head, and all of whose lines are
   deleted and instrumented.
   */
  ghost predicate Owned(b: Base, fs: seq<Function>, name: string, line: int)
    requires b.Valid() && name in b.counts
  {
    exists f :: f in fs && Whole(b, f, name) && HeldBy(f.regions, line)
  }

  ghost predicate Whole(b: Base, f: Function, name: string)
    requires b.Valid() && name in b.counts
  {
    && |Named(b.functions, f.name)| == 1 && Named(b.head, f.name) == []
    && |f.filenames| == 1 && Lookup(b.files, f.filenames[0]) == Some(name)
    && forall k, l :: 0 <= k < |f.regions| && Has(f.regions[k], l) ==> l in b.removed[name] && l in b.counts[name]
  }

  lemma NothingSummed(names: set<string>)
    ensures Summed(Nothing(names))
  {
    var zero: map<string, int> := map name | name in names :: 0;
    TotalZero(zero);
  }

  lemma SummedStep(names: set<string>, acc: Acc, v: Verdict)
    requires acc.Over(names) && (v.Removed? ==> v.name in names && v.hits <= v.lines)
    requires Summed(acc) && AccStep(names, acc, v).Some?
    ensures Summed(AccStep(names, acc, v).value)
  {
    hide Total;
    if v.Removed? {
      SubsetSize(v.hits, v.lines);
      AddedTotals(acc.found, acc.hit, v.name, |v.lines|, |v.hits|);
    }
  }

  lemma AddedTotals(found: map<string, int>, hit: map<string, int>, name: string, f: nat, h: nat)
    requires name in found && found.Keys == hit.Keys && h <= f && forall k :: k in found ==> 0 <= hit[k] <= found[k]
    ensures Total(found[name := found[name] + f]) == Total(found) + f
    ensures Total(hit[name := hit[name] + h]) == Total(hit) + h
    ensures found[name := found[name] + f].Keys == found.Keys && hit[name := hit[name] + h].Keys == hit.Keys
    ensures forall k :: k in found ==> 0 <= hit[name := hit[name] + h][k] <= found[name := found[name] + f][k]
  {
    hide Total;
    TotalUpdate(found, name, found[name] + f);
    TotalUpdate(hit, name, hit[name] + h);
  }

  lemma RemovedFacts(b: Base, f: Function)
    requires b.Valid() && VerdictOf(b, f).Removed?
    ensures var v := VerdictOf(b, f);
      && v.name in b.counts && v.hits <= v.lines && Whole(b, f, v.name)
      && v.lines == LinesOf(f.regions) && v.hits == HitsOf(f.regions)
  {
    hide LinesOf, HitsOf, Shape, Touched;
    var v := VerdictOf(b, f);
    HitsAmongLines(f.regions);
    forall k, l | 0 <= k < |f.regions| && Has(f.regions[k], l) ensures l in b.removed[v.name] && l in b.counts[v.name] {
      assert RegionDeleted(b, v.name, f.regions[k]);
      assert l in RangeOf(f.regions[k]);
    }
  }

  lemma {:induction false} AccountSummed(b: Base, fs: seq<Function>)
    requires b.Valid() && Account(b, fs).Some?
    ensures Summed(Account(b, fs).value)
    decreases |fs|
  {
    hide VerdictOf, Summed, AccStep;
    if fs == [] {
      NothingSummed(b.counts.Keys);
    } else {
      var n := |fs| - 1;
      AccountSummed(b, fs[..n]);
      VerdictName(b, fs[n]);
      if VerdictOf(b, fs[n]).Removed? { RemovedFacts(b, fs[n]); }
      SummedStep(b.counts.Keys, Account(b, fs[..n]).value, VerdictOf(b, fs[n]));
    }
  }

  lemma OwnedMore(b: Base, fs: seq<Function>, f: Function, name: string, line: int)
    requires b.Valid() && name in b.counts && Owned(b, fs, name, line)
    ensures Owned(b, fs + [f], name, line)
  {
    hide Whole, HeldBy;
    var g :| g in fs && Whole(b, g, name) && HeldBy(g.regions, line);
    assert g in fs + [f];
  }

  lemma NewlyAccounted(names: set<string>, acc: Acc, v: Verdict, name: string, line: int)
    requires acc.Over(names) && (v.Removed? ==> v.name in names) && AccStep(names, acc, v).Some? && name in names
    requires line in AccStep(names, acc, v).value.accounted[name]
    ensures line in acc.accounted[name] || (v.Removed? && v.name == name && line in v.lines)
  {
  }

  lemma AccountLast(b: Base, fs: seq<Function>)
    requires b.Valid() && fs != [] && Account(b, fs).Some?
    ensures var n := |fs| - 1;
      && Account(b, fs[..n]).Some? && (VerdictOf(b, fs[n]).Removed? ==> VerdictOf(b, fs[n]).name in b.counts.Keys)
      && AccStep(b.counts.Keys, Account(b, fs[..n]).value, VerdictOf(b, fs[n])) == Account(b, fs)
  {
    VerdictName(b, fs[|fs| - 1]);
  }

  lemma NothingAccounted(b: Base, name: string)
    requires b.Valid() && name in b.counts
    ensures Account(b, []).value.accounted[name] == {}
  {
  }

  /** Only lines of wholly deleted functions are accounted for. */
  lemma {:induction false} AccountedIsOwned(b: Base, fs: seq<Function>, name: string, line: int)
    requires b.Valid() && Account(b, fs).Some? && name in b.counts && line in Account(b, fs).value.accounted[name]
    ensures Owned(b, fs, name, line)
    decreases |fs|
  {
    hide VerdictOf, Owned, Whole, HeldBy, LinesOf, HitsOf, Base.Valid, Account, AccStep;
    if fs == [] {
      NothingAccounted(b, name);
      assert false;
    } else {
      var n := |fs| - 1;
      var init, last := fs[..n], fs[n];
      AccountLast(b, fs);
      NewlyAccounted(b.counts.Keys, Account(b, init).value, VerdictOf(b, last), name, line);
      if line in Account(b, init).value.accounted[name] {
        AccountedIsOwned(b, init, name, line);
        OwnedMore(b, init, last, name, line);
        assert fs == init + [last];
      } else {
        RemovedFacts(b, last);
        LinesExact(last.regions, line);
        LastOwned(b, fs, name, line);
      }
    }
  }

  lemma LastOwned(b: Base, fs: seq<Function>, name: string, line: int)
    requires b.Valid() && name in b.counts && fs != [] && Whole(b, fs[|fs| - 1], name)
    requires HeldBy(fs[|fs| - 1].regions, line)
    ensures Owned(b, fs, name, line)
  {
    assert fs[|fs| - 1] in fs;
  }

  lemma {:induction false} NoneRefused(b: Base, fs: seq<Function>, f: Function)
    requires b.Valid() && Account(b, fs).Some? && f in fs
    ensures VerdictOf(b, f) != Refused
    decreases |fs|
  {
    hide VerdictOf, Account, Base.Valid;
    var n := |fs| - 1;
    AccountLast(b, fs);
    assert fs == fs[..n] + [fs[n]];
    if f != fs[n] { NoneRefused(b, fs[..n], f); }
  }

  lemma {:induction false} TouchedPositive(b: Base, f: Function, rs: seq<Region>, k: nat)
    requires b.Valid() && k < |rs| && Touches(b, f, rs[k]) == Some(true) && Touched(b, f, rs).Some?
    ensures Touched(b, f, rs).value > 0
    decreases |rs|
  {
    hide Touches;
    var n := |rs| - 1;
    if k < n {
      assert rs[..n][k] == rs[k];
      TouchedPositive(b, f, rs[..n], k);
    }
  }

  /** A function with a region that touches a deleted line. */
  ghost predicate Affected(b: Base, f: Function)
    requires b.Valid()
  {
    exists k :: 0 <= k < |f.regions| && Touches(b, f, f.regions[k]) == Some(true)
  }

  /** In an accepted attribution every base function that touches a deleted line is gone as a whole. */
  lemma TouchedIsWhole(b: Base, fs: seq<Function>, f: Function)
    requires b.Valid() && Account(b, fs).Some? && f in fs && Affected(b, f)
    ensures exists name :: name in b.counts && Whole(b, f, name)
  {
    hide Account, Touches, Whole, LinesOf, HitsOf, Shape;
    NoneRefused(b, fs, f);
    var k :| 0 <= k < |f.regions| && Touches(b, f, f.regions[k]) == Some(true);
    TouchedPositive(b, f, f.regions, k);
    RemovedFacts(b, f);
  }

  // ----- exactly which deletions are attributed -----

  /** The lines of a region run forward and it ends past the first column, in the function's own file. */
  predicate Measured(r: Region) {
    && r.lineStart <= r.lineEnd && (r.lineEnd > r.lineStart ==> r.colEnd > 1) && r.count >= 0
    && r.fileId == 0 && r.expandedId == 0 && r.kind == 0
  }

  ghost predicate Deletable(b: Base, f: Function, name: string)
    requires b.Valid() && name in b.counts
  {
    Whole(b, f, name) && forall k :: 0 <= k < |f.regions| ==> Measured(f.regions[k])
  }

  ghost predicate HasHome(b: Base, f: Function)
    requires b.Valid()
  {
    exists name :: name in b.counts && Deletable(b, f, name)
  }

  /** Every region names one of the function's files. */
  ghost predicate FilesNamed(f: Function) {
    forall k :: 0 <= k < |f.regions| ==> FileOf(f, f.regions[k]).Some?
  }

  ghost predicate InHome(b: Base, f: Function, name: string) {
    f.filenames != [] && Lookup(b.files, f.filenames[0]) == Some(name)
  }

  /** The same regions in some order, whatever their counts. */
  ghost predicate SameOutline(rs: seq<Region>, ss: seq<Region>) {
    multiset(Outline(rs)) == multiset(Outline(ss))
  }

  ghost function Outline(rs: seq<Region>): seq<Region> {
    seq(|rs|, k requires 0 <= k < |rs| => rs[k].(count := 0))
  }

  ghost predicate Repeats(b: Base, f: Function, g: Function)
    requires b.Valid()
  {
    && Affected(b, f) && Affected(b, g) && SameOutline(f.regions, g.regions)
    && exists name :: InHome(b, f, name) && InHome(b, g, name)
  }

  /**
   The functions can be attributed: every region names a file, every function that holds a
   deleted line is deleted as a whole with measured regions, and no two of them in one file have
   the same regions.
   */
  ghost predicate Attributable(b: Base, fs: seq<Function>)
    requires b.Valid()
  {
    && (forall f :: f in fs ==> FilesNamed(f))
    && (forall f :: f in fs && Affected(b, f) ==> HasHome(b, f))
    && (forall i, j :: 0 <= i < j < |fs| ==> !Repeats(b, fs[i], fs[j]))
  }

  ghost predicate HoldsDeleted(b: Base, f: Function, r: Region, l: int)
    requires b.Valid()
  {
    var path := FileOf(f, r);
    path.Some? && path.value in b.files && Has(r, l) && l in b.removed[b.files[path.value]]
  }

  /** A region touches when it holds a deleted line of its file. */
  lemma TouchesExact(b: Base, f: Function, r: Region)
    requires b.Valid()
    ensures Touches(b, f, r).Some? <==> FileOf(f, r).Some?
    ensures Touches(b, f, r) == Some(true) <==> exists l :: HoldsDeleted(b, f, r, l)
  {
    hide FileOf, RangeOf;
    if Touches(b, f, r) == Some(true) {
      var l := SomeElement(RangeOf(r) * b.removed[b.files[FileOf(f, r).value]]);
      assert HoldsDeleted(b, f, r, l);
    }
    if l :| HoldsDeleted(b, f, r, l) {
      assert l in RangeOf(r) * b.removed[b.files[FileOf(f, r).value]];
    }
  }

  lemma {:induction false} TouchedExact(b: Base, f: Function, rs: seq<Region>)
    requires b.Valid()
    ensures Touched(b, f, rs).Some? <==> forall k :: 0 <= k < |rs| ==> Touches(b, f, rs[k]).Some?
    ensures Touched(b, f, rs).Some? ==>
      && Touched(b, f, rs).value <= |rs|
      && (Touched(b, f, rs).value == 0 <==> forall k :: 0 <= k < |rs| ==> Touches(b, f, rs[k]) == Some(false))
      && (Touched(b, f, rs).value == |rs| <==> forall k :: 0 <= k < |rs| ==> Touches(b, f, rs[k]) == Some(true))
    decreases |rs|
  {
    hide Touches;
    if rs != [] {
      var n := |rs| - 1;
      TouchedExact(b, f, rs[..n]);
      assert forall k :: 0 <= k < n ==> rs[..n][k] == rs[k];
    }
  }

  lemma DeletedExactly(b: Base, f: Function, name: string)
    requires b.Valid() && name in b.counts && |f.filenames| == 1 && Lookup(b.files, f.filenames[0]) == Some(name)
    requires |Named(b.functions, f.name)| == 1 && Named(b.head, f.name) == []
    ensures AllDeleted(b, name, f.regions) <==> Deletable(b, f, name)
  {
    hide RangeOf, Named;
    if Deletable(b, f, name) {
      forall k | 0 <= k < |f.regions| ensures RegionDeleted(b, name, f.regions[k]) {
        var r := f.regions[k];
        forall l | l in RangeOf(r) ensures l in b.removed[name] && l in b.counts[name] { assert Has(f.regions[k], l); }
      }
    }
    if AllDeleted(b, name, f.regions) {
      forall k, l | 0 <= k < |f.regions| && Has(f.regions[k], l) ensures l in b.removed[name] && l in b.counts[name] {
        assert RegionDeleted(b, name, f.regions[k]) && l in RangeOf(f.regions[k]);
      }
      forall k | 0 <= k < |f.regions| ensures Measured(f.regions[k]) { assert RegionDeleted(b, name, f.regions[k]); }
    }
  }

  /** All regions of a deletable function touch. */
  lemma DeletableTouches(b: Base, f: Function, name: string, k: nat)
    requires b.Valid() && name in b.counts && Deletable(b, f, name) && k < |f.regions|
    ensures Touches(b, f, f.regions[k]) == Some(true)
  {
    hide Named;
    var r := f.regions[k];
    TouchesExact(b, f, r);
    assert Measured(r) && Has(r, r.lineStart);
    assert HoldsDeleted(b, f, r, r.lineStart);
  }

  lemma AffectedCount(b: Base, f: Function)
    requires b.Valid()
    ensures Touched(b, f, f.regions).Some? <==> FilesNamed(f)
    ensures FilesNamed(f) ==> (Touched(b, f, f.regions).value > 0 <==> Affected(b, f))
    ensures Affected(b, f) <==> exists k, l :: 0 <= k < |f.regions| && HoldsDeleted(b, f, f.regions[k], l)
  {
    hide Touches, FileOf, Touched, HoldsDeleted;
    var rs := f.regions;
    TouchedExact(b, f, rs);
    forall k | 0 <= k < |rs|
      ensures Touches(b, f, rs[k]).Some? <==> FileOf(f, rs[k]).Some?
      ensures Touches(b, f, rs[k]) == Some(true) <==> exists l :: HoldsDeleted(b, f, rs[k], l)
    {
      TouchesExact(b, f, rs[k]);
    }
    if FilesNamed(f) && Touched(b, f, rs).value > 0 {
      var k :| 0 <= k < |rs| && Touches(b, f, rs[k]) != Some(false);
      var touches := Touches(b, f, rs[k]);
      assert touches == if touches.value then Some(true) else Some(false);
    }
  }

  /** What the attribution makes of one function, without its counters. */
  lemma VerdictExact(b: Base, f: Function)
    requires b.Valid()
    ensures VerdictOf(b, f) == Refused <==> !FilesNamed(f) || (Affected(b, f) && !HasHome(b, f))
    ensures VerdictOf(b, f) == Untouched <==> FilesNamed(f) && !Affected(b, f)
    ensures VerdictOf(b, f).Removed? ==>
      var v := VerdictOf(b, f);
      InHome(b, f, v.name) && v.name in b.counts && v.shape == Shape(f.regions)
  {
    hide Touches, Touched, FilesNamed, AllDeleted, Deletable, LinesOf, HitsOf, Shape, Named;
    AffectedCount(b, f);
    TouchedExact(b, f, f.regions);
    if FilesNamed(f) && Affected(b, f) {
      if name :| name in b.counts && Deletable(b, f, name) {
        HomeFacts(b, f, name);
        forall k | 0 <= k < |f.regions| ensures Touches(b, f, f.regions[k]) == Some(true) {
          DeletableTouches(b, f, name, k);
        }
        DeletedExactly(b, f, name);
      }
      if VerdictOf(b, f).Removed? { DeletedExactly(b, f, VerdictOf(b, f).name); }
    }
  }

  lemma HomeFacts(b: Base, f: Function, name: string)
    requires b.Valid() && name in b.counts && Deletable(b, f, name)
    ensures |f.filenames| == 1 && Lookup(b.files, f.filenames[0]) == Some(name)
    ensures |Named(b.functions, f.name)| == 1 && Named(b.head, f.name) == []
  {
  }

  lemma {:induction false} ShapeIsOutline(rs: seq<Region>)
    ensures Shape(rs) == multiset(Outline(rs))
  {
    if rs != [] {
      var n := |rs| - 1;
      ShapeIsOutline(rs[..n]);
      assert Outline(rs) == Outline(rs[..n]) + [rs[n].(count := 0)];
    }
  }

  /** The lines and hits taken off a file: those of the functions in it that hold deleted lines. */
  ghost function LinesTaken(b: Base, fs: seq<Function>, name: string): nat
    requires b.Valid()
  {
    if fs == [] then 0
    else
      var f := fs[|fs| - 1];
      LinesTaken(b, fs[..|fs| - 1], name) + if Affected(b, f) && InHome(b, f, name) then |LinesOf(f.regions)| else 0
  }

  ghost function HitsTaken(b: Base, fs: seq<Function>, name: string): nat
    requires b.Valid()
  {
    if fs == [] then 0
    else
      var f := fs[|fs| - 1];
      HitsTaken(b, fs[..|fs| - 1], name) + if Affected(b, f) && InHome(b, f, name) then |HitsOf(f.regions)| else 0
  }

  ghost predicate Covered(b: Base, fs: seq<Function>, name: string, line: int)
    requires b.Valid()
  {
    exists f :: f in fs && Affected(b, f) && InHome(b, f, name) && HeldBy(f.regions, line)
  }

  ghost predicate Listed(b: Base, fs: seq<Function>, name: string, shape: multiset<Region>)
    requires b.Valid()
  {
    exists f :: f in fs && Affected(b, f) && InHome(b, f, name) && Shape(f.regions) == shape
  }

  /** What has been taken off is exactly what belongs to the functions that hold deleted lines. */
  ghost predicate TakenOff(b: Base, fs: seq<Function>, acc: Acc)
    requires b.Valid() && acc.Over(b.counts.Keys)
  {
    && (forall name :: name in b.counts ==> acc.found[name] == LinesTaken(b, fs, name))
    && (forall name :: name in b.counts ==> acc.hit[name] == HitsTaken(b, fs, name))
    && (forall name, l :: name in b.counts ==> (l in acc.accounted[name] <==> Covered(b, fs, name, l)))
    && (forall name, shape :: (name, shape) in acc.shapes <==> Listed(b, fs, name, shape))
  }

  lemma InLonger(fs: seq<Function>, f: Function)
    requires fs != []
    ensures f in fs <==> f in fs[..|fs| - 1] || f == fs[|fs| - 1]
  {
    assert fs == fs[..|fs| - 1] + [fs[|fs| - 1]];
  }

  lemma CoveredStep(b: Base, fs: seq<Function>, name: string, l: int)
    requires b.Valid() && fs != []
    ensures var n := |fs| - 1;
      Covered(b, fs, name, l) <==>
        || Covered(b, fs[..n], name, l)
        || (Affected(b, fs[n]) && InHome(b, fs[n], name) && HeldBy(fs[n].regions, l))
  {
    hide Affected, InHome, HeldBy;
    forall f ensures f in fs <==> f in fs[..|fs| - 1] || f == fs[|fs| - 1] { InLonger(fs, f); }
  }

  lemma ListedStep(b: Base, fs: seq<Function>, name: string, shape: multiset<Region>)
    requires b.Valid() && fs != []
    ensures var n := |fs| - 1;
      Listed(b, fs, name, shape) <==>
        || Listed(b, fs[..n], name, shape)
        || (Affected(b, fs[n]) && InHome(b, fs[n], name) && Shape(fs[n].regions) == shape)
  {
    hide Affected, InHome, Shape;
    forall f ensures f in fs <==> f in fs[..|fs| - 1] || f == fs[|fs| - 1] { InLonger(fs, f); }
  }

  lemma UntouchedStep(b: Base, fs: seq<Function>, acc: Acc)
    requires b.Valid() && fs != [] && acc.Over(b.counts.Keys) && TakenOff(b, fs[..|fs| - 1], acc)
    requires !Affected(b, fs[|fs| - 1])
    ensures TakenOff(b, fs, acc)
  {
    hide Affected, InHome, HeldBy, Shape, Covered, Listed;
    forall name, l ensures Covered(b, fs, name, l) <==> Covered(b, fs[..|fs| - 1], name, l) {
      CoveredStep(b, fs, name, l);
    }
    forall name, s ensures Listed(b, fs, name, s) <==> Listed(b, fs[..|fs| - 1], name, s) {
      ListedStep(b, fs, name, s);
    }
  }

  lemma HomeUnique(b: Base, f: Function, name: string, other: string)
    requires InHome(b, f, name)
    ensures InHome(b, f, other) <==> other == name
  {
  }

  lemma RemovedStep(b: Base, fs: seq<Function>, acc: Acc, v: Verdict)
    requires b.Valid() && fs != [] && acc.Over(b.counts.Keys) && TakenOff(b, fs[..|fs| - 1], acc)
    requires Affected(b, fs[|fs| - 1]) && v.Removed? && v.name in b.counts && InHome(b, fs[|fs| - 1], v.name)
    requires var rs := fs[|fs| - 1].regions; v.lines == LinesOf(rs) && v.hits == HitsOf(rs) && v.shape == Shape(rs)
    ensures TakenOff(b, fs, TakeOff(b.counts.Keys, acc, v))
  {
    hide Affected, InHome, HeldBy, Shape, Covered, Listed, LinesOf, HitsOf;
    var n := |fs| - 1;
    var f := fs[n];
    forall name ensures InHome(b, f, name) <==> name == v.name { HomeUnique(b, f, v.name, name); }
    forall name, l ensures Covered(b, fs, name, l) <==>
      Covered(b, fs[..n], name, l) || (name == v.name && l in v.lines)
    {
      CoveredStep(b, fs, name, l);
      LinesExact(f.regions, l);
    }
    forall name, s ensures Listed(b, fs, name, s) <==>
      Listed(b, fs[..n], name, s) || (name == v.name && s == v.shape)
    {
      ListedStep(b, fs, name, s);
    }
  }

  lemma AttributableStep(b: Base, fs: seq<Function>)
    requires b.Valid() && fs != []
    ensures var n := |fs| - 1;
      Attributable(b, fs) <==>
        && Attributable(b, fs[..n]) && FilesNamed(fs[n]) && (Affected(b, fs[n]) ==> HasHome(b, fs[n]))
        && forall i :: 0 <= i < n ==> !Repeats(b, fs[i], fs[n])
  {
    hide Affected, HasHome, FilesNamed, Repeats;
    var n := |fs| - 1;
    forall f ensures f in fs <==> f in fs[..n] || f == fs[n] { InLonger(fs, f); }
    assert forall i :: 0 <= i < n ==> fs[..n][i] == fs[i];
    assert fs[n] in fs;
  }

  /** A shape that is listed already is a repeated outline. */
  lemma ListedRepeats(b: Base, fs: seq<Function>, name: string)
    requires b.Valid() && fs != [] && Affected(b, fs[|fs| - 1]) && InHome(b, fs[|fs| - 1], name)
    ensures var n := |fs| - 1;
      Listed(b, fs[..n], name, Shape(fs[n].regions)) <==> exists i :: 0 <= i < n && Repeats(b, fs[i], fs[n])
  {
    hide Affected, InHome, Shape, Outline;
    var n := |fs| - 1;
    var g := fs[n];
    forall f: Function ensures Shape(f.regions) == multiset(Outline(f.regions)) { ShapeIsOutline(f.regions); }
    if Listed(b, fs[..n], name, Shape(g.regions)) {
      var f :| f in fs[..n] && Affected(b, f) && InHome(b, f, name) && Shape(f.regions) == Shape(g.regions);
      var i :| 0 <= i < n && fs[..n][i] == f;
      assert Repeats(b, fs[i], g);
    }
    if i :| 0 <= i < n && Repeats(b, fs[i], g) {
      var other :| InHome(b, fs[i], other) && InHome(b, g, other);
      HomeUnique(b, g, name, other);
      assert fs[i] == fs[..n][i];
    }
  }

  /**
   The attribution succeeds exactly when the functions are attributable, and takes off exactly
   the lines and hits of the functions that hold deleted lines.
   */
  lemma {:induction false} AccountExact(b: Base, fs: seq<Function>)
    requires b.Valid()
    ensures Account(b, fs).Some? <==> Attributable(b, fs)
    ensures Account(b, fs).Some? ==> TakenOff(b, fs, Account(b, fs).value)
    decreases |fs|
  {
    hide VerdictOf, Affected, HasHome, FilesNamed, Repeats, TakenOff, LinesOf, HitsOf, Shape, Base.Valid, InHome;
    hide Listed;
    if fs == [] {
      NothingTaken(b);
    } else {
      var n := |fs| - 1;
      AccountExact(b, fs[..n]);
      AttributableStep(b, fs);
      VerdictExact(b, fs[n]);
      VerdictName(b, fs[n]);
      if Account(b, fs[..n]).Some? {
        var acc, v := Account(b, fs[..n]).value, VerdictOf(b, fs[n]);
        if v == Untouched {
          NoRepeat(b, fs);
          UntouchedStep(b, fs, acc);
        } else if v.Removed? {
          RemovedFacts(b, fs[n]);
          ListedRepeats(b, fs, v.name);
          ListedShapes(b, fs[..n], acc, v.name, v.shape);
          if (v.name, v.shape) !in acc.shapes { RemovedStep(b, fs, acc, v); }
        }
      }
    }
  }

  lemma NothingTaken(b: Base)
    requires b.Valid()
    ensures Account(b, []).Some? && Attributable(b, []) && TakenOff(b, [], Account(b, []).value)
  {
  }

  lemma NoRepeat(b: Base, fs: seq<Function>)
    requires b.Valid() && fs != [] && !Affected(b, fs[|fs| - 1])
    ensures forall i :: 0 <= i < |fs| - 1 ==> !Repeats(b, fs[i], fs[|fs| - 1])
  {
    hide Affected;
  }

  lemma ListedShapes(b: Base, fs: seq<Function>, acc: Acc, name: string, shape: multiset<Region>)
    requires b.Valid() && acc.Over(b.counts.Keys) && TakenOff(b, fs, acc)
    ensures (name, shape) in acc.shapes <==> Listed(b, fs, name, shape)
  {
    hide Listed, Covered, LinesTaken, HitsTaken;
  }
}
