/**
 Combining the admissions of the native lanes of one run. Each lane was admitted on its own;
 the union certifies a contract only when every one of its tests ran once and passed.
 */
module AdmissionUnion {
  import opened Prelude
  import opened ContractAdmission

  datatype Provenance = Provenance(sourceSha: string, runId: string, runAttempt: int, platform: string, os: string,
                                   arch: string, features: set<string>, lane: string)

  /** A contract of the manifest with the platforms and features it is for. */
  datatype Listed = Listed(contract: Contract, skips: map<string, string>, platforms: set<string>,
                           features: set<string>, without: set<string>)

  type Manifest = map<string, Listed>

  datatype Summary = Summary(sourceSha: string, platform: string, lane: string, supported: int, counts: Counts,
      passed: bool)

  datatype Admission = Admission(provenance: Provenance, report: Summary, required: set<string>)

  const NATIVE_LANES: set<string> := {"native-parser", "native-cli-fixture", "native-daemon-fixture"}

  predicate Applies(l: Listed, p: Provenance) {
    p.platform in l.platforms && l.features <= p.features && l.without !! p.features
  }

  predicate Consistent(m: Manifest) {
    forall id :: id in m ==> m[id].features !! m[id].without
  }

  function Resolved(l: Listed, p: Provenance): Contract {
    l.contract.(skipReason := if p.platform in l.skips then Some(l.skips[p.platform]) else None)
  }

  function Relevant(m: Manifest, p: Provenance): map<string, Contract> {
    map id | id in m && Applies(m[id], p) :: Resolved(m[id], p)
  }

  /** A contract counts in a run exactly when its platform is listed and its features are on and its exclusions off. */
  lemma ScopeExact(m: Manifest, p: Provenance, id: string)
    ensures id in Relevant(m, p) <==>
      && id in m && p.platform in m[id].platforms
      && (forall f :: f in m[id].features ==> f in p.features)
      && (forall f :: f in m[id].without ==> f !in p.features)
    ensures id in Relevant(m, p) ==>
      var c, listed := Relevant(m, p)[id], m[id].contract;
      && c.surface == listed.surface && c.tests == listed.tests && c.binary == listed.binary
      && (c.skipReason.Some? <==> p.platform in m[id].skips)
      && (c.skipReason.Some? ==> c.skipReason.value == m[id].skips[p.platform])
  {
    if id in m && (forall f :: f in m[id].without ==> f !in p.features) {
      assert m[id].without !! p.features;
    }
  }

  predicate SameRun(p: Provenance, q: Provenance) {
    p.(lane := "") == q.(lane := "")
  }

  /** The same commit, run, attempt, machine and features. */
  ghost predicate OneRun(p: Provenance, q: Provenance) {
    && p.sourceSha == q.sourceSha && p.runId == q.runId && p.runAttempt == q.runAttempt
    && p.platform == q.platform && p.os == q.os && p.arch == q.arch && p.features == q.features
  }

  lemma RunExact(p: Provenance, q: Provenance)
    ensures SameRun(p, q) <==> OneRun(p, q)
  {
    var a, b := p.(lane := ""), q.(lane := "");
    assert a.sourceSha == p.sourceSha && a.runId == p.runId && a.runAttempt == p.runAttempt && a.os == p.os;
    assert a.platform == p.platform && a.arch == p.arch && a.features == p.features;
    assert b.sourceSha == q.sourceSha && b.runId == q.runId && b.runAttempt == q.runAttempt && b.os == q.os;
    assert b.platform == q.platform && b.arch == q.arch && b.features == q.features;
  }

  /** Lanes of one run see the same contracts. */
  lemma SameContracts(m: Manifest, p: Provenance, q: Provenance)
    requires SameRun(p, q)
    ensures Relevant(m, p) == Relevant(m, q)
  {
    assert p.platform == p.(lane := "").platform == q.(lane := "").platform == q.platform;
    assert p.features == p.(lane := "").features == q.(lane := "").features == q.features;
  }

  predicate OnLane(tests: seq<Binding>, lane: string) {
    exists k :: 0 <= k < |tests| && tests[k].lane == lane
  }

  predicate AllNative(tests: seq<Binding>) {
    forall k :: 0 <= k < |tests| ==> tests[k].lane in NATIVE_LANES
  }

  ghost function LaneOwners(contracts: map<string, Contract>, lane: string): set<string> {
    set id | id in contracts && OnLane(contracts[id].tests, lane)
  }

  ghost function NativeOwners(contracts: map<string, Contract>): set<string> {
    set id | id in contracts && exists lane :: lane in NATIVE_LANES && OnLane(contracts[id].tests, lane)
  }

  ghost predicate ClaimOk(contracts: map<string, Contract>, base: Provenance, a: Admission) {
    && SameRun(a.provenance, base)
    && a.provenance.lane in NATIVE_LANES
    && a.required != {} && a.required == LaneOwners(contracts, a.provenance.lane)
    && FullPass(contracts, a)
  }

  /** The report of this lane and run: every required contract passed, at the first attempt. */
  ghost predicate FullPass(contracts: map<string, Contract>, a: Admission) {
    var p, n, executed := a.provenance, |a.required|, a.report.counts.executed;
    a.report == Summary(p.sourceSha, p.platform, p.lane, |contracts|, Counts(n, executed, n, 0, 0, 0), true)
  }

  lemma ReportExact(contracts: map<string, Contract>, a: Admission)
    ensures ReportOk(contracts, a) <==> FullPass(contracts, a)
  {
  }

  predicate ReportOk(contracts: map<string, Contract>, a: Admission) {
    var r := a.report;
    && r.sourceSha == a.provenance.sourceSha && r.platform == a.provenance.platform && r.lane == a.provenance.lane
    && r.supported == |contracts| && r.counts.required == |a.required| && r.counts.passed == |a.required|
    && r.counts.failed == 0 && r.counts.skipped == 0 && r.passed && r.counts.retried == 0
  }

  ghost predicate DistinctLanes(admissions: seq<Admission>) {
    forall j, k :: 0 <= j < k < |admissions| ==> admissions[j].provenance.lane != admissions[k].provenance.lane
  }

  ghost predicate HasLane(admissions: seq<Admission>, lane: string) {
    exists k :: 0 <= k < |admissions| && admissions[k].provenance.lane == lane
  }

  /** One admission for every native lane that owns a contract, all of one run, none with a retry. */
  ghost predicate Certified(m: Manifest, admissions: seq<Admission>) {
    && admissions != [] && Consistent(m) && DistinctLanes(admissions)
    && var base := admissions[0].provenance;
       var contracts := Relevant(m, base);
       && (forall k :: 0 <= k < |admissions| ==> ClaimOk(contracts, base, admissions[k]))
       && (forall lane :: lane in NATIVE_LANES && LaneOwners(contracts, lane) != {} ==> HasLane(admissions, lane))
  }

  /** The contracts the union credits: those all of whose tests are on native lanes. */
  ghost function Credited(contracts: map<string, Contract>): set<string> {
    set id | id in contracts && contracts[id].tests != [] && AllNative(contracts[id].tests)
  }

  // ----- the lanes that must be present -----

  type Lanes = map<string, set<string>>

  function AddOwner(m: Lanes, lane: string, id: string): Lanes {
    m[lane := (if lane in m then m[lane] else {}) + {id}]
  }

  ghost predicate In(m: Lanes, lane: string, id: string) {
    lane in m && id in m[lane]
  }

  ghost predicate NoEmpty(m: Lanes) {
    forall lane :: lane in m ==> exists id :: id in m[lane]
  }

  lemma AddOwnerAt(m: Lanes, lane: string, id: string)
    ensures forall l, x :: In(AddOwner(m, lane, id), l, x) <==> In(m, l, x) || (l, x) == (lane, id)
    ensures NoEmpty(m) ==> NoEmpty(AddOwner(m, lane, id))
  {
    var n := AddOwner(m, lane, id);
    assert id in n[lane];
    if NoEmpty(m) {
      forall l | l in n ensures exists x :: x in n[l] {
        if l != lane {
          var x :| x in m[l];
          assert x in n[l];
        }
      }
    }
  }

  ghost predicate LanesOf(contracts: map<string, Contract>, done: set<string>, m: Lanes)
    requires done <= contracts.Keys
  {
    && NoEmpty(m)
    && forall lane, id :: In(m, lane, id) <==> lane in NATIVE_LANES && id in done && OnLane(contracts[id].tests, lane)
  }

  method AddTests(contracts: map<string, Contract>, id: string, ghost done: set<string>, m0: Lanes) returns (m: Lanes)
    requires done <= contracts.Keys && id in contracts && id !in done && LanesOf(contracts, done, m0)
    ensures LanesOf(contracts, done + {id}, m)
  {
    hide AddOwner, In, NoEmpty, OnLane;
    m := m0;
    var tests := contracts[id].tests;
    var i := 0;
    assert tests[..0] == [];
    NotOnLane();
    while i < |tests|
      invariant 0 <= i <= |tests| && NoEmpty(m)
      invariant forall l, x :: In(m, l, x) <==>
        l in NATIVE_LANES && ((x in done && OnLane(contracts[x].tests, l)) || (x == id && OnLane(tests[..i], l)))
    {
      OnLaneStep(tests, i);
      if tests[i].lane in NATIVE_LANES {
        AddOwnerAt(m, tests[i].lane, id);
        m := AddOwner(m, tests[i].lane, id);
      }
      i := i + 1;
    }
    assert tests[..i] == tests;
  }

  lemma NotOnLane()
    ensures forall lane :: !OnLane([], lane)
  {
  }

  lemma OnLaneStep(tests: seq<Binding>, i: nat)
    requires i < |tests|
    ensures forall lane :: OnLane(tests[..i + 1], lane) <==> OnLane(tests[..i], lane) || lane == tests[i].lane
  {
    forall lane ensures OnLane(tests[..i + 1], lane) <==> OnLane(tests[..i], lane) || lane == tests[i].lane {
      if OnLane(tests[..i], lane) {
        var k :| 0 <= k < i && tests[..i][k].lane == lane;
        assert tests[..i + 1][k].lane == lane;
      }
      if lane == tests[i].lane { assert tests[..i + 1][i].lane == lane; }
      if OnLane(tests[..i + 1], lane) && lane != tests[i].lane {
        var k :| 0 <= k < i + 1 && tests[..i + 1][k].lane == lane;
        assert tests[..i][k].lane == lane;
      }
    }
  }

  /** The owners of every native lane that has any. */
  method BuildLanes(contracts: map<string, Contract>) returns (m: Lanes)
    ensures LanesOf(contracts, contracts.Keys, m)
  {
    m := map[];
    var left := contracts.Keys;
    ghost var done: set<string> := {};
    while left != {}
      invariant done + left == contracts.Keys && done !! left && LanesOf(contracts, done, m)
      decreases left
    {
      hide LanesOf;
      var id :| id in left;
      m := AddTests(contracts, id, done, m);
      left, done := left - {id}, done + {id};
    }
    assert done == contracts.Keys;
  }

  lemma LaneEntry(contracts: map<string, Contract>, m: Lanes, lane: string)
    requires LanesOf(contracts, contracts.Keys, m)
    ensures lane in m <==> lane in NATIVE_LANES && LaneOwners(contracts, lane) != {}
    ensures lane in m ==> m[lane] == LaneOwners(contracts, lane)
  {
    hide OnLane;
    if lane in NATIVE_LANES && LaneOwners(contracts, lane) != {} {
      var id :| id in LaneOwners(contracts, lane);
      assert In(m, lane, id);
    }
    if lane in m {
      var id :| id in m[lane];
      assert In(m, lane, id);
      assert id in LaneOwners(contracts, lane);
      forall x ensures x in m[lane] <==> x in LaneOwners(contracts, lane) {
        assert In(m, lane, x) <==> x in LaneOwners(contracts, lane);
      }
    }
  }

  // ----- combining the admissions -----

  /** The lanes seen in the first n admissions, each with the contracts it owns. */
  ghost predicate Seen(admissions: seq<Admission>, n: nat, observed: Lanes)
    requires n <= |admissions|
  {
    && (forall lane :: lane in observed <==> HasLane(admissions[..n], lane))
    && (forall k :: 0 <= k < n ==>
         admissions[k].provenance.lane in observed && observed[admissions[k].provenance.lane] == admissions[k].required)
  }

  lemma SeenStep(admissions: seq<Admission>, n: nat, observed: Lanes)
    requires n < |admissions| && Seen(admissions, n, observed) && admissions[n].provenance.lane !in observed
    ensures Seen(admissions, n + 1, observed[admissions[n].provenance.lane := admissions[n].required])
  {
    var lane := admissions[n].provenance.lane;
    assert admissions[..n + 1] == admissions[..n] + [admissions[n]];
    forall l ensures HasLane(admissions[..n + 1], l) <==> HasLane(admissions[..n], l) || l == lane {
      if HasLane(admissions[..n], l) {
        var k :| 0 <= k < n && admissions[..n][k].provenance.lane == l;
        assert admissions[..n + 1][k].provenance.lane == l;
      }
      if l == lane { assert admissions[..n + 1][n].provenance.lane == l; }
    }
    forall k | 0 <= k < n ensures admissions[k].provenance.lane != lane {
      assert HasLane(admissions[..n], admissions[..n][k].provenance.lane);
    }
  }

  lemma Repeated(admissions: seq<Admission>, n: nat, observed: Lanes)
    requires n < |admissions| && Seen(admissions, n, observed)
    ensures admissions[n].provenance.lane in observed ==> !DistinctLanes(admissions)
  {
    var lane := admissions[n].provenance.lane;
    if lane in observed {
      var k :| 0 <= k < n && admissions[..n][k].provenance.lane == lane;
      assert admissions[k].provenance.lane == admissions[n].provenance.lane;
    }
  }

  lemma NothingSeen(admissions: seq<Admission>)
    ensures Seen(admissions, 0, map[])
  {
  }

  ghost predicate DistinctUpTo(admissions: seq<Admission>, n: nat)
    requires n <= |admissions|
  {
    forall j, k :: 0 <= j < k < n ==> admissions[j].provenance.lane != admissions[k].provenance.lane
  }

  lemma DistinctStep(admissions: seq<Admission>, n: nat, observed: Lanes)
    requires n < |admissions| && Seen(admissions, n, observed) && DistinctUpTo(admissions, n)
    requires admissions[n].provenance.lane !in observed
    ensures DistinctUpTo(admissions, n + 1)
  {
  }

  lemma ClaimByLane(contracts: map<string, Contract>, expected: Lanes, base: Provenance, a: Admission)
    requires LanesOf(contracts, contracts.Keys, expected)
    ensures var lane := a.provenance.lane;
      ClaimOk(contracts, base, a) <==>
        && SameRun(a.provenance, base) && ReportOk(contracts, a)
        && a.required != {} && a.required == (if lane in expected then expected[lane] else {})
  {
    ReportExact(contracts, a);
    hide LanesOf, SameRun, ReportOk, FullPass, LaneOwners;
    LaneEntry(contracts, expected, a.provenance.lane);
  }

  /** The loop over the admissions: every claim is acceptable and no lane comes twice. */
  method CheckClaims(contracts: map<string, Contract>, expected: Lanes,
      admissions: seq<Admission>) returns (r: Option<Lanes>)
    requires admissions != [] && LanesOf(contracts, contracts.Keys, expected)
    ensures r.Some? <==>
      DistinctLanes(admissions) && forall k :: 0 <= k < |admissions| ==>
        ClaimOk(contracts, admissions[0].provenance, admissions[k])
    ensures r.Some? ==> Seen(admissions, |admissions|, r.value)
  {
    hide LanesOf, SameRun, ReportOk, LaneOwners, ClaimOk, Seen;
    var base := admissions[0].provenance;
    var observed: Lanes := map[];
    var n := 0;
    NothingSeen(admissions);
    while n < |admissions|
      invariant 0 <= n <= |admissions| && Seen(admissions, n, observed) && DistinctUpTo(admissions, n)
      invariant forall k :: 0 <= k < n ==> ClaimOk(contracts, base, admissions[k])
    {
      hide DistinctUpTo;
      var a := admissions[n];
      var lane := a.provenance.lane;
      Repeated(admissions, n, observed);
      ClaimByLane(contracts, expected, base, a);
      if !SameRun(a.provenance, base) || lane in observed { return None; }
      var owned := if lane in expected then expected[lane] else {};
      if a.required == {} || a.required != owned || !ReportOk(contracts, a) {
        return None;
      }
      SeenStep(admissions, n, observed);
      DistinctStep(admissions, n, observed);
      observed := observed[lane := a.required];
      n := n + 1;
    }
    return Some(observed);
  }

  datatype Union = Union(lanes: set<string>, supported: nat, selected: set<string>, passed: set<string>,
                         covered: set<string>, uncovered: set<string>, targetMet: bool)

  function Members(m: Lanes): set<string> {
    set lane, id | lane in m && id in m[lane] :: id
  }

  predicate AllObserved(tests: seq<Binding>, observed: Lanes) {
    forall k :: 0 <= k < |tests| ==> tests[k].lane in observed
  }

  /** The lanes observed are the ones expected, so the selected and credited contracts depend on the manifest only. */
  lemma ObservedDecides(contracts: map<string, Contract>, expected: Lanes, observed: Lanes)
    requires LanesOf(contracts, contracts.Keys, expected) && observed == expected
    ensures Members(observed) == NativeOwners(contracts)
    ensures (set id | id in Members(observed) && id in contracts && AllObserved(contracts[id].tests, observed))
      == Credited(contracts)
  {
    hide OnLane;
    forall id ensures id in Members(observed) <==> id in NativeOwners(contracts) {
      forall lane
        ensures In(observed, lane, id) <==> lane in NATIVE_LANES && id in contracts && OnLane(contracts[id].tests, lane)
      {}
      if id in Members(observed) {
        var lane :| lane in observed && id in observed[lane];
        assert In(observed, lane, id);
      }
      if id in NativeOwners(contracts) {
        var lane :| lane in NATIVE_LANES && OnLane(contracts[id].tests, lane);
        assert In(observed, lane, id);
      }
    }
    forall id | id in contracts
      ensures id in Credited(contracts) <==>
        id in Members(observed) && AllObserved(contracts[id].tests, observed)
    {
      CreditedOne(contracts, observed, id);
    }
  }

  lemma CreditedOne(contracts: map<string, Contract>, observed: Lanes, id: string)
    requires LanesOf(contracts, contracts.Keys, observed) && id in contracts
    ensures id in Credited(contracts) <==>
      id in Members(observed) && AllObserved(contracts[id].tests, observed)
  {
    var tests := contracts[id].tests;
    forall k | 0 <= k < |tests|
      ensures tests[k].lane in observed <==> tests[k].lane in NATIVE_LANES
      ensures tests[k].lane in observed ==> In(observed, tests[k].lane, id)
    {
      assert OnLane(tests, tests[k].lane);
      assert In(observed, tests[k].lane, id) <==> tests[k].lane in NATIVE_LANES;
      LaneEntry(contracts, observed, tests[k].lane);
    }
    if id in Credited(contracts) {
      assert In(observed, tests[0].lane, id);
    }
    if id in Members(observed) {
      var lane :| lane in observed && id in observed[lane];
      assert In(observed, lane, id);
    }
  }

  /** `aggregate_admissions`: the union of the admitted native lanes of one run. */
  method Aggregate(m: Manifest, gaps: seq<Gap>, reviewed: bool, admissions: seq<Admission>) returns (r: Option<Union>)
    ensures r.Some? <==> Certified(m, admissions)
    ensures r.Some? ==>
      var contracts := Relevant(m, admissions[0].provenance);
      && r.value.supported == |contracts|
      && r.value.selected == NativeOwners(contracts) && r.value.passed == Credited(contracts)
      && (forall lane :: lane in r.value.lanes <==> lane in NATIVE_LANES && LaneOwners(contracts, lane) != {})
      && r.value.covered == Covered(contracts, gaps, Credited(contracts))
      && r.value.uncovered == Behavioral(contracts, gaps) - r.value.covered
      && var all := Behavioral(contracts, gaps);
         r.value.targetMet <==> reviewed && all != {} && 100 * |r.value.covered| >= 95 * |all|
  {
    if admissions == [] || !Consistent(m) { return None; }
    var contracts := Relevant(m, admissions[0].provenance);
    var expected := BuildLanes(contracts);
    var claims := CheckClaims(contracts, expected, admissions);
    if claims.None? { return None; }
    var observed := claims.value;
    LanesMatch(m, contracts, expected, admissions, observed);
    if observed.Keys != expected.Keys { return None; }
    ObservedDecides(contracts, expected, observed);
    var selected := Members(observed);
    var passed := set id | id in selected && id in contracts && AllObserved(contracts[id].tests, observed);
    var covered, uncovered, met := BehavioralProgress(contracts, gaps, passed, reviewed);
    r := Some(Union(observed.Keys, |contracts|, selected, passed, covered, uncovered, met));
    forall lane ensures lane in observed.Keys <==> lane in NATIVE_LANES && LaneOwners(contracts, lane) != {} {
      LaneEntry(contracts, expected, lane);
    }
  }

  lemma LanesMatch(m: Manifest, contracts: map<string, Contract>, expected: Lanes, admissions: seq<Admission>,
      observed: Lanes)
    requires admissions != [] && Consistent(m) && DistinctLanes(admissions)
    requires contracts == Relevant(m, admissions[0].provenance)
    requires forall k :: 0 <= k < |admissions| ==> ClaimOk(contracts, admissions[0].provenance, admissions[k])
    requires LanesOf(contracts, contracts.Keys, expected) && Seen(admissions, |admissions|, observed)
    ensures observed.Keys == expected.Keys <==> Certified(m, admissions)
    ensures observed.Keys == expected.Keys ==> observed == expected
  {
    hide LanesOf, SameRun, FullPass, LaneOwners, Relevant;
    assert admissions[..|admissions|] == admissions;
    forall lane ensures lane in expected <==> lane in NATIVE_LANES && LaneOwners(contracts, lane) != {} {
      LaneEntry(contracts, expected, lane);
    }
    forall lane | lane in observed ensures lane in expected && observed[lane] == expected[lane] {
      var k :| 0 <= k < |admissions| && admissions[k].provenance.lane == lane;
      assert ClaimOk(contracts, admissions[0].provenance, admissions[k]);
      LaneEntry(contracts, expected, lane);
    }
  }

  // ----- what the union certifies -----

  ghost function SummaryOf(p: Provenance, v: Evidence): Summary
    requires v.Valid()
  {
    Summary(p.sourceSha, p.platform, v.o.lane, |v.o.contracts|, CountsOf(v, v.o.required), ReportPassed(v))
  }

  /** The claim is the report of an admission of that lane's receipts. */
  ghost predicate Honest(m: Manifest, a: Admission, o: Owner, rows: seq<Row>) {
    && o.Valid() && o.contracts == Relevant(m, a.provenance) && o.required == a.required && o.lane == a.provenance.lane
    && Admitted(o, rows).Some?
    && var v := Admitted(o, rows).value;
       && v.Valid() && v.o == o
       && a.report == SummaryOf(a.provenance, v)
  }

  /** Of an honest report only the pass and the absence of retries need checking. */
  lemma HonestReportOk(m: Manifest, a: Admission, o: Owner, rows: seq<Row>)
    requires Honest(m, a, o, rows)
    ensures ReportOk(Relevant(m, a.provenance), a) <==> a.report.passed && a.report.counts.retried == 0
  {
    hide Admitted, Owner.Valid, Relevant, Evidence.Valid;
    var v := Admitted(o, rows).value;
    CountsAddUp(v, o.required, Parser);
  }

  /** The one receipt of a test that passed at its first and only attempt. */
  ghost predicate SolePass(o: Owner, rows: seq<Row>, id: string, b: Binding, r: Row) {
    && r in rows && KeyOf(r) == (id, b.id) && r.attempt == 1 && r.attemptCount == 1
    && r.result == PASS && r.cleanup == Clean && r.evidence == b.evidence && r.assertions == b.assertions
    && id in o.contracts && r.binary == o.contracts[id].binary && r.binary in o.binaries
    && r.sha256 == o.binaries[r.binary]
    && (forall s :: s in rows && KeyOf(s) == (id, b.id) ==> s == r)
  }

  lemma NotRetried(v: Evidence, key: Key)
    requires v.Valid() && CountsOf(v, v.o.required).retried == 0 && key in v.expected
    ensures |v.histories[key]| == 1
  {
    hide Complete;
    assert Complete(v.histories[key]);
    assert v.RetriedIds(v.o.required) == {};
    assert key in v.Keys(key.0);
    assert key.0 in v.RetriedIds(v.o.required) <==> v.Retried(v.Keys(key.0));
    NonEmptyHistory(v.histories[key]);
  }

  lemma NonEmptyHistory(h: map<int, Row>)
    requires Complete(h)
    ensures |h| >= 1
  {
  }

  lemma OnlyReceipt(v: Evidence, rows: seq<Row>, key: Key, s: Row)
    requires v.Valid() && Holds(v.histories, rows) && key in v.expected && |v.histories[key]| == 1
    requires s in rows && KeyOf(s) == key
    ensures 1 in v.histories[key] && s == v.histories[key][1]
  {
    FirstOnly(v.histories[key]) by { assert Complete(v.histories[key]); }
    hide Complete, Evidence.Valid, OnlyRows, NoEmptyHistory;
    var k :| 0 <= k < |rows| && rows[k] == s;
    assert Recorded(v.histories, rows[k]);
  }

  lemma FirstOnly(h: map<int, Row>)
    requires Complete(h) && |h| == 1
    ensures forall a :: a in h <==> a == 1
  {
  }

  lemma SoleReceipt(o: Owner, rows: seq<Row>, v: Evidence, id: string, k: nat) returns (r: Row)
    requires o.Valid() && Admitted(o, rows) == Some(v) && v.Valid() && v.o == o && ReportPassed(v)
    requires CountsOf(v, o.required).retried == 0
    requires id in o.required && k < |o.contracts[id].tests| && o.contracts[id].tests[k].lane == o.lane
    ensures SolePass(o, rows, id, o.contracts[id].tests[k], r)
  {
    var b := o.contracts[id].tests[k];
    assert v.expected.Keys == v.histories.Keys;
    hide *;
    var key := (id, b.id);
    AdmittedFacts(o, rows, v);
    ExpectedAt(o, id, k);
    PassedTests(v, key);
    PassedLast(v, key);
    NotRetried(v, key);
    HistoryRow(v, rows, key, 1);
    r := v.histories[key][1];
    PassedRow(o, v.expected, rows, r);
    forall s | s in rows && KeyOf(s) == key ensures s == r {
      OnlyReceipt(v, rows, key, s);
    }
    Receipt(o, v.expected, rows, id, b, r);
  }

  lemma Receipt(o: Owner, expected: map<Key, Binding>, rows: seq<Row>, id: string, b: Binding, r: Row)
    requires forall k :: 0 <= k < |rows| ==> RowOk(o, expected, rows[k])
    requires r in rows && Slot(r) == ((id, b.id), 1) && r.attemptCount == 1 && r.result == PASS && r.cleanup == Clean
    requires (id, b.id) in expected && expected[(id, b.id)] == b
    requires forall s :: s in rows && KeyOf(s) == (id, b.id) ==> s == r
    ensures SolePass(o, rows, id, b, r)
  {
    var k :| 0 <= k < |rows| && rows[k] == r;
  }

  /**
   Every test of every credited contract has, on its own lane of the same run, exactly one
   receipt: a clean pass at the first attempt, with all the evidence and assertions bound to it.
   */
  lemma UnionIsBacked(m: Manifest, admissions: seq<Admission>, owners: seq<Owner>, rows: seq<seq<Row>>, id: string,
      k: nat)
      returns (i: nat, r: Row)
    requires Certified(m, admissions) && |owners| == |rows| == |admissions|
    requires forall j :: 0 <= j < |admissions| ==> Honest(m, admissions[j], owners[j], rows[j])
    requires id in Credited(Relevant(m, admissions[0].provenance))
    requires k < |Relevant(m, admissions[0].provenance)[id].tests|
    ensures i < |admissions| && OneRun(admissions[i].provenance, admissions[0].provenance)
    ensures var b := Relevant(m, admissions[0].provenance)[id].tests[k];
      admissions[i].provenance.lane == b.lane && SolePass(owners[i], rows[i], id, b, r)
  {
    hide Relevant, SolePass, CountsOf, ReportPassed, SameRun, Evidence.Valid, Owner.Valid, Admitted;
    var base := admissions[0].provenance;
    var contracts := Relevant(m, base);
    var b := contracts[id].tests[k];
    assert OnLane(contracts[id].tests, b.lane);
    assert id in LaneOwners(contracts, b.lane);
    i :| 0 <= i < |admissions| && admissions[i].provenance.lane == b.lane;
    var a := admissions[i];
    assert ClaimOk(contracts, base, a) && Honest(m, a, owners[i], rows[i]);
    RunExact(a.provenance, base);
    SameContracts(m, a.provenance, base);
    r := SoleReceipt(owners[i], rows[i], Admitted(owners[i], rows[i]).value, id, k);
  }

  /** A contract with a test off the native lanes is never credited, whatever the lanes report. */
  lemma ForeignTestNeverCredited(contracts: map<string, Contract>, gaps: seq<Gap>, id: string, k: nat)
    requires id in contracts && k < |contracts[id].tests| && contracts[id].tests[k].lane !in NATIVE_LANES
    ensures id !in Credited(contracts)
    ensures IsBehavioral(contracts[id]) ==> contracts[id].surface !in Covered(contracts, gaps, Credited(contracts))
  {
    if IsBehavioral(contracts[id]) { assert id in Owners(contracts, contracts[id].surface); }
  }
}
