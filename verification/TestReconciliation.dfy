/**
 Reconciling a test listing with the run's JUnit document: every discovered test is accounted
 for once, and a first failure stays visible when a retry passes.
 */
module TestReconciliation {
  import opened Prelude

  // ----- the listing -----

  datatype Case = Case(ignored: bool, matches: bool)

  datatype Suite = Suite(binaryId: string, listed: bool, cases: map<string, Case>)

  type Suites = map<string, Suite>

  datatype Selection = Selected | Ignored | Filtered

  datatype Test = Test(state: Selection, binary: string)

  /** A binary and one of its test cases. */
  type Pair = (string, string)

  function Identity(p: Pair): string {
    p.0 + "::" + p.1
  }

  predicate Listed(suites: Suites, p: Pair) {
    p.0 in suites && p.1 in suites[p.0].cases
  }

  function TestOf(suites: Suites, p: Pair): Test
    requires Listed(suites, p)
  {
    var c := suites[p.0].cases[p.1];
    Test(if c.ignored then Ignored else if c.matches then Selected else Filtered, p.0)
  }

  ghost function Pairs(suites: Suites): set<Pair> {
    set k, n | k in suites && n in suites[k].cases :: (k, n)
  }

  predicate SuiteOk(key: string, s: Suite) {
    key != "" && key == s.binaryId && s.listed && "" !in s.cases
  }

  ghost predicate Unambiguous(pairs: set<Pair>) {
    forall p, q :: p in pairs && q in pairs && Identity(p) == Identity(q) ==> p == q
  }

  ghost predicate Chosen(suites: Suites, p: Pair) {
    Listed(suites, p) && !suites[p.0].cases[p.1].ignored && suites[p.0].cases[p.1].matches
  }

  /** The test stands for the case: selected unless it is ignored or filtered out. */
  ghost predicate Reflects(suites: Suites, p: Pair, t: Test) {
    && Listed(suites, p) && t.binary == p.0
    && (t.state == Selected <==> Chosen(suites, p)) && (t.state == Ignored <==> suites[p.0].cases[p.1].ignored)
  }

  lemma TestReflects(suites: Suites, p: Pair)
    requires Listed(suites, p)
    ensures Reflects(suites, p, TestOf(suites, p))
  {
  }

  /** The tests are exactly the given cases, under their identities. */
  ghost predicate Holds(suites: Suites, pairs: set<Pair>, tests: map<string, Test>) {
    && (forall p :: p in pairs ==> Identity(p) in tests && Reflects(suites, p, tests[Identity(p)]))
    && (forall id :: id in tests ==> exists p :: p in pairs && Identity(p) == id)
  }

  ghost predicate Selects(suites: Suites, key: string) {
    exists p :: Chosen(suites, p) && p.0 == key
  }

  ghost predicate ListingOk(suites: Suites, testCount: int, required: set<string>) {
    && suites != map[] && required != {}
    && (forall k :: k in suites ==> suites[k].listed && suites[k].binaryId == k && |k| > 0 && "" !in suites[k].cases)
    && Unambiguous(Pairs(suites)) && testCount == |Pairs(suites)|
    && (forall k :: k in required ==> Selects(suites, k))
  }

  lemma HoldsStep(suites: Suites, pairs: set<Pair>, tests: map<string, Test>, p: Pair)
    requires Holds(suites, pairs, tests) && Listed(suites, p) && p !in pairs && Identity(p) !in tests
    ensures Holds(suites, pairs + {p}, tests[Identity(p) := TestOf(suites, p)])
  {
    TestReflects(suites, p);
    hide Identity, TestOf, Listed, Reflects;
    var id := Identity(p);
    var t := tests[id := TestOf(suites, p)];
    forall i | i in t ensures exists q :: q in pairs + {p} && Identity(q) == i {
      if i != id {
        var q :| q in pairs && Identity(q) == i;
        assert q in pairs + {p};
      } else {
        assert p in pairs + {p};
      }
    }
  }

  lemma UnambiguousStep(suites: Suites, pairs: set<Pair>, tests: map<string, Test>, p: Pair)
    requires Holds(suites, pairs, tests) && Unambiguous(pairs) && p !in pairs
    ensures Unambiguous(pairs + {p}) <==> Identity(p) !in tests
  {
    hide Identity, Reflects;
    if Identity(p) in tests {
      var q :| q in pairs && Identity(q) == Identity(p);
      assert q in pairs + {p} && p in pairs + {p};
    }
  }

  lemma UnambiguousFewer(pairs: set<Pair>, more: set<Pair>)
    requires pairs <= more && Unambiguous(more)
    ensures Unambiguous(pairs)
  {
    hide Identity;
  }

  lemma HoldsRemove(suites: Suites, pairs: set<Pair>, tests: map<string, Test>, p: Pair)
    requires Holds(suites, pairs, tests) && Unambiguous(pairs) && p in pairs
    ensures Identity(p) in tests && Holds(suites, pairs - {p}, tests - {Identity(p)})
  {
    hide Identity, Reflects;
    var fewer, rest := pairs - {p}, tests - {Identity(p)};
    forall q | q in fewer ensures Identity(q) in rest { assert q in pairs && p in pairs; }
    forall id | id in rest ensures exists q :: q in fewer && Identity(q) == id {
      var q :| q in pairs && Identity(q) == id;
      assert q in fewer;
    }
  }

  lemma {:induction false} HoldsSize(suites: Suites, pairs: set<Pair>, tests: map<string, Test>)
    requires Holds(suites, pairs, tests) && Unambiguous(pairs)
    ensures |tests| == |pairs|
    decreases |pairs|
  {
    hide Identity, Reflects, Holds, Unambiguous;
    if pairs == {} {
      NoneHeld(suites, pairs, tests);
    } else {
      var p :| p in pairs;
      HoldsRemove(suites, pairs, tests, p);
      UnambiguousFewer(pairs - {p}, pairs);
      HoldsSize(suites, pairs - {p}, tests - {Identity(p)});
      assert tests.Keys == (tests - {Identity(p)}).Keys + {Identity(p)};
    }
  }

  lemma NoneHeld(suites: Suites, pairs: set<Pair>, tests: map<string, Test>)
    requires Holds(suites, pairs, tests) && pairs == {}
    ensures |tests| == 0
  {
    assert tests.Keys == {};
  }

  /** One suite's cases; `names` are those still to read. */
  method AddSuite(suites: Suites, key: string, ghost done0: set<Pair>, tests0: map<string, Test>)
      returns (ok: bool, tests: map<string, Test>, selected: bool, ghost done: set<Pair>)
    requires key in suites && Holds(suites, done0, tests0) && Unambiguous(done0)
    requires forall p :: p in done0 ==> p.0 != key
    ensures forall p :: p in done <==> p in done0 || (Listed(suites, p) && p.0 == key)
    ensures ok <==> Unambiguous(done)
    ensures ok ==> Holds(suites, done, tests) && (selected <==> Selects(suites, key))
  {
    hide Identity, TestOf, Holds, Unambiguous;
    var cases := suites[key].cases;
    ok, tests, selected, done := true, tests0, false, done0;
    var names := cases.Keys;
    while names != {}
      invariant names <= cases.Keys && Holds(suites, done, tests) && Unambiguous(done)
      invariant forall p :: p in done <==> p in done0 || (Listed(suites, p) && p.0 == key && p.1 !in names)
      invariant selected <==>
        exists p :: Chosen(suites, p) && p.0 == key && p.1 !in names
      decreases names
    {
      var name :| name in names;
      var p := (key, name);
      UnambiguousStep(suites, done, tests, p);
      if Identity(p) in tests {
        ghost var all := done + set n | n in names :: (key, n);
        Collision(done, all, p);
        ok, done := false, all;
        return;
      }
      HoldsStep(suites, done, tests, p);
      TestReflects(suites, p);
      var test := TestOf(suites, p);
      tests := tests[Identity(p) := test];
      selected := selected || test.state == Selected;
      names, done := names - {name}, done + {p};
    }
  }

  lemma Collision(done: set<Pair>, all: set<Pair>, p: Pair)
    requires done <= all && p in all && !Unambiguous(done + {p})
    ensures !Unambiguous(all)
  {
    hide Unambiguous;
    if Unambiguous(all) {
      UnambiguousFewer(done + {p}, all);
      assert false;
    }
  }

  /** `selected_tests`: the discovered tests by identity, or nothing if the listing is unusable. */
  method SelectedTests(suites: Suites, testCount: int, required: set<string>) returns (r: Option<map<string, Test>>)
    ensures r.Some? <==> ListingOk(suites, testCount, required)
    ensures r.Some? ==> Holds(suites, Pairs(suites), r.value)
  {
    hide Identity, TestOf, Holds, Unambiguous, Selects;
    if required == {} || suites == map[] { return None; }
    var tests: map<string, Test> := map[];
    var nonempty: set<string> := {};
    ghost var done: set<Pair> := {};
    NoTests(suites);
    var left := suites.Keys;
    while left != {}
      invariant left <= suites.Keys && Holds(suites, done, tests) && Unambiguous(done)
      invariant forall k :: k in suites && k !in left ==> SuiteOk(k, suites[k])
      invariant forall p :: p in done <==> Listed(suites, p) && p.0 !in left
      invariant forall k :: k in nonempty <==> k in suites && k !in left && Selects(suites, k)
      decreases left
    {
      var key :| key in left;
      if !SuiteOk(key, suites[key]) { return None; }
      var ok, more, selected;
      ghost var read;
      ok, more, selected, read := AddSuite(suites, key, done, tests);
      if !ok {
        AmbiguousSome(suites, read);
        return None;
      }
      tests, done := more, read;
      if selected { nonempty := nonempty + {key}; }
      left := left - {key};
    }
    assert done == Pairs(suites);
    HoldsSize(suites, done, tests);
    if testCount != |tests| || !(required <= suites.Keys) || !(required <= nonempty) {
      if required <= suites.Keys && testCount == |tests| { NotSelecting(suites, required, nonempty); }
      SelectsListed(suites, required);
      return None;
    }
    r := Some(tests);
  }

  lemma NoTests(suites: Suites)
    ensures Holds(suites, {}, map[]) && Unambiguous({})
  {
  }

  lemma AmbiguousSome(suites: Suites, read: set<Pair>)
    requires !Unambiguous(read) && forall p :: p in read ==> Listed(suites, p)
    ensures !Unambiguous(Pairs(suites))
  {
    hide Unambiguous;
    assert read <= Pairs(suites);
    if Unambiguous(Pairs(suites)) {
      UnambiguousFewer(read, Pairs(suites));
      assert false;
    }
  }

  lemma NotSelecting(suites: Suites, required: set<string>, nonempty: set<string>)
    requires required <= suites.Keys && !(required <= nonempty)
    requires forall k :: k in nonempty <==> k in suites && Selects(suites, k)
    ensures exists k :: k in required && !Selects(suites, k)
  {
    hide Selects;
    var k :| k in required && k !in nonempty;
  }

  lemma SelectsListed(suites: Suites, required: set<string>)
    ensures (forall k :: k in required ==> Selects(suites, k)) ==> required <= suites.Keys
  {
    if forall k :: k in required ==> Selects(suites, k) {
      forall k | k in required ensures k in suites { assert Selects(suites, k); }
    }
  }

  // ----- the run -----

  datatype Verdict = PASS | FAIL | SKIPPED

  /** A runtime skip marker in the captured output. */
  datatype Marker = Absent | Malformed | Reason

  /** A test case element with the number of its verdict children of each sort. */
  datatype Element = Element(suite: string, classname: string, name: string, failed: nat, skipped: nat, flaky: nat,
      rerun: nat, marker: Marker)

  function Failures(n: nat): (r: seq<Verdict>)
    ensures |r| == n && forall k :: 0 <= k < n ==> r[k] == FAIL
  {
    seq(n, i => FAIL)
  }

  /** The attempts in the order they are reported. */
  function Attempts(e: Element): (r: seq<Verdict>)
    ensures r != []
    ensures FAIL in r <==> e.skipped == 0 && (e.failed > 0 || e.flaky > 0)
  {
    if e.skipped > 0 then [SKIPPED]
    else if e.failed > 0 then
      var r := Failures(1 + e.rerun);
      assert r[0] == FAIL;
      r
    else
      var r := Failures(e.flaky) + [if e.marker == Reason then SKIPPED else PASS];
      assert e.flaky > 0 ==> r[0] == FAIL;
      r
  }

  predicate ElementOk(e: Element) {
    && e.suite != "" && e.name != "" && e.classname == e.suite && e.failed <= 1 && e.skipped <= 1
    && !(e.flaky > 0 && (e.failed > 0 || e.rerun > 0)) && !(e.rerun > 0 && e.failed == 0)
    && !(e.skipped > 0 && (e.failed > 0 || e.flaky > 0 || e.rerun > 0))
    && e.marker != Malformed && |Attempts(e)| <= 100
  }

  function NameOf(e: Element): string {
    Identity((e.classname, e.name))
  }

  /** An element that reports a pass after some flaky failures, a failure after some reruns, or a skip. */
  ghost predicate WellFormed(e: Element) {
    && e.classname == e.suite && |e.suite| > 0 && |e.name| > 0 && e.marker in {Absent, Reason}
    && ((e.failed == 0 && e.skipped == 0 && e.rerun == 0 && e.flaky <= 99)
        || (e.failed == 1 && e.skipped == 0 && e.rerun <= 99 && e.flaky == 0)
        || (e.failed == 0 && e.skipped == 1 && e.rerun == 0 && e.flaky == 0))
  }

  lemma ElementExact(e: Element)
    ensures ElementOk(e) <==> WellFormed(e)
  {
  }

  ghost predicate DocumentOk(es: seq<Element>) {
    && (forall k :: 0 <= k < |es| ==> WellFormed(es[k]))
    && (forall j, k :: 0 <= j < k < |es| ==> NameOf(es[j]) != NameOf(es[k]))
  }

  type Observed = map<string, seq<Verdict>>

  ghost predicate Records(es: seq<Element>, m: Observed) {
    && (forall k :: 0 <= k < |es| ==> NameOf(es[k]) in m && m[NameOf(es[k])] == Attempts(es[k]))
    && (forall id :: id in m ==> exists k :: 0 <= k < |es| && NameOf(es[k]) == id)
  }

  method ReadJUnit(es: seq<Element>) returns (r: Option<Observed>)
    ensures r.Some? <==> DocumentOk(es)
    ensures r.Some? ==> Records(es, r.value)
  {
    hide ElementOk, WellFormed, NameOf, Attempts;
    var m: Observed := map[];
    var n := 0;
    while n < |es|
      invariant 0 <= n <= |es| && Records(es[..n], m)
      invariant forall k :: 0 <= k < n ==> WellFormed(es[k])
      invariant forall j, k :: 0 <= j < k < n ==> NameOf(es[j]) != NameOf(es[k])
    {
      ElementExact(es[n]);
      if !ElementOk(es[n]) { return None; }
      if NameOf(es[n]) in m {
        var k :| 0 <= k < n && NameOf(es[..n][k]) == NameOf(es[n]);
        assert NameOf(es[k]) == NameOf(es[n]);
        return None;
      }
      RecordStep(es, n, m);
      m := m[NameOf(es[n]) := Attempts(es[n])];
      n := n + 1;
    }
    assert es[..n] == es;
    r := Some(m);
  }

  lemma RecordStep(es: seq<Element>, n: nat, m: Observed)
    requires n < |es| && Records(es[..n], m) && NameOf(es[n]) !in m
    ensures Records(es[..n + 1], m[NameOf(es[n]) := Attempts(es[n])])
    ensures forall j :: 0 <= j < n ==> NameOf(es[j]) != NameOf(es[n])
  {
    hide NameOf, Attempts;
    var all, t := es[..n + 1], m[NameOf(es[n]) := Attempts(es[n])];
    forall j | 0 <= j < n ensures NameOf(es[j]) != NameOf(es[n]) { assert NameOf(es[..n][j]) in m; }
    forall id | id in t ensures exists k :: 0 <= k < |all| && NameOf(all[k]) == id {
      if id in m {
        var k :| 0 <= k < n && NameOf(es[..n][k]) == id;
        assert NameOf(all[k]) == id;
      } else {
        assert NameOf(all[n]) == id;
      }
    }
    forall k | 0 <= k < |all| ensures NameOf(all[k]) in t && t[NameOf(all[k])] == Attempts(all[k]) {
      if k < n { assert all[k] == es[..n][k]; }
    }
  }

  // ----- reconciliation -----

  datatype Outcome = Passed | Failed | Skipped | Unselected

  function VerdictOf(attempts: seq<Verdict>): Outcome
    requires attempts != []
  {
    if FAIL in attempts then Failed else if attempts[|attempts| - 1] == PASS then Passed else Skipped
  }

  predicate Ran(attempts: seq<Verdict>) {
    exists k :: 0 <= k < |attempts| && attempts[k] != SKIPPED
  }

  datatype Results = Results(tests: map<string, Test>, observed: Observed) {
    /** Every selected test was observed, nothing else ran, and every observation has an attempt. */
    predicate Consistent() {
      && (forall id :: id in observed ==> id in tests && observed[id] != [])
      && (forall id :: id in tests && tests[id].state == Selected ==> id in observed)
      && (forall id :: id in observed && tests[id].state != Selected ==> !Ran(observed[id]))
    }

    predicate IsSelected(id: string) {
      id in tests && id in observed && observed[id] != [] && tests[id].state == Selected
    }

    function OutcomeOf(id: string): Outcome
      requires id in tests
    {
      if tests[id].state == Ignored then Skipped
      else if IsSelected(id) then VerdictOf(observed[id])
      else Unselected
    }

    predicate Executed(id: string) {
      IsSelected(id) && Ran(observed[id])
    }

    predicate Retried(id: string) {
      IsSelected(id) && |observed[id]| > 1
    }

    ghost function With(ids: set<string>, oc: Outcome): set<string> {
      set id | id in ids && id in tests && OutcomeOf(id) == oc
    }

    ghost function Executing(ids: set<string>): set<string> {
      set id | id in ids && Executed(id)
    }

    ghost function Retrying(ids: set<string>): set<string> {
      set id | id in ids && Retried(id)
    }

    ghost function Binaries(ids: set<string>): set<string> {
      set id | id in ids && Executed(id) :: tests[id].binary
    }
  }

  datatype Counts = Counts(discovered: nat, selected: nat, executed: nat, passed: nat, failed: nat, skipped: nat,
      filtered: nat, retried: nat)

  datatype Report = Report(counts: Counts, executedRequired: bool)

  function SelectedIds(tests: map<string, Test>): set<string> {
    set id | id in tests && tests[id].state == Selected
  }

  lemma SelectedId(tests: map<string, Test>, id: string)
    requires id in tests
    ensures id in SelectedIds(tests) <==> tests[id].state == Selected
  {
  }

  lemma Misrun(x: Results, id: string)
    requires id in x.tests && x.tests[id].state != Selected && id in x.observed && Ran(x.observed[id])
    ensures !x.Consistent()
  {
  }

  ghost function CountsFor(x: Results, ids: set<string>): Counts {
    Counts(|x.tests|, |SelectedIds(x.tests)|, |x.Executing(ids)|, |x.With(ids, Passed)|, |x.With(ids, Failed)|,
           |x.With(ids, Skipped)|, |x.With(ids, Unselected)|, |x.Retrying(ids)|)
  }

  lemma OutcomeStep(x: Results, done: set<string>, id: string, oc: Outcome)
    requires id in x.tests && id !in done
    ensures |x.With(done + {id}, oc)| == |x.With(done, oc)| + if x.OutcomeOf(id) == oc then 1 else 0
  {
    hide Results.OutcomeOf;
    Grow(done, id, y => y in x.tests && x.OutcomeOf(y) == oc, x.With(done, oc), x.With(done + {id}, oc));
  }

  lemma ExecutedStep(x: Results, done: set<string>, id: string)
    requires id !in done
    ensures |x.Executing(done + {id})| == |x.Executing(done)| + if x.Executed(id) then 1 else 0
  {
    hide Results.Executed;
    Grow(done, id, y => x.Executed(y), x.Executing(done), x.Executing(done + {id}));
  }

  lemma RetriedStep(x: Results, done: set<string>, id: string)
    requires id !in done
    ensures |x.Retrying(done + {id})| == |x.Retrying(done)| + if x.Retried(id) then 1 else 0
  {
    hide Results.Retried;
    Grow(done, id, y => x.Retried(y), x.Retrying(done), x.Retrying(done + {id}));
  }

  lemma BinariesStep(x: Results, done: set<string>, id: string)
    requires id in x.tests
    ensures x.Binaries(done + {id}) == x.Binaries(done) + if x.Executed(id) then {x.tests[id].binary} else {}
  {
  }

  function Count(c: Counts, x: Results, id: string): Counts
    requires id in x.tests
  {
    var oc := x.OutcomeOf(id);
    Counts(c.discovered, c.selected, c.executed + (if x.Executed(id) then 1 else 0),
           c.passed + (if oc == Passed then 1 else 0), c.failed + (if oc == Failed then 1 else 0),
           c.skipped + (if oc == Skipped then 1 else 0), c.filtered + (if oc == Unselected then 1 else 0),
           c.retried + (if x.Retried(id) then 1 else 0))
  }

  lemma CountStep(x: Results, done: set<string>, id: string)
    requires id in x.tests && id !in done
    ensures CountsFor(x, done + {id}) == Count(CountsFor(x, done), x, id)
  {
    hide Results.OutcomeOf, Results.Executed, Results.Retried, Results.With, Results.Executing, Results.Retrying;
    OutcomeStep(x, done, id, Passed);
    OutcomeStep(x, done, id, Failed);
    OutcomeStep(x, done, id, Skipped);
    OutcomeStep(x, done, id, Unselected);
    ExecutedStep(x, done, id);
    RetriedStep(x, done, id);
  }

  lemma NothingCounted(x: Results)
    ensures CountsFor(x, {}) == Counts(|x.tests|, |SelectedIds(x.tests)|, 0, 0, 0, 0, 0, 0)
    ensures x.Binaries({}) == {}
  {
    hide Results.OutcomeOf, Results.Executed, Results.Retried;
    assert x.With({}, Passed) == {} && x.With({}, Failed) == {} && x.With({}, Skipped) == {};
    assert x.With({}, Unselected) == {};
    assert x.Executing({}) == {} && x.Retrying({}) == {};
  }

  /** One discovered test: an unselected one must not have run, a selected one is counted by its attempts. */
  method CountTest(x: Results, id: string, counts0: Counts,
      binaries0: set<string>) returns (ok: bool, counts: Counts, binaries: set<string>)
    requires id in x.tests && (x.tests[id].state == Selected ==> id in x.observed)
    requires (id in x.observed ==> x.observed[id] != [])
    ensures ok <==> !(x.tests[id].state != Selected && id in x.observed && Ran(x.observed[id]))
    ensures ok ==>
      counts == Count(counts0, x, id) && binaries == binaries0 + if x.Executed(id) then {x.tests[id].binary} else {}
  {
    hide VerdictOf, Ran;
    ok, counts, binaries := true, counts0, binaries0;
    if x.tests[id].state != Selected {
      ok := !(id in x.observed && Ran(x.observed[id]));
      if x.tests[id].state == Ignored {
        counts := counts.(skipped := counts.skipped + 1);
      } else {
        counts := counts.(filtered := counts.filtered + 1);
      }
      return;
    }
    var attempts := x.observed[id];
    if |attempts| > 1 { counts := counts.(retried := counts.retried + 1); }
    if Ran(attempts) {
      counts := counts.(executed := counts.executed + 1);
      binaries := binaries + {x.tests[id].binary};
    }
    NotUnselected(attempts);
    match VerdictOf(attempts) {
      case Failed => counts := counts.(failed := counts.failed + 1);
      case Passed => counts := counts.(passed := counts.passed + 1);
      case _ => counts := counts.(skipped := counts.skipped + 1);
    }
  }

  ghost predicate Progress(x: Results, done: set<string>, counts: Counts, binaries: set<string>) {
    && counts == CountsFor(x, done) && binaries == x.Binaries(done)
    && forall id :: id in done && id in x.tests && id in x.observed && x.tests[id].state != Selected ==>
      !Ran(x.observed[id])
  }

  lemma ProgressStep(x: Results, done: set<string>, counts: Counts, binaries: set<string>, id: string)
    requires Progress(x, done, counts, binaries) && id in x.tests && id !in done
    requires !(x.tests[id].state != Selected && id in x.observed && Ran(x.observed[id]))
    ensures var more := if x.Executed(id) then {x.tests[id].binary} else {};
      Progress(x, done + {id}, Count(counts, x, id), binaries + more)
  {
    hide CountsFor, Results.Binaries, Results.Executed, Count, Ran;
    CountStep(x, done, id);
    BinariesStep(x, done, id);
  }

  lemma ProgressDone(x: Results, counts: Counts, binaries: set<string>)
    requires Progress(x, x.tests.Keys, counts, binaries) && x.observed.Keys <= x.tests.Keys
    requires SelectedIds(x.tests) <= x.observed.Keys
    requires forall id :: id in x.observed ==> x.observed[id] != []
    ensures x.Consistent() && counts == CountsFor(x, x.tests.Keys) && binaries == x.Binaries(x.tests.Keys)
  {
    hide CountsFor, Results.Binaries, Ran;
    forall id | id in x.tests && x.tests[id].state == Selected ensures id in x.observed {
      assert id in SelectedIds(x.tests);
    }
  }

  /** The loop over the discovered tests. */
  method Reconcile(tests: map<string, Test>, observed: Observed, required: set<string>) returns (r: Option<Report>)
    requires forall id :: id in observed ==> observed[id] != []
    ensures r.Some? <==> Results(tests, observed).Consistent()
    ensures r.Some? ==> r.value.counts == CountsFor(Results(tests, observed), tests.Keys)
    ensures r.Some? ==> (r.value.executedRequired <==> required <= Results(tests, observed).Binaries(tests.Keys))
  {
    hide CountsFor, Results.Binaries, Results.Executed, Ran, Results.Consistent, SelectedIds, Count;
    var x := Results(tests, observed);
    var selected := SelectedIds(tests);
    if !(observed.Keys <= tests.Keys) || !(selected <= observed.Keys) {
      Inconsistent(x, selected);
      return None;
    }
    var counts := Counts(|tests|, |selected|, 0, 0, 0, 0, 0, 0);
    var binaries: set<string> := {};
    ghost var done: set<string> := {};
    var left := tests.Keys;
    NothingCounted(x);
    while left != {}
      invariant done + left == tests.Keys && done !! left && Progress(x, done, counts, binaries)
      decreases left
    {
      hide Progress;
      var id :| id in left;
      SelectedId(tests, id);
      ghost var c, b := counts, binaries;
      var ok;
      ok, counts, binaries := CountTest(x, id, counts, binaries);
      if !ok {
        Misrun(x, id);
        return None;
      }
      ProgressStep(x, done, c, b, id);
      left, done := left - {id}, done + {id};
    }
    assert done == tests.Keys;
    ProgressDone(x, counts, binaries);
    r := Some(Report(counts, required <= binaries));
  }

  lemma NotUnselected(attempts: seq<Verdict>)
    requires attempts != []
    ensures VerdictOf(attempts) != Unselected
  {
  }

  lemma Inconsistent(x: Results, selected: set<string>)
    requires selected == SelectedIds(x.tests)
    requires !(x.observed.Keys <= x.tests.Keys) || !(selected <= x.observed.Keys)
    ensures !x.Consistent()
  {
    hide Ran;
    if !(x.observed.Keys <= x.tests.Keys) {
      var id :| id in x.observed.Keys && id !in x.tests.Keys;
      assert id in x.observed;
    } else {
      var id :| id in selected && id !in x.observed.Keys;
      assert id in x.tests && x.tests[id].state == Selected;
    }
  }

  // ----- what the report means -----

  lemma FourWay<T(!new)>(all: set<T>, f: T -> Outcome, p: set<T>, q: set<T>, s: set<T>, u: set<T>)
    requires forall x :: x in p <==> x in all && f(x) == Passed
    requires forall x :: x in q <==> x in all && f(x) == Failed
    requires forall x :: x in s <==> x in all && f(x) == Skipped
    requires forall x :: x in u <==> x in all && f(x) == Unselected
    ensures |p| + |q| + |s| + |u| == |all|
  {
    assert all == p + q + s + u;
    assert |p + q| == |p| + |q| && |p + q + s| == |p + q| + |s| && |p + q + s + u| == |p + q + s| + |u|;
  }

  /** Every discovered test is counted once: passed, failed, skipped and filtered add up. */
  lemma CountsAddUp(x: Results)
    ensures var c := CountsFor(x, x.tests.Keys); c.passed + c.failed + c.skipped + c.filtered == c.discovered
  {
    hide Results.OutcomeOf;
    var ids := x.tests.Keys;
    FourWay(ids, id => if id in x.tests then x.OutcomeOf(id) else Passed, x.With(ids, Passed), x.With(ids, Failed),
      x.With(ids, Skipped), x.With(ids, Unselected));
  }

  /** A selected test with a failing attempt is counted as failed, whatever its last attempt says. */
  lemma FailureStaysVisible(x: Results, id: string)
    requires x.Consistent() && id in x.tests && x.tests[id].state == Selected
    ensures id in x.observed && (FAIL in x.observed[id] <==> id in x.With(x.tests.Keys, Failed))
  {
    hide Ran;
  }

  function ExitCode(r: Option<Report>): nat {
    if r.None? then 2 else if r.value.counts.failed > 0 || !r.value.executedRequired then 1 else 0
  }

  lemma NoneFailed(x: Results)
    requires x.Consistent()
    ensures CountsFor(x, x.tests.Keys).failed == 0 <==>
      forall id :: id in x.tests && x.tests[id].state == Selected ==> id in x.observed && FAIL !in x.observed[id]
  {
    hide Results.Consistent, Results.Executing, Results.Retrying;
    var failed := x.With(x.tests.Keys, Failed);
    assert |failed| == 0 <==> failed == {};
    forall id | id in x.tests && x.tests[id].state == Selected
      ensures id in x.observed && (FAIL in x.observed[id] <==> id in failed)
    {
      FailureStaysVisible(x, id);
    }
    if failed != {} {
      var id :| id in failed;
      FailedIsSelected(x, id);
    }
  }

  lemma FailedIsSelected(x: Results, id: string)
    requires id in x.With(x.tests.Keys, Failed)
    ensures id in x.tests && x.tests[id].state == Selected
  {
  }

  // ----- the report from the listing and the document alone -----

  /** The element reports on this listed case. */
  ghost predicate About(p: Pair, e: Element) {
    p.0 + "::" + p.1 == e.classname + "::" + e.name
  }

  ghost predicate ReportsFailure(e: Element) {
    e.failed > 0 || e.flaky > 0
  }

  /** The element says the test did not run: a skip, or a pass whose output gives a reason for skipping. */
  ghost predicate ReportsSkip(e: Element) {
    e.skipped > 0 || (e.failed == 0 && e.flaky == 0 && e.marker == Reason)
  }

  lemma AttemptsMean(e: Element)
    requires WellFormed(e)
    ensures Ran(Attempts(e)) <==> !ReportsSkip(e)
    ensures |Attempts(e)| > 1 <==> e.flaky > 0 || e.rerun > 0
    ensures VerdictOf(Attempts(e)) ==
      if ReportsFailure(e) then Failed else if ReportsSkip(e) then Skipped else Passed
  {
    var attempts := Attempts(e);
    assert attempts[0] != SKIPPED || |attempts| == 1;
  }

  /** Every element is of a listed case, chosen ones have an element, and no other case ran. */
  ghost predicate Accounted(suites: Suites, es: seq<Element>) {
    && (forall e :: e in es ==> exists p :: Listed(suites, p) && About(p, e))
    && (forall p :: Chosen(suites, p) ==> exists e :: e in es && About(p, e))
    && (forall p, e :: e in es && Listed(suites, p) && About(p, e) && !Chosen(suites, p) ==> ReportsSkip(e))
  }

  /** The listing and the document, as the two readers hand them over. */
  ghost predicate Read(suites: Suites, es: seq<Element>, x: Results) {
    Holds(suites, Pairs(suites), x.tests) && DocumentOk(es) && Records(es, x.observed)
  }

  lemma ReadCase(suites: Suites, es: seq<Element>, x: Results, p: Pair)
    requires Read(suites, es, x) && Listed(suites, p)
    ensures Identity(p) in x.tests && Reflects(suites, p, x.tests[Identity(p)])
  {
    assert p in Pairs(suites);
  }

  lemma ReadElement(suites: Suites, es: seq<Element>, x: Results, e: Element)
    requires Read(suites, es, x) && e in es
    ensures WellFormed(e) && NameOf(e) in x.observed && x.observed[NameOf(e)] == Attempts(e)
  {
    var k :| 0 <= k < |es| && es[k] == e;
  }

  lemma ReadObserved(suites: Suites, es: seq<Element>, x: Results, id: string) returns (e: Element)
    requires Read(suites, es, x) && id in x.observed
    ensures e in es && NameOf(e) == id
  {
    var k :| 0 <= k < |es| && NameOf(es[k]) == id;
    e := es[k];
  }

  lemma ReadTest(suites: Suites, es: seq<Element>, x: Results, id: string) returns (p: Pair)
    requires Read(suites, es, x) && id in x.tests
    ensures Listed(suites, p) && Identity(p) == id
  {
    p :| p in Pairs(suites) && Identity(p) == id;
  }

  lemma AccountedIfConsistent(suites: Suites, es: seq<Element>, x: Results)
    requires Read(suites, es, x) && x.Consistent()
    ensures Accounted(suites, es)
  {
    hide Read, Reflects, WellFormed, Attempts, Ran, ReportsSkip, VerdictOf;
    forall e | e in es ensures exists p :: Listed(suites, p) && About(p, e) {
      ReadElement(suites, es, x, e);
      var p := ReadTest(suites, es, x, NameOf(e));
      assert About(p, e);
    }
    forall p | Chosen(suites, p) ensures exists e :: e in es && About(p, e) {
      ReadCase(suites, es, x, p);
      SelectedIsChosen(suites, p, x.tests[Identity(p)]);
      var e := ReadObserved(suites, es, x, Identity(p));
      assert About(p, e);
    }
    forall p, e | e in es && Listed(suites, p) && About(p, e) && !Chosen(suites, p) ensures ReportsSkip(e) {
      ReadCase(suites, es, x, p);
      SelectedIsChosen(suites, p, x.tests[Identity(p)]);
      ReadElement(suites, es, x, e);
      AttemptsMean(e);
      assert NameOf(e) == Identity(p);
    }
  }

  lemma SelectedIsChosen(suites: Suites, p: Pair, test: Test)
    requires Reflects(suites, p, test)
    ensures test.state == Selected <==> Chosen(suites, p)
  {
  }

  lemma ConsistentIfAccounted(suites: Suites, es: seq<Element>, x: Results)
    requires Read(suites, es, x) && Accounted(suites, es)
    ensures x.Consistent()
  {
    hide Read, Reflects, WellFormed, Attempts, Ran, ReportsSkip, VerdictOf;
    forall id | id in x.observed
      ensures id in x.tests && x.observed[id] != [] && (x.tests[id].state == Selected || !Ran(x.observed[id]))
    {
      var e := ReadObserved(suites, es, x, id);
      ReadElement(suites, es, x, e);
      AttemptsMean(e);
      var p :| Listed(suites, p) && About(p, e);
      assert Identity(p) == id;
      ReadCase(suites, es, x, p);
      SelectedIsChosen(suites, p, x.tests[id]);
    }
    forall id | id in x.tests && x.tests[id].state == Selected ensures id in x.observed {
      var p := ReadTest(suites, es, x, id);
      ReadCase(suites, es, x, p);
      SelectedIsChosen(suites, p, x.tests[id]);
      var e :| e in es && About(p, e);
      assert NameOf(e) == id;
      ReadElement(suites, es, x, e);
    }
  }

  /** A chosen test is counted by its element: a failure counts before a skip, and only a skip did not run. */
  ghost predicate CountedAs(x: Results, id: string, e: Element)
    requires id in x.tests
  {
    && x.OutcomeOf(id) == (if ReportsFailure(e) then Failed else if ReportsSkip(e) then Skipped else Passed)
    && (x.Executed(id) <==> !ReportsSkip(e)) && (x.Retried(id) <==> e.flaky > 0 || e.rerun > 0)
  }

  /** What each case is counted as, from its listing and its element. */
  lemma OutcomeFromDocument(suites: Suites, es: seq<Element>, x: Results, p: Pair)
    requires Read(suites, es, x) && Listed(suites, p)
    ensures Identity(p) in x.tests
    ensures var oc := x.OutcomeOf(Identity(p));
      if suites[p.0].cases[p.1].ignored then oc == Skipped
      else if !suites[p.0].cases[p.1].matches then oc == Unselected
      else forall e :: e in es && About(p, e) ==> CountedAs(x, Identity(p), e)
  {
    hide Read, WellFormed, Attempts, Ran, ReportsSkip, ReportsFailure, VerdictOf;
    ReadCase(suites, es, x, p);
    forall e | e in es && About(p, e) && Chosen(suites, p) ensures CountedAs(x, Identity(p), e) {
      assert NameOf(e) == Identity(p);
      ReadElement(suites, es, x, e);
      AttemptsMean(e);
    }
  }

  /** A chosen case of the binary ran. */
  ghost predicate BinaryRan(suites: Suites, es: seq<Element>, b: string) {
    exists p, e :: Chosen(suites, p) && e in es && About(p, e) && p.0 == b && !ReportsSkip(e)
  }

  lemma BinaryRanIs(suites: Suites, es: seq<Element>, x: Results, b: string)
    requires Read(suites, es, x)
    ensures b in x.Binaries(x.tests.Keys) <==> BinaryRan(suites, es, b)
  {
    hide Read, WellFormed, Attempts, Ran, ReportsSkip, VerdictOf;
    if b in x.Binaries(x.tests.Keys) {
      var id :| id in x.tests && x.Executed(id) && x.tests[id].binary == b;
      var p := ReadTest(suites, es, x, id);
      ReadCase(suites, es, x, p);
      var e := ReadObserved(suites, es, x, id);
      ReadElement(suites, es, x, e);
      AttemptsMean(e);
      assert About(p, e);
    }
    if p, e :| Chosen(suites, p) && e in es && About(p, e) && p.0 == b && !ReportsSkip(e) {
      assert NameOf(e) == Identity(p);
      ReadCase(suites, es, x, p);
      ReadElement(suites, es, x, e);
      AttemptsMean(e);
      assert x.Executed(Identity(p));
    }
  }

  lemma NoFailureIs(suites: Suites, es: seq<Element>, x: Results)
    requires Read(suites, es, x) && Accounted(suites, es)
    ensures (forall id :: id in x.tests && x.tests[id].state == Selected ==>
        id in x.observed && FAIL !in x.observed[id]) <==> forall e :: e in es ==> !ReportsFailure(e)
  {
    hide Read, Reflects, Attempts, Ran, VerdictOf;
    ConsistentIfAccounted(suites, es, x);
    if forall e :: e in es ==> !ReportsFailure(e) {
      forall id | id in x.tests && x.tests[id].state == Selected ensures id in x.observed && FAIL !in x.observed[id] {
        var e := ReadObserved(suites, es, x, id);
        ReadElement(suites, es, x, e);
      }
    }
    if e :| e in es && ReportsFailure(e) {
      ReadElement(suites, es, x, e);
      var p :| Listed(suites, p) && About(p, e);
      assert Chosen(suites, p);
      ReadCase(suites, es, x, p);
      SelectedIsChosen(suites, p, x.tests[Identity(p)]);
      assert Identity(p) == NameOf(e);
    }
  }

  lemma VerdictFromDocument(suites: Suites, es: seq<Element>, x: Results, required: set<string>)
    requires Read(suites, es, x)
    ensures x.Consistent() <==> Accounted(suites, es)
    ensures Accounted(suites, es) ==>
      ((forall id :: id in x.tests && x.tests[id].state == Selected ==>
          id in x.observed && FAIL !in x.observed[id]) <==>
        forall e :: e in es ==> !ReportsFailure(e))
    ensures required <= x.Binaries(x.tests.Keys) <==> forall b :: b in required ==> BinaryRan(suites, es, b)
  {
    hide Read, Accounted, Results.Consistent, Results.Binaries, BinaryRan, ReportsFailure;
    if x.Consistent() { AccountedIfConsistent(suites, es, x); }
    if Accounted(suites, es) {
      ConsistentIfAccounted(suites, es, x);
      NoFailureIs(suites, es, x);
    }
    forall b ensures b in x.Binaries(x.tests.Keys) <==> BinaryRan(suites, es, b) { BinaryRanIs(suites, es, x, b); }
  }

  /** `main`: the whole reconciliation of a listing and a document. */
  method Check(suites: Suites, testCount: int, required: set<string>,
      es: seq<Element>) returns (code: nat, ghost x: Results)
    ensures code != 2 <==> ListingOk(suites, testCount, required) && DocumentOk(es) && Accounted(suites, es)
    ensures ListingOk(suites, testCount, required) ==> Holds(suites, Pairs(suites), x.tests)
    ensures DocumentOk(es) ==> Records(es, x.observed)
    ensures code == 0 <==>
      && code != 2 && (forall e :: e in es ==> !ReportsFailure(e))
      && (forall b :: b in required ==> BinaryRan(suites, es, b))
    ensures code <= 2
  {
    hide ListingOk, DocumentOk, Holds, Records, Results.Consistent, CountsFor, Accounted, BinaryRan, ReportsFailure;
    x := Results(map[], map[]);
    var tests := SelectedTests(suites, testCount, required);
    if tests.Some? { x := x.(tests := tests.value); }
    var observed := ReadJUnit(es);
    if observed.Some? { x := x.(observed := observed.value); }
    if tests.None? || observed.None? { return 2, x; }
    HasAttempts(es, observed.value);
    VerdictFromDocument(suites, es, x, required);
    var r := Reconcile(tests.value, observed.value, required);
    if r.Some? { NoneFailed(x); }
    code := ExitCode(r);
  }

  lemma HasAttempts(es: seq<Element>, m: Observed)
    requires Records(es, m)
    ensures forall id :: id in m ==> m[id] != []
  {
    hide NameOf, Attempts;
    forall id | id in m ensures m[id] != [] {
      var k :| 0 <= k < |es| && NameOf(es[k]) == id;
    }
  }

  /** A flaky test, one that failed before it passed, fails the run. */
  lemma FlakyFails(es: seq<Element>, x: Results, k: nat)
    requires DocumentOk(es) && Records(es, x.observed) && x.Consistent() && k < |es| && es[k].flaky > 0
    requires NameOf(es[k]) in x.tests && x.tests[NameOf(es[k])].state == Selected
    ensures NameOf(es[k]) in x.With(x.tests.Keys, Failed)
  {
    hide NameOf, Results.Consistent, Results.With;
    var id := NameOf(es[k]);
    assert WellFormed(es[k]);
    assert FAIL in Attempts(es[k]);
    FailureStaysVisible(x, id);
  }
}
