/**
 Admission of contract receipts for one execution owner: which tests a lane owes, what an
 unordered pile of receipts with retries says about them, and what is reported.
 */
module ContractAdmission {
  import opened Prelude

  // ----- manifest and receipts -----

  datatype Kind = Parser | Help | Refusal | Success | State | Fault | Concurrency

  datatype Binding = Binding(id: string, lane: string, evidence: set<Kind>, assertions: set<string>)

  /** A contract that applies here; `skipReason` is the approved reason for this platform. */
  datatype Contract = Contract(surface: string, binary: string, critical: bool, kinds: set<Kind>,
                               assertions: map<Kind, set<string>>, tests: seq<Binding>, skipReason: Option<string>)

  datatype Verdict = PASS | FAIL | SKIPPED | BLOCKED | HARNESS_ERROR
  datatype Cleanup = Clean | Dirty | NotStarted

  type Key = (string, string)

  /** A receipt; `identity` stands for the schema, identity, duration and seed checks. */
  datatype Row = Row(identity: bool, contract: string, testId: string, binary: string, sha256: string,
                     attempt: int, attemptCount: int, result: Verdict, cleanup: Cleanup,
                     evidence: set<Kind>, assertions: set<string>, reason: Option<string>)

  /** What the caller established: the applicable contracts, the owed ones, the lane and its binaries. */
  datatype Owner = Owner(contracts: map<string, Contract>, required: set<string>, lane: string,
      binaries: map<string, string>) {
    ghost predicate Valid() {
      && required <= contracts.Keys
      && forall id :: id in contracts ==>
        contracts[id].kinds != {} && contracts[id].assertions.Keys == contracts[id].kinds
    }
  }

  function KeyOf(r: Row): Key {
    (r.contract, r.testId)
  }

  function Slot(r: Row): (Key, int) {
    (KeyOf(r), r.attempt)
  }

  // ----- the tests a lane owes -----

  function Union(m: map<Kind, set<string>>, kinds: set<Kind>): set<string> {
    set k, a | k in kinds && k in m && a in m[k] :: a
  }

  /** A test may only claim required kinds, and must make every assertion the contract lists for them. */
  predicate BindingOk(c: Contract, b: Binding) {
    b.evidence != {} && b.evidence <= c.kinds && b.assertions != {} && Union(c.assertions, b.evidence) <= b.assertions
  }

  ghost function Supplied(tests: seq<Binding>, lane: string): set<Kind> {
    set k, e | 0 <= k < |tests| && tests[k].lane == lane && e in tests[k].evidence :: e
  }

  ghost predicate DistinctIds(tests: seq<Binding>, lane: string) {
    forall j, k :: 0 <= j < k < |tests| && tests[j].lane == tests[k].lane == lane ==> tests[j].id != tests[k].id
  }

  ghost predicate ContractOk(c: Contract, lane: string) {
    && c.tests != []
    && (forall k :: 0 <= k < |c.tests| ==> BindingOk(c, c.tests[k]))
    && DistinctIds(c.tests, lane)
    && Supplied(c.tests, lane) == c.kinds
  }

  /** The binding of a test on a lane. */
  function Find(tests: seq<Binding>, lane: string, id: string): (r: Option<Binding>)
    ensures r.Some? ==> r.value in tests && r.value.lane == lane && r.value.id == id
    ensures r.None? ==> forall k :: 0 <= k < |tests| ==> !(tests[k].lane == lane && tests[k].id == id)
  {
    if tests == [] then None
    else if tests[0].lane == lane && tests[0].id == id then Some(tests[0])
    else Find(tests[1..], lane, id)
  }

  ghost function OwedKeys(o: Owner): set<Key>
    requires o.Valid()
  {
    set id, k | id in o.required && 0 <= k < |o.contracts[id].tests| && o.contracts[id].tests[k].lane == o.lane
      :: (id, o.contracts[id].tests[k].id)
  }

  /** Every owed test with its binding. */
  ghost function Expected(o: Owner): map<Key, Binding>
    requires o.Valid()
  {
    map key | key in OwedKeys(o) && Find(o.contracts[key.0].tests, o.lane, key.1).Some?
      :: Find(o.contracts[key.0].tests, o.lane, key.1).value
  }

  ghost predicate OwnerOk(o: Owner)
    requires o.Valid()
  {
    forall id :: id in o.required ==> ContractOk(o.contracts[id], o.lane)
  }

  // ----- receipts -----

  predicate RowOk(o: Owner, expected: map<Key, Binding>, r: Row) {
    && r.identity && KeyOf(r) in expected && r.contract in o.contracts
    && var c, b := o.contracts[r.contract], expected[KeyOf(r)];
       && r.binary == c.binary && r.binary in o.binaries && r.sha256 == o.binaries[r.binary]
       && 1 <= r.attempt <= r.attemptCount <= 100
       && r.evidence <= b.evidence && r.assertions <= b.assertions
       && (r.result == SKIPPED ==> c.skipReason.Some? && r.reason == c.skipReason)
       && (r.result == SKIPPED ==> r.evidence == {} && r.assertions == {})
       && (r.result == PASS ==> r.evidence == b.evidence && r.assertions == b.assertions)
  }

  type Histories = map<Key, map<int, Row>>

  function Record(m: Histories, r: Row): Histories {
    m[KeyOf(r) := (if KeyOf(r) in m then m[KeyOf(r)] else map[])[r.attempt := r]]
  }

  predicate Recorded(m: Histories, r: Row) {
    KeyOf(r) in m && r.attempt in m[KeyOf(r)]
  }

  /** The attempts of every test, or nothing if a receipt is unacceptable or repeats an attempt. */
  function Collect(o: Owner, expected: map<Key, Binding>, rows: seq<Row>): Option<Histories> {
    if rows == [] then Some(map[])
    else
      var last := rows[|rows| - 1];
      match Collect(o, expected, rows[..|rows| - 1])
      case None => None
      case Some(m) => if RowOk(o, expected, last) && !Recorded(m, last) then Some(Record(m, last)) else None
  }

  predicate DistinctSlots(rows: seq<Row>) {
    forall j, k :: 0 <= j < k < |rows| ==> Slot(rows[j]) != Slot(rows[k])
  }

  ghost predicate HoldsRows(m: Histories, rows: seq<Row>) {
    forall k :: 0 <= k < |rows| ==> Recorded(m, rows[k]) && m[KeyOf(rows[k])][rows[k].attempt] == rows[k]
  }

  ghost predicate OnlyRows(m: Histories, rows: seq<Row>) {
    forall key, a :: key in m && a in m[key] ==> m[key][a] in rows && Slot(m[key][a]) == (key, a)
  }

  ghost predicate NoEmptyHistory(m: Histories) {
    forall key :: key in m ==> exists a :: a in m[key]
  }

  /** Exactly the given receipts are recorded, each under its test and attempt. */
  ghost predicate Holds(m: Histories, rows: seq<Row>) {
    HoldsRows(m, rows) && OnlyRows(m, rows) && NoEmptyHistory(m)
  }

  lemma {:induction false} CollectExact(o: Owner, expected: map<Key, Binding>, rows: seq<Row>)
    ensures Collect(o, expected, rows).Some? <==>
      (forall k :: 0 <= k < |rows| ==> RowOk(o, expected, rows[k])) && DistinctSlots(rows)
    ensures Collect(o, expected, rows).Some? ==> Holds(Collect(o, expected, rows).value, rows)
    decreases |rows|
  {
    hide RowOk, Holds, Record, Recorded;
    if rows == [] {
      NothingHeld();
    } else {
      var n := |rows| - 1;
      var before, last := rows[..n], rows[n];
      CollectExact(o, expected, before);
      assert rows == before + [last];
      var m := Collect(o, expected, before);
      if m.Some? {
        RecordedBefore(m.value, before, last);
        if !Recorded(m.value, last) { RecordHolds(m.value, before, last); }
      }
    }
  }

  lemma NothingHeld()
    ensures Holds(map[], [])
  {
  }

  lemma RecordedBefore(m: Histories, rows: seq<Row>, r: Row)
    requires Holds(m, rows)
    ensures Recorded(m, r) <==> exists k :: 0 <= k < |rows| && Slot(rows[k]) == Slot(r)
  {
    if Recorded(m, r) {
      var row := m[KeyOf(r)][r.attempt];
      assert row in rows && Slot(row) == Slot(r);
      var k :| 0 <= k < |rows| && rows[k] == row;
    }
  }

  /** Recording a receipt changes only its own slot. */
  lemma RecordAt(m: Histories, r: Row, key: Key, a: int)
    ensures (key in Record(m, r) && a in Record(m, r)[key]) <==> ((key in m && a in m[key]) || (key, a) == Slot(r))
    ensures Record(m, r).Keys == m.Keys + {KeyOf(r)}
    ensures (key, a) == Slot(r) ==> Record(m, r)[key][a] == r
    ensures (key, a) != Slot(r) && key in m && a in m[key] ==> Record(m, r)[key][a] == m[key][a]
  {
  }

  lemma RecordHolds(m: Histories, rows: seq<Row>, r: Row)
    requires Holds(m, rows) && !Recorded(m, r)
    ensures Holds(Record(m, r), rows + [r])
  {
    hide Record;
    var m', all := Record(m, r), rows + [r];
    forall k | 0 <= k < |all| ensures Recorded(m', all[k]) && m'[KeyOf(all[k])][all[k].attempt] == all[k] {
      RecordAt(m, r, KeyOf(all[k]), all[k].attempt);
      if k < |rows| { assert all[k] == rows[k] && Recorded(m, rows[k]); }
    }
    forall key, a | key in m' && a in m'[key] ensures m'[key][a] in all && Slot(m'[key][a]) == (key, a) {
      RecordAt(m, r, key, a);
    }
    forall key | key in m' ensures exists a :: a in m'[key] {
      RecordAt(m, r, key, r.attempt);
      if key in m {
        var a :| a in m[key];
        RecordAt(m, r, key, a);
      }
    }
  }

  // ----- verdicts -----

  /** The attempts are numbered one to n, and every receipt says so. */
  ghost predicate Complete(h: map<int, Row>) {
    && h != map[]
    && (forall a :: a in h <==> 1 <= a <= |h|)
    && (forall a :: a in h ==> h[a].attemptCount == |h|)
  }

  predicate Failing(r: Row) {
    r.result in {FAIL, BLOCKED, HARNESS_ERROR} || r.cleanup == Dirty || (r.result == PASS && r.cleanup != Clean)
  }

  datatype Outcome = Passed | Failed | Skipped

  /** A critical contract counts every attempt, another one only the last. */
  function TestOutcome(critical: bool, h: map<int, Row>): Outcome
    requires |h| in h
  {
    var last := h[|h|];
    if Failing(last) || (critical && exists a :: a in h && Failing(h[a])) then Failed
    else if last.result == PASS then Passed
    else Skipped
  }

  /** Everything admission works with after the receipts have been collected. */
  datatype Evidence = Evidence(o: Owner, expected: map<Key, Binding>, histories: Histories) {
    ghost predicate Valid() {
      && o.Valid() && expected.Keys == histories.Keys
      && (forall key :: key in expected ==> key.0 in o.required && Complete(histories[key]))
    }

    function Outcome(key: Key): Outcome
      requires Valid() && key in expected
    {
      TestOutcome(o.contracts[key.0].critical, histories[key])
    }

    function Keys(id: string): (r: set<Key>)
      ensures r <= expected.Keys
    {
      set key | key in expected && key.0 == id
    }

    function KeysFor(id: string, kind: Kind): (r: set<Key>)
      ensures r <= expected.Keys
    {
      set key | key in expected && key.0 == id && kind in expected[key].evidence
    }

    /** One failure fails the group; it passes only if every test passed. */
    function Group(keys: set<Key>): Outcome
      requires Valid() && keys <= expected.Keys
    {
      if exists key :: key in keys && Outcome(key) == Failed then Failed
      else if forall key :: key in keys ==> Outcome(key) == Passed then Passed
      else Skipped
    }

    predicate Executed(keys: set<Key>)
      requires Valid() && keys <= expected.Keys
    {
      exists key, a :: key in keys && a in histories[key] && histories[key][a].result in {PASS, FAIL}
    }

    predicate Retried(keys: set<Key>)
      requires Valid() && keys <= expected.Keys
    {
      exists key :: key in keys && |histories[key]| > 1
    }

    ghost function WithOutcome(ids: set<string>, oc: Outcome): set<string>
      requires Valid()
    {
      set id | id in ids && Group(Keys(id)) == oc
    }

    ghost function ExecutedIds(ids: set<string>): set<string>
      requires Valid()
    {
      set id | id in ids && Executed(Keys(id))
    }

    ghost function RetriedIds(ids: set<string>): set<string>
      requires Valid()
    {
      set id | id in ids && Retried(Keys(id))
    }

    ghost function KindExecuted(ids: set<string>, kind: Kind): set<string>
      requires Valid() && ids <= o.required
    {
      set id | id in ids && kind in o.contracts[id].kinds && Executed(KeysFor(id, kind))
    }

    ghost function Requiring(ids: set<string>, kind: Kind): set<string>
      requires Valid() && ids <= o.required
    {
      set id | id in ids && kind in o.contracts[id].kinds
    }

    ghost function KindWithOutcome(ids: set<string>, kind: Kind, oc: Outcome): set<string>
      requires Valid() && ids <= o.required
    {
      set id | id in ids && kind in o.contracts[id].kinds && Group(KeysFor(id, kind)) == oc
    }
  }

  datatype Counts = Counts(required: nat, executed: nat, passed: nat, failed: nat, skipped: nat, retried: nat)

  ghost function CountsOf(v: Evidence, ids: set<string>): Counts
    requires v.Valid()
  {
    Counts(|ids|, |v.ExecutedIds(ids)|, |v.WithOutcome(ids, Passed)|, |v.WithOutcome(ids, Failed)|,
           |v.WithOutcome(ids, Skipped)|, |v.RetriedIds(ids)|)
  }

  ghost function KindCountsOf(v: Evidence, ids: set<string>, kind: Kind): Counts
    requires v.Valid() && ids <= v.o.required
  {
    Counts(|v.Requiring(ids, kind)|, |v.KindExecuted(ids, kind)|, |v.KindWithOutcome(ids, kind, Passed)|,
           |v.KindWithOutcome(ids, kind, Failed)|, |v.KindWithOutcome(ids, kind, Skipped)|, 0)
  }

  /** The admitted evidence, or nothing when any admission rule is broken. */
  ghost function Admitted(o: Owner, rows: seq<Row>): Option<Evidence>
    requires o.Valid()
  {
    if !OwnerOk(o) || Expected(o) == map[] || rows == [] then None
    else
      match Collect(o, Expected(o), rows)
      case None => None
      case Some(m) =>
        if m.Keys == Expected(o).Keys && forall key :: key in m ==> Complete(m[key])
        then Some(Evidence(o, Expected(o), m)) else None
  }

  ghost predicate ReportPassed(v: Evidence)
    requires v.Valid()
  {
    CountsOf(v, v.o.required).passed == |v.o.required|
  }

  /** Admission in parts: the owner's plan, the receipts, and the histories they make up. */
  lemma AdmittedFacts(o: Owner, rows: seq<Row>, v: Evidence)
    requires o.Valid() && Admitted(o, rows) == Some(v)
    ensures v.Valid() && v.o == o && v.expected == Expected(o) && OwnerOk(o)
    ensures Holds(v.histories, rows)
    ensures forall k :: 0 <= k < |rows| ==> RowOk(o, v.expected, rows[k])
  {
    hide Collect, Complete, RowOk, Find, Holds, OwnerOk;
    CollectExact(o, Expected(o), rows);
  }

  // ----- what a pass means -----

  lemma FindUnique(tests: seq<Binding>, lane: string, k: nat)
    requires k < |tests| && tests[k].lane == lane && DistinctIds(tests, lane)
    ensures Find(tests, lane, tests[k].id) == Some(tests[k])
  {
    var r := Find(tests, lane, tests[k].id);
    if r.Some? {
      var j :| 0 <= j < |tests| && tests[j] == r.value;
    }
  }

  lemma ExpectedAt(o: Owner, id: string, k: nat)
    requires o.Valid() && OwnerOk(o) && id in o.required
    requires k < |o.contracts[id].tests| && o.contracts[id].tests[k].lane == o.lane
    ensures var b := o.contracts[id].tests[k]; (id, b.id) in Expected(o) && Expected(o)[(id, b.id)] == b
  {
    hide Find;
    FindUnique(o.contracts[id].tests, o.lane, k);
    assert (id, o.contracts[id].tests[k].id) in OwedKeys(o);
  }

  /** Every required kind has a test on this lane that claims it. */
  lemma OwedTest(o: Owner, id: string, kind: Kind) returns (b: Binding)
    requires o.Valid() && OwnerOk(o) && id in o.required && kind in o.contracts[id].kinds
    ensures b in o.contracts[id].tests && b.lane == o.lane && kind in b.evidence
    ensures (id, b.id) in Expected(o) && Expected(o)[(id, b.id)] == b
  {
    hide Expected;
    var c := o.contracts[id];
    assert kind in Supplied(c.tests, o.lane);
    var k :| 0 <= k < |c.tests| && c.tests[k].lane == o.lane && kind in c.tests[k].evidence;
    b := c.tests[k];
    ExpectedAt(o, id, k);
  }

  /** If every required contract is counted as passed, every owed test passed. */
  lemma PassedTests(v: Evidence, key: Key)
    requires v.Valid() && ReportPassed(v) && key in v.expected
    ensures v.Outcome(key) == Passed
  {
    hide TestOutcome, Complete;
    SubsetSize(v.WithOutcome(v.o.required, Passed), v.o.required);
    assert key.0 in v.WithOutcome(v.o.required, Passed);
    assert key in v.Keys(key.0);
  }

  lemma PassedLast(v: Evidence, key: Key)
    requires v.Valid() && key in v.expected && v.Outcome(key) == Passed
    ensures var h := v.histories[key];
      |h| in h && h[|h|].result == PASS && h[|h|].cleanup == Clean && h[|h|].attemptCount == |h|
  {
    assert Complete(v.histories[key]);
  }

  lemma HistoryRow(v: Evidence, rows: seq<Row>, key: Key, n: int)
    requires v.Valid() && Holds(v.histories, rows) && key in v.expected && 1 <= n <= |v.histories[key]|
    ensures n in v.histories[key] && v.histories[key][n] in rows
    ensures Slot(v.histories[key][n]) == (key, n) && v.histories[key][n].attemptCount == |v.histories[key]|
  {
    assert Complete(v.histories[key]);
  }

  /**
   A passed report is backed by receipts: for every required contract and every kind it requires,
   a test bound to this lane has a complete attempt history whose last attempt passed with a
   clean cleanup and carried that kind and every assertion the contract lists for it.
   */
  lemma PassIsBacked(o: Owner, rows: seq<Row>, v: Evidence, id: string, kind: Kind) returns (b: Binding, last: Row)
    requires o.Valid() && Admitted(o, rows) == Some(v) && v.Valid() && ReportPassed(v)
    requires id in o.required && kind in o.contracts[id].kinds
    ensures b in o.contracts[id].tests && b.lane == o.lane && kind in b.evidence
    ensures last in rows && KeyOf(last) == (id, b.id) && last.attempt == last.attemptCount
    ensures last.result == PASS && last.cleanup == Clean && kind in last.evidence
    ensures kind in o.contracts[id].assertions && o.contracts[id].assertions[kind] <= last.assertions
    ensures forall n :: 1 <= n <= last.attemptCount ==> HasAttempt(rows, (id, b.id), n, last.attemptCount)
    ensures forall r :: r in rows && KeyOf(r) == (id, b.id) ==>
      1 <= r.attempt <= last.attemptCount && r.attemptCount == last.attemptCount
  {
    hide Collect, RowOk, Find, Expected, Admitted, Complete, OwnerOk, TestOutcome, Holds, ReportPassed;
    AdmittedFacts(o, rows, v);
    b := OwedTest(o, id, kind);
    var key := (id, b.id);
    PassedTests(v, key);
    PassedLast(v, key);
    var h := v.histories[key];
    last := h[|h|];
    HistoryRow(v, rows, key, |h|);
    PassedRow(o, v.expected, rows, last);
    BoundAssertions(o, id, b, kind);
    forall n | 1 <= n <= last.attemptCount ensures HasAttempt(rows, key, n, last.attemptCount) {
      HistoryRow(v, rows, key, n);
    }
    forall r | r in rows && KeyOf(r) == key
      ensures 1 <= r.attempt <= last.attemptCount && r.attemptCount == last.attemptCount
    {
      ReceiptInHistory(v, rows, r);
    }
  }

  /** Every receipt of an owed test is one of its numbered attempts. */
  lemma ReceiptInHistory(v: Evidence, rows: seq<Row>, r: Row)
    requires v.Valid() && Holds(v.histories, rows) && r in rows && KeyOf(r) in v.expected
    ensures var h := v.histories[KeyOf(r)]; 1 <= r.attempt <= |h| && r.attemptCount == |h|
  {
    assert Complete(v.histories[KeyOf(r)]);
  }

  ghost predicate HasAttempt(rows: seq<Row>, key: Key, n: int, count: int) {
    exists r :: r in rows && Slot(r) == (key, n) && r.attemptCount == count
  }

  lemma PassedRow(o: Owner, expected: map<Key, Binding>, rows: seq<Row>, r: Row)
    requires r in rows && r.result == PASS && forall k :: 0 <= k < |rows| ==> RowOk(o, expected, rows[k])
    ensures KeyOf(r) in expected && r.evidence == expected[KeyOf(r)].evidence
    ensures r.assertions == expected[KeyOf(r)].assertions
  {
    var k :| 0 <= k < |rows| && rows[k] == r;
    assert RowOk(o, expected, rows[k]);
  }

  lemma BoundAssertions(o: Owner, id: string, b: Binding, kind: Kind)
    requires o.Valid() && OwnerOk(o) && id in o.required && b in o.contracts[id].tests && kind in b.evidence
    ensures kind in o.contracts[id].assertions && o.contracts[id].assertions[kind] <= b.assertions
  {
    var c := o.contracts[id];
    var k :| 0 <= k < |c.tests| && c.tests[k] == b;
    assert BindingOk(c, c.tests[k]);
    forall a | a in c.assertions[kind] ensures a in b.assertions { assert a in Union(c.assertions, b.evidence); }
  }

  // ----- receipt order -----

  lemma {:induction false} Occurrences<T>(s: seq<T>, x: T)
    ensures multiset(s)[x] >= 2 <==> exists j, k :: 0 <= j < k < |s| && s[j] == x && s[k] == x
    ensures multiset(s)[x] >= 1 <==> x in s
    decreases |s|
  {
    if s != [] {
      var n := |s| - 1;
      var t := s[..n];
      assert s == t + [s[n]];
      Occurrences(t, x);
      if x == s[n] && x in t {
        var j :| 0 <= j < n && t[j] == x;
        assert s[j] == x && s[n] == x;
      }
      if exists j, k :: 0 <= j < k < |t| && t[j] == x && t[k] == x {
        var j, k :| 0 <= j < k < |t| && t[j] == x && t[k] == x;
        assert s[j] == x && s[k] == x;
      }
      if j, k :| 0 <= j < k < |s| && s[j] == x && s[k] == x {
        assert t[j] == x;
        if k < n { assert t[k] == x; }
      }
    }
  }

  lemma SameMembers(a: seq<Row>, b: seq<Row>, r: Row)
    requires multiset(a) == multiset(b) && r in a
    ensures r in b
  {
    assert r in multiset(b);
  }

  lemma DistinctPermuted(a: seq<Row>, b: seq<Row>)
    requires multiset(a) == multiset(b) && DistinctSlots(a)
    ensures DistinctSlots(b)
  {
    forall j, k | 0 <= j < k < |b| ensures Slot(b[j]) != Slot(b[k]) {
      SameMembers(b, a, b[j]);
      SameMembers(b, a, b[k]);
      if b[j] == b[k] {
        Occurrences(b, b[j]);
        Occurrences(a, b[j]);
      } else {
        var x :| 0 <= x < |a| && a[x] == b[j];
        var y :| 0 <= y < |a| && a[y] == b[k];
        assert x != y;
      }
    }
  }

  lemma SameHistory(m: Histories, n: Histories, a: seq<Row>, b: seq<Row>, key: Key)
    requires Holds(m, a) && Holds(n, b) && multiset(a) == multiset(b) && key in m
    ensures key in n && m[key] == n[key]
  {
    hide HoldsRows, OnlyRows;
    var i :| i in m[key];
    Carried(m, n, a, b, key, i);
    forall j | j in m[key] ensures j in n[key] && m[key][j] == n[key][j] { Carried(m, n, a, b, key, j); }
    forall j | j in n[key] ensures j in m[key] { Carried(n, m, b, a, key, j); }
  }

  lemma HoldsUnique(m: Histories, n: Histories, a: seq<Row>, b: seq<Row>)
    requires Holds(m, a) && Holds(n, b) && multiset(a) == multiset(b)
    ensures m == n
  {
    hide Holds;
    forall key | key in m ensures key in n && m[key] == n[key] { SameHistory(m, n, a, b, key); }
    forall key | key in n ensures key in m { SameHistory(n, m, b, a, key); }
  }

  lemma Carried(m: Histories, n: Histories, a: seq<Row>, b: seq<Row>, key: Key, i: int)
    requires Holds(m, a) && Holds(n, b) && multiset(a) == multiset(b) && key in m && i in m[key]
    ensures key in n && i in n[key] && n[key][i] == m[key][i]
  {
    var r := m[key][i];
    assert r in a && Slot(r) == (key, i);
    SameMembers(a, b, r);
    var k :| 0 <= k < |b| && b[k] == r;
    assert Recorded(n, b[k]) && n[KeyOf(b[k])][b[k].attempt] == b[k];
  }

  lemma RowsPermuted(o: Owner, expected: map<Key, Binding>, a: seq<Row>, b: seq<Row>)
    requires multiset(a) == multiset(b) && forall k :: 0 <= k < |a| ==> RowOk(o, expected, a[k])
    ensures forall k :: 0 <= k < |b| ==> RowOk(o, expected, b[k])
  {
    hide RowOk;
    forall k | 0 <= k < |b| ensures RowOk(o, expected, b[k]) {
      SameMembers(b, a, b[k]);
      var j :| 0 <= j < |a| && a[j] == b[k];
      assert RowOk(o, expected, a[j]);
    }
  }

  lemma CollectPermuted(o: Owner, expected: map<Key, Binding>, a: seq<Row>, b: seq<Row>)
    requires multiset(a) == multiset(b)
    ensures Collect(o, expected, a) == Collect(o, expected, b)
  {
    hide Collect, RowOk, DistinctSlots, Holds;
    CollectExact(o, expected, a);
    CollectExact(o, expected, b);
    if Collect(o, expected, a).Some? {
      RowsPermuted(o, expected, a, b);
      DistinctPermuted(a, b);
      HoldsUnique(Collect(o, expected, a).value, Collect(o, expected, b).value, a, b);
    } else if Collect(o, expected, b).Some? {
      RowsPermuted(o, expected, b, a);
      DistinctPermuted(b, a);
      assert false;
    }
  }

  /** Neither acceptance nor anything in the report depends on the order of the receipts. */
  lemma ReceiptOrderIrrelevant(o: Owner, a: seq<Row>, b: seq<Row>)
    requires o.Valid() && multiset(a) == multiset(b)
    ensures Admitted(o, a) == Admitted(o, b)
  {
    hide Collect, Expected, OwnerOk, Complete;
    assert |a| == |multiset(a)| == |multiset(b)| == |b|;
    CollectPermuted(o, Expected(o), a, b);
  }

  // ----- counts -----

  lemma ThreeWay<T>(all: set<T>, p: set<T>, f: set<T>, s: set<T>)
    requires all == p + f + s && p !! f && p !! s && f !! s
    ensures |p| + |f| + |s| == |all|
  {
    assert |p + f| == |p| + |f| && |p + f + s| == |p + f| + |s|;
  }

  /** Splitting a finite set by a three-valued outcome. */
  lemma SplitByOutcome(all: set<string>, f: string -> Outcome, p: set<string>, q: set<string>, s: set<string>)
    requires forall id :: id in p <==> id in all && f(id) == Passed
    requires forall id :: id in q <==> id in all && f(id) == Failed
    requires forall id :: id in s <==> id in all && f(id) == Skipped
    ensures |p| + |q| + |s| == |all|
  {
    ThreeWay(all, p, q, s);
  }

  /** Passed, failed and skipped add up to required, overall and for every kind. */
  lemma CountsAddUp(v: Evidence, ids: set<string>, kind: Kind)
    requires v.Valid() && ids <= v.o.required
    ensures var c := CountsOf(v, ids); c.passed + c.failed + c.skipped == c.required == |ids|
    ensures var c := KindCountsOf(v, ids, kind); c.passed + c.failed + c.skipped == c.required
  {
    hide Evidence.Valid, Evidence.Group, Evidence.Executed, Evidence.Retried;
    SplitByOutcome(ids, id => if v.Valid() then v.Group(v.Keys(id)) else Passed,
      v.WithOutcome(ids, Passed), v.WithOutcome(ids, Failed), v.WithOutcome(ids, Skipped));
    SplitByOutcome(v.Requiring(ids, kind), id => if v.Valid() then v.Group(v.KeysFor(id, kind)) else Passed,
      v.KindWithOutcome(ids, kind, Passed), v.KindWithOutcome(ids, kind, Failed),
      v.KindWithOutcome(ids, kind, Skipped));
  }

  // ----- outcomes from the receipts -----

  /** A receipt that speaks against its test: anything but a clean pass or a skip that left nothing dirty. */
  ghost predicate Bad(r: Row) {
    match r.result
    case PASS => r.cleanup != Clean
    case SKIPPED => r.cleanup == Dirty
    case FAIL => true
    case BLOCKED => true
    case HARNESS_ERROR => true
  }

  lemma FailingIsBad(r: Row)
    ensures Failing(r) <==> Bad(r)
  {
  }

  ghost predicate Last(r: Row) {
    r.attempt == r.attemptCount
  }

  /** The receipt is one that counts: any of a critical contract, the last of another. */
  ghost predicate Considered(o: Owner, r: Row) {
    r.contract in o.contracts && (o.contracts[r.contract].critical || Last(r))
  }

  ghost predicate SomeBad(o: Owner, rows: seq<Row>, keys: set<Key>) {
    exists r :: r in rows && KeyOf(r) in keys && Considered(o, r) && Bad(r)
  }

  ghost predicate LastPasses(rows: seq<Row>, keys: set<Key>) {
    forall r :: r in rows && KeyOf(r) in keys && Last(r) ==> r.result == PASS
  }

  /** The receipts of one test are its history. */
  lemma HistoryIsReceipts(v: Evidence, rows: seq<Row>, key: Key, r: Row)
    requires v.Valid() && Holds(v.histories, rows) && key in v.expected
    ensures r in rows && KeyOf(r) == key <==> r.attempt in v.histories[key] && v.histories[key][r.attempt] == r
    ensures r in rows && KeyOf(r) == key ==> (Last(r) <==> r.attempt == |v.histories[key]|)
  {
    var h := v.histories[key];
    assert Complete(h);
    if r in rows && KeyOf(r) == key {
      var k :| 0 <= k < |rows| && rows[k] == r;
      assert Recorded(v.histories, rows[k]);
    }
  }

  lemma TestFromReceipts(v: Evidence, rows: seq<Row>, key: Key)
    requires v.Valid() && Holds(v.histories, rows) && key in v.expected
    ensures v.Outcome(key) == Failed <==> SomeBad(v.o, rows, {key})
    ensures v.Outcome(key) == Passed <==> !SomeBad(v.o, rows, {key}) && LastPasses(rows, {key})
  {
    hide Failing, Bad, Holds;
    var h := v.histories[key];
    assert Complete(h);
    forall r: Row
      ensures Failing(r) <==> Bad(r)
      ensures r in rows && KeyOf(r) == key <==> r.attempt in h && h[r.attempt] == r
      ensures r in rows && KeyOf(r) == key ==> (Last(r) <==> r.attempt == |h|)
    {
      FailingIsBad(r);
      HistoryIsReceipts(v, rows, key, r);
    }
    var last := h[|h|];
    HistoryRow(v, rows, key, |h|);
    assert last in rows && KeyOf(last) == key && Last(last);
    forall a | a in h ensures h[a] in rows && KeyOf(h[a]) == key { HistoryRow(v, rows, key, a); }
  }

  /** The outcome of a group of tests, from the receipts alone. */
  lemma GroupFromReceipts(v: Evidence, rows: seq<Row>, keys: set<Key>)
    requires v.Valid() && Holds(v.histories, rows) && keys <= v.expected.Keys
    ensures v.Group(keys) == Failed <==> SomeBad(v.o, rows, keys)
    ensures v.Group(keys) == Passed <==> !SomeBad(v.o, rows, keys) && LastPasses(rows, keys)
  {
    hide Evidence.Valid, Holds, Bad, Considered, Last;
    forall key | key in keys
      ensures v.Outcome(key) == Failed <==> SomeBad(v.o, rows, {key})
      ensures v.Outcome(key) == Passed <==> !SomeBad(v.o, rows, {key}) && LastPasses(rows, {key})
    {
      TestFromReceipts(v, rows, key);
    }
    hide Evidence.Outcome;
    SplitKeys(v.o, rows, keys);
  }

  lemma SplitKeys(o: Owner, rows: seq<Row>, keys: set<Key>)
    ensures SomeBad(o, rows, keys) <==> exists key :: key in keys && SomeBad(o, rows, {key})
    ensures LastPasses(rows, keys) <==> forall key :: key in keys ==> LastPasses(rows, {key})
  {
    hide Bad, Considered, Last;
    if SomeBad(o, rows, keys) {
      var r :| r in rows && KeyOf(r) in keys && Considered(o, r) && Bad(r);
      assert SomeBad(o, rows, {KeyOf(r)});
    }
    if forall key :: key in keys ==> LastPasses(rows, {key}) {
      forall r | r in rows && KeyOf(r) in keys && Last(r) ensures r.result == PASS {
        assert LastPasses(rows, {KeyOf(r)}) && KeyOf(r) in {KeyOf(r)};
      }
    }
  }

  lemma ExecutedFromReceipts(v: Evidence, rows: seq<Row>, keys: set<Key>)
    requires v.Valid() && Holds(v.histories, rows) && keys <= v.expected.Keys
    ensures v.Executed(keys) <==> exists r :: r in rows && KeyOf(r) in keys && (r.result == PASS || r.result == FAIL)
    ensures v.Retried(keys) <==> exists r :: r in rows && KeyOf(r) in keys && r.attemptCount > 1
  {
    hide Holds, Complete;
    if v.Executed(keys) {
      var key, a :| key in keys && a in v.histories[key] && v.histories[key][a].result in {PASS, FAIL};
      AttemptIsReceipt(v, rows, key, a);
    }
    if v.Retried(keys) {
      var key :| key in keys && |v.histories[key]| > 1;
      AttemptIsReceipt(v, rows, key, 1);
    }
    forall r | r in rows && KeyOf(r) in keys
      ensures r.attempt in v.histories[KeyOf(r)] && v.histories[KeyOf(r)][r.attempt] == r
      ensures r.attemptCount == |v.histories[KeyOf(r)]|
    {
      HistoryIsReceipts(v, rows, KeyOf(r), r);
      AttemptIsReceipt(v, rows, KeyOf(r), r.attempt);
    }
  }

  lemma AttemptIsReceipt(v: Evidence, rows: seq<Row>, key: Key, a: int)
    requires v.Valid() && Holds(v.histories, rows) && key in v.expected
    ensures a in v.histories[key] <==> 1 <= a <= |v.histories[key]|
    ensures a in v.histories[key] ==>
      var r := v.histories[key][a]; r in rows && KeyOf(r) == key && r.attemptCount == |v.histories[key]|
  {
    assert Complete(v.histories[key]);
    if a in v.histories[key] { HistoryRow(v, rows, key, a); }
  }

  /** The receipts of a contract, and those of its tests that claim a kind. */
  ghost predicate Concerns(v: Evidence, r: Row, id: string, kind: Option<Kind>) {
    r.contract == id && KeyOf(r) in v.expected && (kind.Some? ==> kind.value in v.expected[KeyOf(r)].evidence)
  }

  function KeysOf(v: Evidence, id: string, kind: Option<Kind>): (keys: set<Key>)
    ensures keys <= v.expected.Keys
  {
    if kind.None? then v.Keys(id) else v.KeysFor(id, kind.value)
  }

  /**
   What the report says of a contract, overall and for a kind, from the receipts alone: it failed
   exactly when a receipt that counts is bad, it passed exactly when none is and every last
   attempt passed, and otherwise it is skipped.
   */
  lemma OutcomeFromReceipts(o: Owner, rows: seq<Row>, v: Evidence, id: string, kind: Option<Kind>)
    requires o.Valid() && Admitted(o, rows) == Some(v) && v.Valid() && id in o.required
    ensures v.Group(KeysOf(v, id, kind)) == Failed <==>
      exists r :: r in rows && Concerns(v, r, id, kind) && (o.contracts[id].critical || Last(r)) && Bad(r)
    ensures v.Group(KeysOf(v, id, kind)) == Skipped <==>
      && (forall r :: r in rows && Concerns(v, r, id, kind) && (o.contracts[id].critical || Last(r)) ==> !Bad(r))
      && exists r :: r in rows && Concerns(v, r, id, kind) && Last(r) && r.result == SKIPPED
    ensures v.Executed(KeysOf(v, id, kind)) <==>
      exists r :: r in rows && Concerns(v, r, id, kind) && (r.result == PASS || r.result == FAIL)
    ensures v.Retried(KeysOf(v, id, kind)) <==>
      exists r :: r in rows && Concerns(v, r, id, kind) && r.attemptCount > 1
  {
    hide Admitted, Collect, RowOk, Find, Expected, OwnerOk, Evidence.Valid, Holds, Last;
    AdmittedFacts(o, rows, v);
    var keys := KeysOf(v, id, kind);
    forall r: Row ensures KeyOf(r) in keys <==> Concerns(v, r, id, kind) { ConcernsKeys(v, r, id, kind); }
    hide Concerns, KeysOf;
    GroupFromReceipts(v, rows, keys);
    ExecutedFromReceipts(v, rows, keys);
    hide Evidence.Group, Evidence.Executed, Evidence.Retried;
    forall r | r in rows && KeyOf(r) in keys ensures r.contract == id && r.contract in o.contracts {
      ConcernsKeys(v, r, id, kind);
    }
    hide KeyOf;
    if !SomeBad(o, rows, keys) {
      forall r | r in rows && KeyOf(r) in keys && Last(r) ensures !Bad(r) { assert Considered(o, r); }
    }
  }

  lemma ConcernsKeys(v: Evidence, r: Row, id: string, kind: Option<Kind>)
    ensures KeyOf(r) in KeysOf(v, id, kind) <==> Concerns(v, r, id, kind)
    ensures KeyOf(r) in KeysOf(v, id, kind) ==> r.contract == id
  {
  }

  /** A report passes exactly when no receipt that counts is bad and every last attempt passed. */
  lemma ReportFromReceipts(o: Owner, rows: seq<Row>, v: Evidence)
    requires o.Valid() && Admitted(o, rows) == Some(v) && v.Valid()
    ensures ReportPassed(v) <==>
      && (forall r :: r in rows && Considered(o, r) ==> !Bad(r))
      && (forall r :: r in rows && Last(r) ==> r.result == PASS)
  {
    hide Admitted, Collect, RowOk, Find, Expected, OwnerOk, Evidence.Valid, Holds, Last, Bad, Considered;
    hide Evidence.Group;
    AdmittedFacts(o, rows, v);
    SubsetSize(v.WithOutcome(o.required, Passed), o.required);
    forall id | id in o.required
      ensures v.Group(v.Keys(id)) == Passed <==> !SomeBad(o, rows, v.Keys(id)) && LastPasses(rows, v.Keys(id))
    {
      GroupFromReceipts(v, rows, v.Keys(id));
    }
    forall r | r in rows ensures r.contract in o.required && KeyOf(r) in v.Keys(r.contract) {
      ReceiptOfRequired(o, rows, v, r);
    }
    if ReportPassed(v) {
      forall r | r in rows ensures Considered(o, r) ==> !Bad(r) {
        assert r.contract in v.WithOutcome(o.required, Passed);
      }
      forall r | r in rows && Last(r) ensures r.result == PASS {
        assert r.contract in v.WithOutcome(o.required, Passed);
      }
    } else {
      var id := MissingElement(v.WithOutcome(o.required, Passed), o.required);
      assert SomeBad(o, rows, v.Keys(id)) || !LastPasses(rows, v.Keys(id));
    }
  }

  lemma ReceiptOfRequired(o: Owner, rows: seq<Row>, v: Evidence, r: Row)
    requires v.Valid() && v.o == o && r in rows && forall k :: 0 <= k < |rows| ==> RowOk(o, v.expected, rows[k])
    ensures r.contract in o.required && KeyOf(r) in v.Keys(r.contract)
  {
    var k :| 0 <= k < |rows| && rows[k] == r;
    assert RowOk(o, v.expected, rows[k]);
  }

  lemma CriticalTestFails(v: Evidence, key: Key, a: int)
    requires v.Valid() && key in v.expected && a in v.histories[key]
    requires v.o.contracts[key.0].critical && Failing(v.histories[key][a])
    ensures v.Outcome(key) == Failed && v.Group(v.Keys(key.0)) == Failed
  {
    hide Failing;
    assert Complete(v.histories[key]);
    assert key in v.Keys(key.0);
  }

  /** A bad attempt of a critical contract fails it, whatever later attempts say. */
  lemma CriticalFailureIsFinal(o: Owner, rows: seq<Row>, v: Evidence, r: Row)
    requires o.Valid() && Admitted(o, rows) == Some(v) && v.Valid() && r in rows
    requires r.contract in o.contracts && o.contracts[r.contract].critical && Bad(r)
    ensures r.contract in v.WithOutcome(o.required, Failed) && !ReportPassed(v)
  {
    hide Collect, RowOk, Find, Expected, Admitted, OwnerOk, Complete, Failing, Bad, TestOutcome, Evidence.Group;
    AdmittedFacts(o, rows, v);
    FailingIsBad(r);
    var k :| 0 <= k < |rows| && rows[k] == r;
    var key := KeyOf(r);
    assert Recorded(v.histories, rows[k]) && v.histories[key][r.attempt] == r;
    CriticalTestFails(v, key, r.attempt);
    SubsetSize(v.WithOutcome(o.required, Passed), o.required);
    assert r.contract !in v.WithOutcome(o.required, Passed);
  }

  /** Without the critical mark only the last attempt decides. */
  lemma LastAttemptDecides(g: map<int, Row>, h: map<int, Row>)
    requires |g| in g && |h| in h && g[|g|].result == h[|h|].result && g[|g|].cleanup == h[|h|].cleanup
    ensures TestOutcome(false, g) == TestOutcome(false, h)
  {
  }

  // ----- behavioral progress -----

  datatype Gap = Gap(surface: string, missing: set<Kind>)

  const BEHAVIORAL: set<Kind> := {Refusal, Success, State, Fault, Concurrency}

  ghost function Owners(contracts: map<string, Contract>, surface: string): set<string> {
    OwnersAmong(contracts, contracts.Keys, surface)
  }

  ghost function BlockedBy(gaps: seq<Gap>): set<string> {
    set k | 0 <= k < |gaps| && gaps[k].missing * BEHAVIORAL != {} :: gaps[k].surface
  }

  ghost function Behavioral(contracts: map<string, Contract>, gaps: seq<Gap>): set<string> {
    SurfacesOf(contracts, contracts.Keys) + BlockedBy(gaps)
  }

  /** A surface is covered when it has behavioral owners, all of them passed, and no open gap. */
  ghost function Covered(contracts: map<string, Contract>, gaps: seq<Gap>, passed: set<string>): set<string> {
    set s | s in Behavioral(contracts, gaps) && Owners(contracts, s) != {} && s !in BlockedBy(gaps)
      && Owners(contracts, s) <= passed
  }

  predicate IsBehavioral(c: Contract) {
    c.kinds * BEHAVIORAL != {}
  }

  ghost function SurfacesOf(contracts: map<string, Contract>, ids: set<string>): set<string> {
    set id | id in ids && id in contracts && IsBehavioral(contracts[id]) :: contracts[id].surface
  }

  ghost function OwnersAmong(contracts: map<string, Contract>, ids: set<string>, surface: string): set<string> {
    set id | id in ids && id in contracts && contracts[id].surface == surface && IsBehavioral(contracts[id])
  }

  ghost predicate Grouped(contracts: map<string, Contract>, ids: set<string>, m: map<string, set<string>>) {
    m.Keys == SurfacesOf(contracts, ids) && forall s :: s in m ==> m[s] == OwnersAmong(contracts, ids, s)
  }

  lemma GroupStep(contracts: map<string, Contract>, ids: set<string>, m: map<string, set<string>>, id: string)
    requires Grouped(contracts, ids, m) && id in contracts
    ensures var c := contracts[id];
      Grouped(contracts, ids + {id},
              if IsBehavioral(c) then m[c.surface := (if c.surface in m then m[c.surface] else {}) + {id}] else m)
  {
    hide IsBehavioral;
    var c := contracts[id];
    if IsBehavioral(c) {
      assert SurfacesOf(contracts, ids + {id}) == SurfacesOf(contracts, ids) + {c.surface};
      assert c.surface !in m ==> OwnersAmong(contracts, ids, c.surface) == {};
    } else {
      assert SurfacesOf(contracts, ids + {id}) == SurfacesOf(contracts, ids);
    }
  }

  /** The behavioral contracts of every surface, grouped in one pass. */
  method OwnersBySurface(contracts: map<string, Contract>) returns (required: map<string, set<string>>)
    ensures required.Keys == SurfacesOf(contracts, contracts.Keys)
    ensures forall s :: s in required ==> required[s] == Owners(contracts, s)
  {
    required := map[];
    var left := contracts.Keys;
    assert Grouped(contracts, {}, required);
    while left != {}
      invariant left <= contracts.Keys && Grouped(contracts, contracts.Keys - left, required)
      decreases left
    {
      var id :| id in left;
      var c := contracts[id];
      GroupStep(contracts, contracts.Keys - left, required, id);
      assert contracts.Keys - left + {id} == contracts.Keys - (left - {id});
      if IsBehavioral(c) {
        required := required[c.surface := (if c.surface in required then required[c.surface] else {}) + {id}];
      }
      left := left - {id};
    }
    assert contracts.Keys - {} == contracts.Keys;
  }

  /** The open gaps: their surfaces are blocked, and owned by nobody if no contract owns them. */
  method AddGaps(contracts: map<string, Contract>, gaps: seq<Gap>, owned: map<string, set<string>>)
      returns (required: map<string, set<string>>, blocked: set<string>)
    requires owned.Keys == SurfacesOf(contracts, contracts.Keys)
    requires forall s :: s in owned ==> owned[s] == Owners(contracts, s)
    ensures blocked == BlockedBy(gaps) && required.Keys == Behavioral(contracts, gaps)
    ensures forall s :: s in required ==> required[s] == Owners(contracts, s)
  {
    hide IsBehavioral, Owners;
    required, blocked := owned, {};
    for k := 0 to |gaps|
      invariant blocked == BlockedBy(gaps[..k])
      invariant required.Keys == owned.Keys + blocked
      invariant forall s :: s in required ==> required[s] == Owners(contracts, s)
    {
      var g := gaps[k];
      BlockedStep(gaps, k);
      if g.missing * BEHAVIORAL != {} {
        blocked := blocked + {g.surface};
        if g.surface !in required {
          NoOwners(contracts, g.surface);
          required := required[g.surface := {}];
        }
      }
    }
    assert gaps[..|gaps|] == gaps;
  }

  lemma NoOwners(contracts: map<string, Contract>, surface: string)
    requires surface !in SurfacesOf(contracts, contracts.Keys)
    ensures Owners(contracts, surface) == {}
  {
    hide IsBehavioral;
  }

  method BehavioralProgress(contracts: map<string, Contract>, gaps: seq<Gap>, passed: set<string>, reviewed: bool)
      returns (covered: set<string>, uncovered: set<string>, targetMet: bool)
    ensures covered == Covered(contracts, gaps, passed) && uncovered == Behavioral(contracts, gaps) - covered
    ensures targetMet <==>
      reviewed && Behavioral(contracts, gaps) != {} && 100 * |covered| >= 95 * |Behavioral(contracts, gaps)|
  {
    hide Owners, Behavioral, BlockedBy;
    var owned := OwnersBySurface(contracts);
    var required, blocked := AddGaps(contracts, gaps, owned);
    covered := set s | s in required && required[s] != {} && s !in blocked && required[s] <= passed;
    uncovered := required.Keys - covered;
    targetMet := reviewed && required.Keys != {} && 100 * |covered| >= 95 * |required.Keys|;
  }

  lemma BlockedStep(gaps: seq<Gap>, k: nat)
    requires k < |gaps|
    ensures BlockedBy(gaps[..k + 1]) ==
      BlockedBy(gaps[..k]) + if gaps[k].missing * BEHAVIORAL != {} then {gaps[k].surface} else {}
  {
    assert forall j :: 0 <= j < k ==> gaps[..k + 1][j] == gaps[..k][j];
    assert gaps[..k + 1][k] == gaps[k];
  }

  /** More passes never lose coverage and more gaps never add any; the total ignores passes. */
  lemma ProgressIsMonotone(contracts: map<string, Contract>, gaps: seq<Gap>, more: seq<Gap>, passed: set<string>,
      also: set<string>)
    ensures Covered(contracts, gaps, passed) <= Covered(contracts, gaps, passed + also) <= Behavioral(contracts, gaps)
    ensures Covered(contracts, gaps + more, passed) <= Covered(contracts, gaps, passed)
    ensures Behavioral(contracts, gaps) <= Behavioral(contracts, gaps + more)
  {
    assert BlockedBy(gaps) <= BlockedBy(gaps + more) by {
      assert forall k :: 0 <= k < |gaps| ==> (gaps + more)[k] == gaps[k];
    }
    forall s | s in Covered(contracts, gaps + more, passed) ensures s in Covered(contracts, gaps, passed) {
      var id :| id in Owners(contracts, s);
      assert s in Behavioral(contracts, gaps);
    }
  }

  // ----- admission, step by step -----

  lemma {:induction false} FindStep(tests: seq<Binding>, k: nat, lane: string, id: string)
    requires k < |tests|
    ensures Find(tests[..k + 1], lane, id) ==
      if Find(tests[..k], lane, id).Some? then Find(tests[..k], lane, id)
      else if tests[k].lane == lane && tests[k].id == id then Some(tests[k]) else None
    decreases k
  {
    if k > 0 {
      assert tests[..k + 1][1..] == tests[1..][..k] && tests[..k][1..] == tests[1..][..k - 1];
      FindStep(tests[1..], k - 1, lane, id);
    }
  }

  lemma SuppliedStep(tests: seq<Binding>, k: nat, lane: string)
    requires k < |tests|
    ensures Supplied(tests[..k + 1], lane) ==
      Supplied(tests[..k], lane) + if tests[k].lane == lane then tests[k].evidence else {}
  {
    var a, b := tests[..k], tests[..k + 1];
    assert b[k] == tests[k] && forall j :: 0 <= j < k ==> b[j] == a[j];
  }

  /** The bindings of one contract on this lane. */
  ghost predicate LaneBindings(tests: seq<Binding>, lane: string, m: map<string, Binding>) {
    forall id :: (id in m <==> Find(tests, lane, id).Some?) && (id in m ==> Find(tests, lane, id) == Some(m[id]))
  }

  method ContractTests(c: Contract, lane: string) returns (ok: bool, mine: map<string, Binding>)
    ensures ok <==> ContractOk(c, lane)
    ensures ok ==> LaneBindings(c.tests, lane, mine)
  {
    hide LaneBindings, BindingOk, DistinctIds, Supplied;
    mine := map[];
    if c.tests == [] { return false, mine; }
    var supplied: set<Kind> := {};
    NoTests(lane);
    assert c.tests[..0] == [];
    for k := 0 to |c.tests|
      invariant forall j :: 0 <= j < k ==> BindingOk(c, c.tests[j])
      invariant DistinctIds(c.tests[..k], lane) && supplied == Supplied(c.tests[..k], lane)
      invariant LaneBindings(c.tests[..k], lane, mine)
    {
      var b := c.tests[k];
      var good := BindingOk(c, b);
      if !good { return false, mine; }
      SuppliedStep(c.tests, k, lane);
      BindingsStep(c.tests, k, lane, mine);
      if b.lane == lane {
        RepeatedId(c.tests, k, lane, mine);
        if b.id in mine { return false, mine; }
        mine := mine[b.id := b];
        supplied := supplied + b.evidence;
      } else {
        OtherLane(c.tests, k, lane);
      }
    }
    assert c.tests[..|c.tests|] == c.tests;
    ok := supplied == c.kinds;
  }

  lemma NoTests(lane: string)
    ensures LaneBindings([], lane, map[]) && Supplied([], lane) == {} && DistinctIds([], lane)
  {
  }

  lemma BindingsStep(tests: seq<Binding>, k: nat, lane: string, mine: map<string, Binding>)
    requires k < |tests| && LaneBindings(tests[..k], lane, mine)
    ensures tests[k].lane != lane ==> LaneBindings(tests[..k + 1], lane, mine)
    ensures tests[k].lane == lane && tests[k].id !in mine ==>
      LaneBindings(tests[..k + 1], lane, mine[tests[k].id := tests[k]])
  {
    hide Find;
    var b := tests[k];
    var next := if b.lane == lane then mine[b.id := b] else mine;
    forall id | b.lane != lane || b.id !in mine
      ensures (id in next <==> Find(tests[..k + 1], lane, id).Some?)
      ensures (id in next ==> Find(tests[..k + 1], lane, id) == Some(next[id]))
    {
      FindStep(tests, k, lane, id);
    }
  }

  lemma OtherLane(tests: seq<Binding>, k: nat, lane: string)
    requires k < |tests| && tests[k].lane != lane && DistinctIds(tests[..k], lane)
    ensures DistinctIds(tests[..k + 1], lane)
  {
    forall i, j | 0 <= i < j < k + 1 && tests[i].lane == tests[j].lane == lane ensures tests[i].id != tests[j].id {
      assert tests[..k][i] == tests[i] && tests[..k][j] == tests[j];
    }
  }

  lemma RepeatedId(tests: seq<Binding>, k: nat, lane: string, mine: map<string, Binding>)
    requires k < |tests| && tests[k].lane == lane && DistinctIds(tests[..k], lane)
    requires LaneBindings(tests[..k], lane, mine)
    ensures tests[k].id in mine ==> !DistinctIds(tests, lane)
    ensures tests[k].id !in mine ==> DistinctIds(tests[..k + 1], lane)
  {
    var a, id := tests[..k], tests[k].id;
    var r := Find(a, lane, id);
    if id in mine {
      var j :| 0 <= j < |a| && a[j] == r.value;
      assert tests[j] == a[j];
    } else {
      forall i, j | 0 <= i < j < k + 1 && tests[i].lane == tests[j].lane == lane ensures tests[i].id != tests[j].id {
        assert a[i] == tests[i];
        if j < k { assert a[j] == tests[j]; }
      }
    }
  }

  /** The owed tests of the given contracts, and no others. */
  ghost predicate ExactFor(o: Owner, ids: set<string>, m: map<Key, Binding>)
    requires o.Valid() && ids <= o.required
  {
    forall key: Key :: (key in m <==> key.0 in ids && Find(o.contracts[key.0].tests, o.lane, key.1).Some?)
      && (key in m ==> Find(o.contracts[key.0].tests, o.lane, key.1) == Some(m[key]))
  }

  lemma ExpectedIsExact(o: Owner, m: map<Key, Binding>)
    requires o.Valid() && ExactFor(o, o.required, m)
    ensures m == Expected(o)
  {
    hide Find;
    forall key | key in m ensures key in Expected(o) && Expected(o)[key] == m[key] {
      var tests := o.contracts[key.0].tests;
      assert Find(tests, o.lane, key.1) == Some(m[key]);
      FoundKey(o, key);
    }
    forall key | key in Expected(o) ensures key in m { }
  }

  lemma FoundKey(o: Owner, key: Key)
    requires o.Valid() && key.0 in o.required && Find(o.contracts[key.0].tests, o.lane, key.1).Some?
    ensures key in OwedKeys(o)
  {
    var tests := o.contracts[key.0].tests;
    var b := Find(tests, o.lane, key.1).value;
    var k :| 0 <= k < |tests| && tests[k] == b;
    assert key == (key.0, tests[k].id);
  }

  method BuildExpected(o: Owner) returns (r: Option<map<Key, Binding>>)
    requires o.Valid()
    ensures r == if OwnerOk(o) then Some(Expected(o)) else None
  {
    hide Find, ContractOk;
    var expected: map<Key, Binding> := map[];
    var left := o.required;
    while left != {}
      invariant left <= o.required && ExactFor(o, o.required - left, expected)
      invariant forall id :: id in o.required - left ==> ContractOk(o.contracts[id], o.lane)
      decreases left
    {
      var id :| id in left;
      var ok, mine := ContractTests(o.contracts[id], o.lane);
      if !ok { return None; }
      expected := expected + map test | test in mine :: (id, test) := mine[test];
      assert o.required - left + {id} == o.required - (left - {id});
      left := left - {id};
    }
    assert o.required - {} == o.required;
    ExpectedIsExact(o, expected);
    return Some(expected);
  }

  lemma CollectStep(o: Owner, expected: map<Key, Binding>, rows: seq<Row>, k: nat)
    requires k < |rows|
    ensures Collect(o, expected, rows[..k + 1]) ==
      match Collect(o, expected, rows[..k])
      case None => None
      case Some(m) => if RowOk(o, expected, rows[k]) && !Recorded(m, rows[k]) then Some(Record(m, rows[k])) else None
  {
    hide RowOk, Record, Recorded;
    assert rows[..k + 1][..k] == rows[..k];
  }

  lemma {:induction false} CollectFails(o: Owner, expected: map<Key, Binding>, rows: seq<Row>, k: nat)
    requires k <= |rows| && Collect(o, expected, rows[..k]) == None
    ensures Collect(o, expected, rows) == None
    decreases |rows| - k
  {
    hide Collect;
    if k == |rows| {
      assert rows[..k] == rows;
    } else {
      CollectStep(o, expected, rows, k);
      CollectFails(o, expected, rows, k + 1);
    }
  }

  /** The receipt loop. */
  method CollectReceipts(o: Owner, expected: map<Key, Binding>, rows: seq<Row>) returns (r: Option<Histories>)
    ensures r == Collect(o, expected, rows)
  {
    hide RowOk, Record, Recorded, Collect;
    var attempts: Histories := map[];
    NoReceipts(o, expected, rows);
    for k := 0 to |rows|
      invariant Collect(o, expected, rows[..k]) == Some(attempts)
    {
      CollectStep(o, expected, rows, k);
      var ok := RowOk(o, expected, rows[k]) && !Recorded(attempts, rows[k]);
      if !ok {
        CollectFails(o, expected, rows, k + 1);
        return None;
      }
      attempts := Record(attempts, rows[k]);
    }
    assert rows[..|rows|] == rows;
    return Some(attempts);
  }

  lemma NoReceipts(o: Owner, expected: map<Key, Binding>, rows: seq<Row>)
    ensures Collect(o, expected, rows[..0]) == Some(map[])
  {
  }

  /** One attempt history: numbered one to n, with n agreed by every receipt. */
  method CheckHistory(h: map<int, Row>) returns (ok: bool)
    ensures ok <==> Complete(h)
  {
    if h == map[] { return false; }
    for a := 1 to |h| + 1
      invariant forall i :: 1 <= i < a ==> i in h && h[i].attemptCount == |h|
    {
      if a !in h || h[a].attemptCount != |h| { return false; }
    }
    assert Interval(1, |h|) <= h.Keys;
    SubsetSize(Interval(1, |h|), h.Keys);
    assert forall a :: a in h <==> a in Interval(1, |h|);
    return true;
  }

  method CheckHistories(m: Histories) returns (ok: bool)
    ensures ok <==> forall key :: key in m ==> Complete(m[key])
  {
    hide Complete;
    var left := m.Keys;
    while left != {}
      invariant left <= m.Keys && forall key :: key in m.Keys - left ==> Complete(m[key])
      decreases left
    {
      var key :| key in left;
      ok := CheckHistory(m[key]);
      if !ok { return; }
      left := left - {key};
    }
    return true;
  }

  lemma OutcomeStep(v: Evidence, done: set<string>, id: string, oc: Outcome)
    requires v.Valid() && id !in done
    ensures v.WithOutcome(done + {id}, oc) == v.WithOutcome(done, oc) + if v.Group(v.Keys(id)) == oc then {id} else {}
    ensures |v.WithOutcome(done + {id}, oc)| == |v.WithOutcome(done, oc)| + if v.Group(v.Keys(id)) == oc then 1 else 0
  {
    hide Evidence.Valid, Evidence.Group, Evidence.Keys;
    Grow(done, id, y => v.Valid() && v.Group(v.Keys(y)) == oc, v.WithOutcome(done, oc), v.WithOutcome(done + {id}, oc));
  }

  lemma ExecutedStep(v: Evidence, done: set<string>, id: string)
    requires v.Valid() && id !in done
    ensures |v.ExecutedIds(done + {id})| == |v.ExecutedIds(done)| + if v.Executed(v.Keys(id)) then 1 else 0
  {
    hide Evidence.Valid, Evidence.Executed, Evidence.Keys;
    Grow(done, id, y => v.Valid() && v.Executed(v.Keys(y)), v.ExecutedIds(done), v.ExecutedIds(done + {id}));
  }

  lemma RetriedStep(v: Evidence, done: set<string>, id: string)
    requires v.Valid() && id !in done
    ensures |v.RetriedIds(done + {id})| == |v.RetriedIds(done)| + if v.Retried(v.Keys(id)) then 1 else 0
  {
    hide Evidence.Valid, Evidence.Retried, Evidence.Keys;
    Grow(done, id, y => v.Valid() && v.Retried(v.Keys(y)), v.RetriedIds(done), v.RetriedIds(done + {id}));
  }

  lemma CountStep(v: Evidence, done: set<string>, id: string)
    requires v.Valid() && id !in done
    ensures CountsOf(v, done + {id}) == Bump(CountsOf(v, done), v.Executed(v.Keys(id)), v.Group(v.Keys(id)))
      .(retried := CountsOf(v, done).retried + if v.Retried(v.Keys(id)) then 1 else 0)
  {
    hide Evidence.Valid, Evidence.Group, Evidence.Executed, Evidence.Retried;
    hide Evidence.WithOutcome, Evidence.ExecutedIds, Evidence.RetriedIds;
    OutcomeStep(v, done, id, Passed);
    OutcomeStep(v, done, id, Failed);
    OutcomeStep(v, done, id, Skipped);
    ExecutedStep(v, done, id);
    RetriedStep(v, done, id);
  }

  lemma KindOutcomeStep(v: Evidence, done: set<string>, id: string, kind: Kind, oc: Outcome)
    requires v.Valid() && done <= v.o.required && id in v.o.required && id !in done
    requires v.o.required <= v.o.contracts.Keys
    ensures |v.KindWithOutcome(done + {id}, kind, oc)| == |v.KindWithOutcome(done, kind, oc)|
      + if kind in v.o.contracts[id].kinds && v.Group(v.KeysFor(id, kind)) == oc then 1 else 0
  {
    hide Evidence.Valid, Evidence.Group, Evidence.KeysFor;
    Grow(done, id,
         y => v.Valid() && y in v.o.contracts && kind in v.o.contracts[y].kinds && v.Group(v.KeysFor(y, kind)) == oc,
         v.KindWithOutcome(done, kind, oc), v.KindWithOutcome(done + {id}, kind, oc));
  }

  lemma KindExecutedStep(v: Evidence, done: set<string>, id: string, kind: Kind)
    requires v.Valid() && done <= v.o.required && id in v.o.required && id !in done
    requires v.o.required <= v.o.contracts.Keys
    ensures |v.KindExecuted(done + {id}, kind)| == |v.KindExecuted(done, kind)|
      + if kind in v.o.contracts[id].kinds && v.Executed(v.KeysFor(id, kind)) then 1 else 0
  {
    hide Evidence.Valid, Evidence.Executed, Evidence.KeysFor;
    Grow(done, id,
         y => v.Valid() && y in v.o.contracts && kind in v.o.contracts[y].kinds && v.Executed(v.KeysFor(y, kind)),
         v.KindExecuted(done, kind), v.KindExecuted(done + {id}, kind));
  }

  lemma RequiringStep(v: Evidence, done: set<string>, id: string, kind: Kind)
    requires v.Valid() && done <= v.o.required && id in v.o.required && id !in done
    requires v.o.required <= v.o.contracts.Keys
    ensures |v.Requiring(done + {id}, kind)| ==
      |v.Requiring(done, kind)| + if kind in v.o.contracts[id].kinds then 1 else 0
  {
    hide Evidence.Valid;
    Grow(done, id, y => y in v.o.contracts && kind in v.o.contracts[y].kinds, v.Requiring(done, kind),
      v.Requiring(done + {id}, kind));
  }

  lemma KindStep(v: Evidence, done: set<string>, id: string, kind: Kind)
    requires v.Valid() && done <= v.o.required && id in v.o.required && id !in done
    ensures id in v.o.contracts
    ensures KindCountsOf(v, done + {id}, kind) ==
      if kind in v.o.contracts[id].kinds
      then Bump(KindCountsOf(v, done, kind), v.Executed(v.KeysFor(id, kind)), v.Group(v.KeysFor(id, kind)))
      else KindCountsOf(v, done, kind)
  {
    assert v.o.required <= v.o.contracts.Keys;
    hide Evidence.Valid, Evidence.Group, Evidence.Executed;
    hide Evidence.KindWithOutcome, Evidence.KindExecuted, Evidence.Requiring;
    KindOutcomeStep(v, done, id, kind, Passed);
    KindOutcomeStep(v, done, id, kind, Failed);
    KindOutcomeStep(v, done, id, kind, Skipped);
    KindExecutedStep(v, done, id, kind);
    RequiringStep(v, done, id, kind);
  }

  function Bump(c: Counts, executed: bool, oc: Outcome): Counts {
    Counts(c.required + 1, c.executed + (if executed then 1 else 0), c.passed + (if oc == Passed then 1 else 0),
           c.failed + (if oc == Failed then 1 else 0), c.skipped + (if oc == Skipped then 1 else 0), c.retried)
  }

  const KINDS: set<Kind> := {Parser, Help, Refusal, Success, State, Fault, Concurrency}

  /** The counters when the contracts in `done` have been counted. */
  ghost predicate Tally(v: Evidence, done: set<string>, counts: Counts, kinds: map<Kind, Counts>, passed: set<string>)
    requires v.Valid() && done <= v.o.required
  {
    && counts == CountsOf(v, done) && passed == v.WithOutcome(done, Passed) && kinds.Keys == KINDS
    && forall kind :: kind in kinds ==> kinds[kind] == KindCountsOf(v, done, kind)
  }

  /** The counting loop over the required contracts and, inside it, over their kinds. */
  method CountAll(v: Evidence) returns (counts: Counts, kinds: map<Kind, Counts>, passed: set<string>)
    requires v.Valid()
    ensures counts == CountsOf(v, v.o.required) && passed == v.WithOutcome(v.o.required, Passed)
    ensures kinds.Keys == KINDS && forall kind :: kind in kinds ==> kinds[kind] == KindCountsOf(v, v.o.required, kind)
  {
    hide Evidence.Valid, CountsOf, KindCountsOf, Evidence.WithOutcome;
    counts := Counts(0, 0, 0, 0, 0, 0);
    kinds := map kind | kind in KINDS :: Counts(0, 0, 0, 0, 0, 0);
    passed := {};
    NothingCounted(v);
    var left := v.o.required;
    ghost var done: set<string> := {};
    assert Tally(v, done, counts, kinds, passed);
    while left != {}
      invariant done + left == v.o.required && done !! left && Tally(v, done, counts, kinds, passed)
      decreases left
    {
      hide Tally;
      var id :| id in left;
      counts, kinds, passed := CountContract(v, done, id, counts, kinds, passed);
      left, done := left - {id}, done + {id};
    }
    assert done == v.o.required;
  }

  method CountContract(v: Evidence, ghost done: set<string>, id: string, counts0: Counts, kinds0: map<Kind, Counts>,
      passed0: set<string>)
      returns (counts: Counts, kinds: map<Kind, Counts>, passed: set<string>)
    requires v.Valid() && done <= v.o.required && id in v.o.required && id !in done
    requires Tally(v, done, counts0, kinds0, passed0)
    ensures Tally(v, done + {id}, counts, kinds, passed)
  {
    hide Evidence.Valid, Evidence.Group, Evidence.Executed, Evidence.Retried, CountsOf, KindCountsOf;
    hide Evidence.WithOutcome, Evidence.Keys, Bump;
    CountStep(v, done, id);
    OutcomeStep(v, done, id, Passed);
    var g := v.Group(v.Keys(id));
    counts := Bump(counts0, v.Executed(v.Keys(id)), g)
      .(retried := counts0.retried + if v.Retried(v.Keys(id)) then 1 else 0);
    passed := if g == Passed then passed0 + {id} else passed0;
    kinds := CountKinds(v, done, id, kinds0);
  }

  method CountKinds(v: Evidence, ghost done: set<string>, id: string,
      before: map<Kind, Counts>) returns (kinds: map<Kind, Counts>)
    requires v.Valid() && done <= v.o.required && id in v.o.required && id !in done && before.Keys == KINDS
    requires forall kind :: kind in before ==> before[kind] == KindCountsOf(v, done, kind)
    ensures kinds.Keys == KINDS && forall kind :: kind in kinds ==> kinds[kind] == KindCountsOf(v, done + {id}, kind)
  {
    hide Evidence.Valid, Evidence.Group, Evidence.Executed, KindCountsOf;
    kinds := before;
    var left := KINDS;
    while left != {}
      invariant left <= KINDS && kinds.Keys == KINDS
      invariant forall kind :: kind in kinds ==>
        kinds[kind] == KindCountsOf(v, if kind in left then done else done + {id}, kind)
      decreases left
    {
      var kind :| kind in left;
      KindStep(v, done, id, kind);
      if kind in v.o.contracts[id].kinds {
        kinds := kinds[kind := Bump(kinds[kind], v.Executed(v.KeysFor(id, kind)), v.Group(v.KeysFor(id, kind)))];
      }
      left := left - {kind};
    }
  }

  lemma NothingCounted(v: Evidence)
    requires v.Valid()
    ensures CountsOf(v, {}) == Counts(0, 0, 0, 0, 0, 0) && v.WithOutcome({}, Passed) == {}
    ensures forall kind :: KindCountsOf(v, {}, kind) == Counts(0, 0, 0, 0, 0, 0)
  {
    hide Evidence.Group, Evidence.Executed, Evidence.Retried;
    forall kind ensures KindCountsOf(v, {}, kind) == Counts(0, 0, 0, 0, 0, 0) {
      assert v.Requiring({}, kind) == {} && v.KindExecuted({}, kind) == {};
      assert v.KindWithOutcome({}, kind, Passed) == {} && v.KindWithOutcome({}, kind, Failed) == {};
      assert v.KindWithOutcome({}, kind, Skipped) == {};
    }
    assert v.ExecutedIds({}) == {} && v.RetriedIds({}) == {};
    assert v.WithOutcome({}, Passed) == {} && v.WithOutcome({}, Failed) == {} && v.WithOutcome({}, Skipped) == {};
  }

  // ----- exactly what is admitted -----

  /** The test claims some of the required kinds and makes every assertion listed for them. */
  ghost predicate SoundBinding(c: Contract, b: Binding) {
    && b.evidence != {} && b.assertions != {}
    && (forall kind :: kind in b.evidence ==> kind in c.kinds)
    && (forall kind, a :: kind in b.evidence && kind in c.assertions && a in c.assertions[kind] ==> a in b.assertions)
  }

  lemma BindingExact(c: Contract, b: Binding)
    ensures BindingOk(c, b) <==> SoundBinding(c, b)
  {
    if BindingOk(c, b) {
      forall kind, a | kind in b.evidence && kind in c.assertions && a in c.assertions[kind] ensures a in b.assertions {
        assert a in Union(c.assertions, b.evidence);
      }
    }
  }

  /** The contract's tests are sound, distinct on the lane, and supply every kind on it. */
  ghost predicate Bound(c: Contract, lane: string) {
    && c.tests != []
    && (forall k :: 0 <= k < |c.tests| ==> SoundBinding(c, c.tests[k]))
    && (forall j, k :: 0 <= j < k < |c.tests| && c.tests[j].id == c.tests[k].id ==>
          c.tests[j].lane != lane || c.tests[k].lane != lane)
    && (forall kind :: kind in c.kinds ==> SuppliedOn(c.tests, lane, kind))
  }

  ghost predicate SuppliedOn(tests: seq<Binding>, lane: string, kind: Kind) {
    exists k :: 0 <= k < |tests| && tests[k].lane == lane && kind in tests[k].evidence
  }

  lemma ContractExact(c: Contract, lane: string)
    ensures ContractOk(c, lane) <==> Bound(c, lane)
  {
    hide BindingOk, SoundBinding;
    forall k | 0 <= k < |c.tests| ensures BindingOk(c, c.tests[k]) <==> SoundBinding(c, c.tests[k]) {
      BindingExact(c, c.tests[k]);
    }
    forall kind ensures kind in Supplied(c.tests, lane) <==> SuppliedOn(c.tests, lane, kind) { }
    if Bound(c, lane) {
      forall kind | kind in Supplied(c.tests, lane) ensures kind in c.kinds { SuppliedIsRequired(c, lane, kind); }
    }
  }

  lemma SuppliedIsRequired(c: Contract, lane: string, kind: Kind)
    requires Bound(c, lane) && kind in Supplied(c.tests, lane)
    ensures kind in c.kinds
  {
    var k :| 0 <= k < |c.tests| && c.tests[k].lane == lane && kind in c.tests[k].evidence;
    assert SoundBinding(c, c.tests[k]);
  }

  /** The `k`-th test of a required contract is on the lane. */
  ghost predicate Owes(o: Owner, id: string, k: int) {
    && id in o.required && id in o.contracts && 0 <= k < |o.contracts[id].tests|
    && o.contracts[id].tests[k].lane == o.lane
  }

  /** What a receipt may claim for its test: everything on a pass, nothing on an allowed skip, else a part. */
  ghost predicate Claims(c: Contract, b: Binding, r: Row) {
    match r.result
    case PASS => r.evidence == b.evidence && r.assertions == b.assertions
    case SKIPPED => c.skipReason.Some? && r.reason == c.skipReason && r.evidence == {} && r.assertions == {}
    case _ => r.evidence <= b.evidence && r.assertions <= b.assertions
  }

  /** A receipt of this run for an owed test and its binary, with a numbered attempt. */
  ghost predicate Acceptable(o: Owner, r: Row) {
    && r.identity && 1 <= r.attempt && r.attempt <= r.attemptCount && r.attemptCount <= 100
    && exists k :: Receipts(o, r, k)
  }

  ghost predicate Receipts(o: Owner, r: Row, k: int) {
    && Owes(o, r.contract, k)
    && var c := o.contracts[r.contract];
       && r.testId == c.tests[k].id && r.binary == c.binary && c.binary in o.binaries
       && r.sha256 == o.binaries[c.binary] && Claims(c, c.tests[k], r)
  }

  lemma ClaimsExact(c: Contract, b: Binding, r: Row)
    ensures Claims(c, b, r) <==>
      && r.evidence <= b.evidence && r.assertions <= b.assertions
      && (r.result == SKIPPED ==> c.skipReason.Some? && r.reason == c.skipReason)
      && (r.result == SKIPPED ==> r.evidence == {} && r.assertions == {})
      && (r.result == PASS ==> r.evidence == b.evidence && r.assertions == b.assertions)
  {
  }

  lemma OwedKey(o: Owner, key: Key) returns (k: int)
    requires o.Valid() && key in Expected(o)
    ensures Owes(o, key.0, k) && o.contracts[key.0].tests[k].id == key.1
  {
    hide Find;
    k :| 0 <= k < |o.contracts[key.0].tests| && o.contracts[key.0].tests[k].lane == o.lane
      && o.contracts[key.0].tests[k].id == key.1;
  }

  lemma ReceiptExact(o: Owner, r: Row)
    requires o.Valid() && OwnerOk(o)
    ensures RowOk(o, Expected(o), r) <==> Acceptable(o, r)
  {
    hide Expected, OwnerOk, Claims;
    if RowOk(o, Expected(o), r) {
      var k := OwedKey(o, KeyOf(r));
      ExpectedAt(o, r.contract, k);
      ClaimsExact(o.contracts[r.contract], o.contracts[r.contract].tests[k], r);
      assert Receipts(o, r, k);
    }
    if Acceptable(o, r) {
      var k :| Receipts(o, r, k);
      ExpectedAt(o, r.contract, k);
      ClaimsExact(o.contracts[r.contract], o.contracts[r.contract].tests[k], r);
    }
  }

  /** The receipts of the test are its attempts one to `n`, and each of them says `n`. */
  ghost predicate Numbered(rows: seq<Row>, id: string, test: string, n: int) {
    && n >= 1
    && (forall r :: r in rows && r.contract == id && r.testId == test ==> r.attemptCount == n && 1 <= r.attempt <= n)
    && (forall a :: 1 <= a <= n ==> Attempted(rows, id, test, a))
  }

  ghost predicate Attempted(rows: seq<Row>, id: string, test: string, a: int) {
    exists r :: r in rows && r.contract == id && r.testId == test && r.attempt == a
  }

  lemma HeldAttempt(m: Histories, rows: seq<Row>, key: Key, a: int)
    requires Holds(m, rows)
    ensures Attempted(rows, key.0, key.1, a) <==> key in m && a in m[key]
  {
    if r :| r in rows && r.contract == key.0 && r.testId == key.1 && r.attempt == a {
      var k :| 0 <= k < |rows| && rows[k] == r;
      assert Recorded(m, rows[k]);
    }
    if key in m && a in m[key] { assert Slot(m[key][a]) == (key, a); }
  }

  lemma HeldRow(m: Histories, rows: seq<Row>, r: Row)
    requires Holds(m, rows) && r in rows
    ensures KeyOf(r) in m && r.attempt in m[KeyOf(r)] && m[KeyOf(r)][r.attempt] == r
  {
    var k :| 0 <= k < |rows| && rows[k] == r;
    assert Recorded(m, rows[k]);
  }

  lemma HeldSlot(m: Histories, rows: seq<Row>, key: Key, a: int)
    requires Holds(m, rows) && key in m && a in m[key]
    ensures m[key][a] in rows && m[key][a].contract == key.0 && m[key][a].testId == key.1 && m[key][a].attempt == a
  {
    assert Slot(m[key][a]) == (key, a);
  }

  lemma HistoryExact(m: Histories, rows: seq<Row>, key: Key)
    requires Holds(m, rows)
    ensures (key in m && Complete(m[key])) <==> exists n :: Numbered(rows, key.0, key.1, n)
  {
    hide Holds, Attempted;
    forall a ensures Attempted(rows, key.0, key.1, a) <==> key in m && a in m[key] { HeldAttempt(m, rows, key, a); }
    if key in m && Complete(m[key]) {
      assert |m[key]| >= 1;
      forall r | r in rows && r.contract == key.0 && r.testId == key.1
        ensures r.attemptCount == |m[key]| && 1 <= r.attempt <= |m[key]|
      {
        HeldRow(m, rows, r);
      }
      assert Numbered(rows, key.0, key.1, |m[key]|);
    }
    if n :| Numbered(rows, key.0, key.1, n) {
      assert Attempted(rows, key.0, key.1, 1);
      forall a | a in m[key] ensures 1 <= a <= n && m[key][a].attemptCount == n { HeldSlot(m, rows, key, a); }
      assert m[key].Keys == Interval(1, n);
      assert |m[key].Keys| == |m[key]|;
    }
  }

  ghost predicate OnceEach(rows: seq<Row>) {
    forall j, k :: 0 <= j < k < |rows| && rows[j].contract == rows[k].contract && rows[j].testId == rows[k].testId ==>
      rows[j].attempt != rows[k].attempt
  }

  /** Every required contract is bound, and every receipt acceptable, with no attempt twice and none missing. */
  ghost predicate Admissible(o: Owner, rows: seq<Row>)
    requires o.Valid()
  {
    && (forall id :: id in o.required ==> Bound(o.contracts[id], o.lane))
    && rows != [] && (forall r :: r in rows ==> Acceptable(o, r)) && OnceEach(rows)
    && (exists id, k :: Owes(o, id, k))
    && (forall id, k :: Owes(o, id, k) ==> exists n :: Numbered(rows, id, o.contracts[id].tests[k].id, n))
  }

  lemma CollectAccepts(o: Owner, rows: seq<Row>)
    requires o.Valid() && OwnerOk(o)
    ensures Collect(o, Expected(o), rows).Some? <==> (forall r :: r in rows ==> Acceptable(o, r)) && OnceEach(rows)
  {
    hide Expected, OwnerOk, RowOk, Acceptable, Collect, Holds;
    CollectExact(o, Expected(o), rows);
    forall r ensures RowOk(o, Expected(o), r) <==> Acceptable(o, r) { ReceiptExact(o, r); }
    if forall k :: 0 <= k < |rows| ==> RowOk(o, Expected(o), rows[k]) {
      forall r | r in rows ensures Acceptable(o, r) {
        var k :| 0 <= k < |rows| && rows[k] == r;
      }
    }
  }

  lemma OwesSome(o: Owner)
    requires o.Valid() && OwnerOk(o)
    ensures Expected(o) != map[] <==> exists id, k :: Owes(o, id, k)
  {
    hide Expected, OwnerOk;
    if Expected(o) != map[] {
      var key := SomeKey(Expected(o));
      var k := OwedKey(o, key);
    }
    if id, k :| Owes(o, id, k) { ExpectedAt(o, id, k); }
  }

  lemma HistoriesExact(o: Owner, rows: seq<Row>, m: Histories)
    requires o.Valid() && OwnerOk(o) && Collect(o, Expected(o), rows) == Some(m)
    ensures (m.Keys == Expected(o).Keys && forall key :: key in m ==> Complete(m[key])) <==>
      forall id, k :: Owes(o, id, k) ==> exists n :: Numbered(rows, id, o.contracts[id].tests[k].id, n)
  {
    hide Expected, OwnerOk, Collect, Holds, Complete, Numbered, RowOk;
    CollectExact(o, Expected(o), rows);
    forall key ensures (key in m && Complete(m[key])) <==> exists n :: Numbered(rows, key.0, key.1, n) {
      HistoryExact(m, rows, key);
    }
    forall id, k | Owes(o, id, k) ensures (id, o.contracts[id].tests[k].id) in Expected(o) { ExpectedAt(o, id, k); }
    if forall id, k :: Owes(o, id, k) ==> exists n :: Numbered(rows, id, o.contracts[id].tests[k].id, n) {
      forall key | key in Expected(o) ensures key in m && Complete(m[key]) {
        var k := OwedKey(o, key);
      }
      forall key | key in m ensures key in Expected(o) { HeldExpected(o, rows, m, key); }
    }
  }

  lemma HeldExpected(o: Owner, rows: seq<Row>, m: Histories, key: Key)
    requires o.Valid() && Collect(o, Expected(o), rows) == Some(m) && key in m
    ensures key in Expected(o)
  {
    hide Expected, Collect;
    CollectExact(o, Expected(o), rows);
    var a :| a in m[key];
    HeldSlot(m, rows, key, a);
    var k :| 0 <= k < |rows| && rows[k] == m[key][a];
    assert RowOk(o, Expected(o), rows[k]);
  }

  /** Receipts are admitted exactly when the plan is bound and each owed test has one complete set of attempts. */
  lemma AdmissionExact(o: Owner, rows: seq<Row>)
    requires o.Valid()
    ensures Admitted(o, rows).Some? <==> Admissible(o, rows)
  {
    hide Bound, ContractOk, Expected, Collect, Complete, Acceptable, OnceEach, Owes, Numbered;
    forall id | id in o.required ensures ContractOk(o.contracts[id], o.lane) <==> Bound(o.contracts[id], o.lane) {
      ContractExact(o.contracts[id], o.lane);
    }
    if OwnerOk(o) {
      hide OwnerOk;
      CollectAccepts(o, rows);
      OwesSome(o);
      if Collect(o, Expected(o), rows).Some? { HistoriesExact(o, rows, Collect(o, Expected(o), rows).value); }
    }
  }

  datatype Report = Report(evidence: Evidence, counts: Counts, kinds: map<Kind, Counts>, passedContracts: set<string>,
      passed: bool)

  /** `admit` from the test bindings on: the whole admission of one owner's receipts. */
  method Admit(o: Owner, rows: seq<Row>) returns (r: Option<Report>)
    requires o.Valid()
    ensures r.Some? <==> Admitted(o, rows).Some?
    ensures r.Some? <==> Admissible(o, rows)
    ensures r.Some? ==>
      && r.value.evidence == Admitted(o, rows).value && r.value.evidence.Valid()
      && r.value.counts == CountsOf(r.value.evidence, o.required)
      && r.value.kinds.Keys == KINDS
      && (forall kind :: kind in r.value.kinds ==>
            r.value.kinds[kind] == KindCountsOf(r.value.evidence, o.required, kind))
      && r.value.passedContracts == r.value.evidence.WithOutcome(o.required, Passed)
      && (r.value.passed <==> ReportPassed(r.value.evidence))
    ensures r.Some? ==>
      (r.value.passed <==>
        && (forall row :: row in rows && Considered(o, row) ==> !Bad(row))
        && (forall row :: row in rows && Last(row) ==> row.result == PASS))
  {
    hide Collect, OwnerOk, Expected, Complete, CountsOf, KindCountsOf, Evidence.Valid, Admissible;
    AdmissionExact(o, rows);
    var expected := BuildExpected(o);
    if expected.None? || expected.value == map[] || rows == [] { return None; }
    var attempts := CollectReceipts(o, expected.value, rows);
    if attempts.None? || attempts.value.Keys != expected.value.Keys { return None; }
    var complete := CheckHistories(attempts.value);
    if !complete { return None; }
    var v := Evidence(o, expected.value, attempts.value);
    AdmittedFacts(o, rows, v);
    var counts, kinds, passed := CountAll(v);
    CountsRequired(v);
    ReportFromReceipts(o, rows, v);
    return Some(Report(v, counts, kinds, passed, counts.passed == counts.required));
  }

  lemma CountsRequired(v: Evidence)
    requires v.Valid()
    ensures CountsOf(v, v.o.required).required == |v.o.required|
  {
  }
}
