/**
 Admission of sharded mutation reports: the slice partition of the manifest, the agreement of
 each outcome with its phases, the accounting of every mutant, and the score floor.
 */
module MutationShards {
  import opened Prelude
  import Text

  // ----- the slice partition -----

  function Width(n: nat, shards: nat): nat
    requires shards > 0
  {
    (n + shards - 1) / shards
  }

  function Min(a: nat, b: nat): nat {
    if a < b then a else b
  }

  /** `manifest[index * width:(index + 1) * width]`, clamped as a slice is. */
  function Slice<T>(manifest: seq<T>, index: nat, shards: nat): seq<T>
    requires shards > 0
  {
    var width := Width(|manifest|, shards);
    manifest[Min(index * width, |manifest|)..Min((index + 1) * width, |manifest|)]
  }

  function Slices<T>(manifest: seq<T>, count: nat, shards: nat): seq<T>
    requires shards > 0
  {
    if count == 0 then [] else Slices(manifest, count - 1, shards) + Slice(manifest, count - 1, shards)
  }

  lemma {:induction false} SlicesArePrefix<T>(manifest: seq<T>, count: nat, shards: nat)
    requires shards > 0
    ensures Slices(manifest, count, shards) == manifest[..Min(count * Width(|manifest|, shards), |manifest|)]
    decreases count
  {
    hide Width;
    if count > 0 {
      var n, w := |manifest|, Width(|manifest|, shards);
      SlicesArePrefix(manifest, count - 1, shards);
      var a, b := Min((count - 1) * w, n), Min(count * w, n);
      assert count * w == (count - 1) * w + w;
      assert Slice(manifest, count - 1, shards) == manifest[a..b];
      assert manifest[..a] + manifest[a..b] == manifest[..b];
    }
  }

  lemma WidthCovers(n: nat, shards: nat)
    requires shards > 0
    ensures shards * Width(n, shards) >= n
    ensures n > 0 ==> Width(n, shards) > 0
  {
    var q := (n + shards - 1) / shards;
    assert n + shards - 1 == q * shards + (n + shards - 1) % shards;
  }

  /** The slices of all shards, in order, are the manifest. */
  lemma SlicesPartition<T>(manifest: seq<T>, shards: nat)
    requires shards > 0
    ensures Slices(manifest, shards, shards) == manifest
  {
    SlicesArePrefix(manifest, shards, shards);
    WidthCovers(|manifest|, shards);
  }

  /** Position `k` of the manifest belongs to one shard, and to no other. */
  lemma OwningShard<T>(manifest: seq<T>, shards: nat, k: nat) returns (owner: nat)
    requires shards > 0 && k < |manifest|
    ensures owner < shards
    ensures forall i: nat :: i * Width(|manifest|, shards) <= k < (i + 1) * Width(|manifest|, shards) <==> i == owner
  {
    var width := Width(|manifest|, shards);
    WidthCovers(|manifest|, shards);
    owner := k / width;
    assert k == owner * width + k % width;
    assert owner < shards by {
      if owner >= shards { MulMonotone(shards, owner, width); assert false; }
    }
    forall i: nat ensures i * width <= k < (i + 1) * width <==> i == owner {
      if i < owner { MulMonotone(i + 1, owner, width); }
      if i > owner { MulMonotone(owner + 1, i, width); }
    }
  }

  lemma MulMonotone(a: nat, b: nat, w: nat)
    requires a <= b
    ensures a * w <= b * w
  {
  }

  /** Every shard has work exactly when the shards before the last do not exhaust the manifest. */
  lemma AllShardsNonempty<T>(manifest: seq<T>, shards: nat)
    requires shards > 0
    ensures (forall i: nat :: i < shards ==> Slice(manifest, i, shards) != [])
       <==> (shards - 1) * Width(|manifest|, shards) < |manifest|
  {
    var n, width := |manifest|, Width(|manifest|, shards);
    WidthCovers(n, shards);
    if (shards - 1) * width < n {
      forall i: nat | i < shards ensures Slice(manifest, i, shards) != [] {
        MulMonotone(i, shards - 1, width);
        assert (i + 1) * width == i * width + width;
      }
    } else {
      assert shards * width >= (shards - 1) * width >= n;
      assert Slice(manifest, shards - 1, shards) == [];
    }
  }

  // ----- one outcome -----

  datatype Phase = Build | Test | OtherPhase
  datatype Status = Succeeded | TimedOut | Failed(code: int) | OtherStatus
  datatype Summary = Success | CaughtMutant | MissedMutant | Timeout | Unviable | OtherSummary

  /** One phase: what ran, how it ended, and whether it was the full test run with a valid duration. */
  datatype PhaseResult = PhaseResult(phase: Phase, status: Status, fullRun: bool)

  predicate Failure(s: Status) {
    s.Failed? && s.code > 0
  }

  predicate VerifyPhases(phases: seq<PhaseResult>, summary: Summary, baseline: bool) {
    && phases != []
    && (forall k :: 0 <= k < |phases| ==> phases[k].fullRun)
    && var built := phases[0].phase == Build;
       var both := |phases| == 2 && built && phases[1].phase == Test;
       var only := |phases| == 1 && built;
       if baseline then summary == Success && both && phases[0].status == Succeeded && phases[1].status == Succeeded
       else match summary
         case CaughtMutant => both && phases[0].status == Succeeded && Failure(phases[1].status)
         case MissedMutant => both && phases[0].status == Succeeded && phases[1].status == Succeeded
         case Unviable => only && Failure(phases[0].status)
         case Timeout =>
           || (only && phases[0].status == TimedOut)
           || (both && phases[0].status == Succeeded && phases[1].status == TimedOut)
         case _ => false
  }

  /** A phase of the full test run. */
  ghost function FullRun(p: Phase, s: Status): PhaseResult {
    PhaseResult(p, s, true)
  }

  /** The evidence each verdict needs, phase by phase; the last two summaries are never a mutant's. */
  lemma PhasesExact(phases: seq<PhaseResult>, summary: Summary)
    ensures VerifyPhases(phases, summary, true) <==>
      summary == Success && phases == [FullRun(Build, Succeeded), FullRun(Test, Succeeded)]
    ensures VerifyPhases(phases, CaughtMutant, false) <==>
      exists n :: n > 0 && phases == [FullRun(Build, Succeeded), FullRun(Test, Failed(n))]
    ensures VerifyPhases(phases, MissedMutant, false) <==>
      phases == [FullRun(Build, Succeeded), FullRun(Test, Succeeded)]
    ensures VerifyPhases(phases, Unviable, false) <==> exists n :: n > 0 && phases == [FullRun(Build, Failed(n))]
    ensures VerifyPhases(phases, Timeout, false) <==>
      || phases == [FullRun(Build, TimedOut)]
      || phases == [FullRun(Build, Succeeded), FullRun(Test, TimedOut)]
    ensures !VerifyPhases(phases, Success, false) && !VerifyPhases(phases, OtherSummary, false)
  {
    if VerifyPhases(phases, CaughtMutant, false) {
      assert phases == [FullRun(Build, Succeeded), FullRun(Test, Failed(phases[1].status.code))];
    }
    if VerifyPhases(phases, Unviable, false) {
      assert phases == [FullRun(Build, Failed(phases[0].status.code))];
    }
  }

  /** The phases alone decide the verdict: no two verdicts are admitted for the same evidence. */
  lemma PhasesDecideSummary(phases: seq<PhaseResult>, a: Summary, b: Summary)
    requires VerifyPhases(phases, a, false) && VerifyPhases(phases, b, false)
    ensures a == b
  {
  }

  // ----- one shard -----

  const FILES := {"src/core/archive.rs", "src/core/runtime_resolver.rs", "src/core/http.rs",
                  "src/core/security/validation.rs", "src/core/security/policy.rs", "src/core/security/secrets.rs"}

  /** A generated mutant without its diff. */
  datatype Record = Record(name: string, package: string, file: string, details: string)

  datatype Listed = Listed(record: Record, diff: string)

  predicate ValidRecord(r: Record) {
    r.name != "" && r.package == "omg" && r.file in FILES
  }

  predicate ValidManifest(manifest: seq<Listed>) {
    && manifest != []
    && (forall k :: 0 <= k < |manifest| ==>
          var r := manifest[k].record; |r.name| > 0 && r.package == "omg" && r.file in FILES)
    && (forall j, k :: 0 <= j < k < |manifest| ==> manifest[j].record.name != manifest[k].record.name)
  }

  function RecordMap(manifest: seq<Listed>): (m: map<string, Record>)
    ensures m.Keys == set k | 0 <= k < |manifest| :: manifest[k].record.name
  {
    if manifest == [] then map[]
    else
      var last := manifest[|manifest| - 1].record;
      RecordMap(manifest[..|manifest| - 1])[last.name := last]
  }

  lemma RecordMapStart(manifest: seq<Listed>)
    ensures RecordMap(manifest[..0]) == map[]
  {
  }

  lemma RecordMapStep(manifest: seq<Listed>, k: nat)
    requires k < |manifest|
    ensures RecordMap(manifest[..k + 1]) == RecordMap(manifest[..k])[manifest[k].record.name := manifest[k].record]
  {
    assert manifest[..k + 1][..k] == manifest[..k];
  }

  /** `records`: the manifest by name, or nothing for an empty, invalid or repeating one. */
  method Records(manifest: seq<Listed>) returns (r: Option<map<string, Record>>)
    ensures r == if ValidManifest(manifest) then Some(RecordMap(manifest)) else None
  {
    hide RecordMap;
    if manifest == [] { return None; }
    var result: map<string, Record> := map[];
    RecordMapStart(manifest);
    for k := 0 to |manifest|
      invariant result == RecordMap(manifest[..k])
      invariant result.Keys == set j | 0 <= j < k :: manifest[j].record.name
      invariant forall j :: 0 <= j < k ==> ValidRecord(manifest[j].record)
      invariant forall i, j :: 0 <= i < j < k ==> manifest[i].record.name != manifest[j].record.name
    {
      var record := manifest[k].record;
      var valid := ValidRecord(record);
      if !valid || record.name in result {
        return None;
      }
      RecordMapStep(manifest, k);
      result := result[record.name := record];
    }
    assert manifest[..|manifest|] == manifest;
    return Some(result);
  }

  datatype Scenario = Baseline | Mutant(record: Record) | OtherScenario
  datatype Outcome = Outcome(scenario: Scenario, summary: Summary, phases: seq<PhaseResult>)

  /** The counted part of a report, one value per verdict. */
  datatype Tally<T> = Tally(caught: T, missed: T, timeout: T, unviable: T)

  /** A shard directory; the yes/no fields stand for the comparisons of its metadata, version and times. */
  datatype Shard = Shard(index: int, metadataMatches: bool, manifest: seq<Listed>, reported: seq<Listed>,
                         versionMatches: bool, timesMatch: bool, outcomes: seq<Outcome>,
                         counts: Tally<int>, texts: Tally<string>, total: int, success: int)

  function Baselines(outcomes: seq<Outcome>): seq<Outcome> {
    Filter(outcomes, (o: Outcome) => o.scenario == Baseline)
  }

  function Mutants(outcomes: seq<Outcome>): seq<Outcome> {
    if outcomes == [] then []
    else
      var last := outcomes[|outcomes| - 1];
      Mutants(outcomes[..|outcomes| - 1]) + if last.scenario == Baseline then [] else [last]
  }

  predicate AllMutants(outcomes: seq<Outcome>) {
    forall k :: 0 <= k < |outcomes| ==> outcomes[k].scenario.Mutant?
  }

  function Names(mutants: seq<Outcome>): (names: seq<string>)
    requires AllMutants(mutants)
    ensures |names| == |mutants|
    ensures forall k :: 0 <= k < |mutants| ==> names[k] == mutants[k].scenario.record.name
  {
    seq(|mutants|, k requires 0 <= k < |mutants| => mutants[k].scenario.record.name)
  }

  /** The names of the mutants with one verdict, in report order. */
  function WithVerdict(mutants: seq<Outcome>, s: Summary): seq<string>
    requires AllMutants(mutants)
  {
    if mutants == [] then []
    else
      var last := mutants[|mutants| - 1];
      WithVerdict(mutants[..|mutants| - 1], s) + if last.summary == s then [last.scenario.record.name] else []
  }

  predicate Distinct<T(==)>(s: seq<T>) {
    forall j, k :: 0 <= j < k < |s| ==> s[j] != s[k]
  }

  function NameSet(mutants: seq<Outcome>): set<string>
    requires AllMutants(mutants)
  {
    set k | 0 <= k < |mutants| :: mutants[k].scenario.record.name
  }

  lemma NameSetStep(mutants: seq<Outcome>, o: Outcome)
    requires AllMutants(mutants) && o.scenario.Mutant?
    ensures AllMutants(mutants + [o])
    ensures NameSet(mutants + [o]) == NameSet(mutants) + {o.scenario.record.name}
  {
    var all := mutants + [o];
    assert all[|mutants|] == o && forall k :: 0 <= k < |mutants| ==> all[k] == mutants[k];
  }

  /** An outcome for a mutant of the slice, with the record and the phases it must have. */
  predicate OutcomeAccepted(o: Outcome, selected: map<string, Record>) {
    && o.scenario.Mutant?
    && o.scenario.record.name in selected
    && o.scenario.record == selected[o.scenario.record.name]
    && VerifyPhases(o.phases, o.summary, false)
  }

  ghost predicate OutcomesAccepted(mutants: seq<Outcome>, selected: map<string, Record>) {
    && (forall k :: 0 <= k < |mutants| ==> OutcomeAccepted(mutants[k], selected))
    && Distinct(Names(mutants))
    && selected.Keys == NameSet(mutants)
  }

  /** The lines of a text report, in any order, are the names. */
  predicate SameLines(text: string, names: seq<string>) {
    multiset(Text.SplitLines(text)) == multiset(names)
  }

  ghost predicate CountersAgree(sh: Shard, mutants: seq<Outcome>)
    requires AllMutants(mutants)
  {
    var caught, missed := WithVerdict(mutants, CaughtMutant), WithVerdict(mutants, MissedMutant);
    var timeout, unviable := WithVerdict(mutants, Timeout), WithVerdict(mutants, Unviable);
    && sh.counts == Tally(|caught|, |missed|, |timeout|, |unviable|)
    && SameLines(sh.texts.caught, caught) && SameLines(sh.texts.missed, missed)
    && SameLines(sh.texts.timeout, timeout) && SameLines(sh.texts.unviable, unviable)
    && sh.total == |mutants| && sh.success == 0
  }

  predicate ManifestsAgree(sh: Shard, shards: nat, manifest: seq<Listed>)
    requires shards > 0
  {
    && sh.metadataMatches && 0 <= sh.index < shards && sh.manifest == manifest && ValidManifest(manifest)
    && var selected := Slice(manifest, sh.index, shards);
       ValidManifest(selected) && ValidManifest(sh.reported) && RecordMap(sh.reported) == RecordMap(selected)
  }

  /** There is one baseline, and it built and passed. */
  ghost predicate BaselineAccepted(sh: Shard) {
    sh.versionMatches && sh.timesMatch && exists i :: OnlyBaseline(sh.outcomes, i) && Healthy(sh.outcomes[i])
  }

  ghost predicate OnlyBaseline(outcomes: seq<Outcome>, i: int) {
    && 0 <= i < |outcomes| && outcomes[i].scenario == Baseline
    && forall k :: 0 <= k < |outcomes| && k != i ==> outcomes[k].scenario != Baseline
  }

  ghost predicate Healthy(o: Outcome) {
    o.summary == Success && o.phases == [FullRun(Build, Succeeded), FullRun(Test, Succeeded)]
  }

  lemma OneBaseline(outcomes: seq<Outcome>)
    ensures (|Baselines(outcomes)| == 1 && VerifyPhases(Baselines(outcomes)[0].phases, Baselines(outcomes)[0].summary,
        true)) <==> exists i :: OnlyBaseline(outcomes, i) && Healthy(outcomes[i])
  {
    hide VerifyPhases;
    var p := (o: Outcome) => o.scenario == Baseline;
    FilterSingle(outcomes, p);
    forall i ensures OnlyBaseline(outcomes, i) <==> Sole(outcomes, p, i) { }
    assert Baselines(outcomes) == Filter(outcomes, p);
    hide Baselines, OnlyBaseline;
    if |Baselines(outcomes)| == 1 {
      var i :| Sole(outcomes, p, i);
      assert Baselines(outcomes) == [outcomes[i]] && OnlyBaseline(outcomes, i);
      PhasesExact(outcomes[i].phases, outcomes[i].summary);
    }
    if i :| OnlyBaseline(outcomes, i) && Healthy(outcomes[i]) {
      assert Sole(outcomes, p, i);
      PhasesExact(outcomes[i].phases, outcomes[i].summary);
    }
  }

  ghost predicate ShardAccepted(sh: Shard, shards: nat, manifest: seq<Listed>)
    requires shards > 0
  {
    && ManifestsAgree(sh, shards, manifest)
    && BaselineAccepted(sh)
    && OutcomesAccepted(Mutants(sh.outcomes), RecordMap(Slice(manifest, sh.index, shards)))
    && CountersAgree(sh, Mutants(sh.outcomes))
  }

  /** A verdict counts as exactly one of the four. */
  lemma {:induction false} VerdictsAddUp(mutants: seq<Outcome>)
    requires AllMutants(mutants)
    requires forall k :: 0 <= k < |mutants| ==> VerifyPhases(mutants[k].phases, mutants[k].summary, false)
    ensures |WithVerdict(mutants, CaughtMutant)| + |WithVerdict(mutants, MissedMutant)|
          + |WithVerdict(mutants, Timeout)| + |WithVerdict(mutants, Unviable)| == |mutants|
    decreases |mutants|
  {
    if mutants != [] {
      VerdictsAddUp(mutants[..|mutants| - 1]);
      assert mutants[|mutants| - 1].summary in {CaughtMutant, MissedMutant, Timeout, Unviable};
    }
  }

  lemma MutantsStep(outcomes: seq<Outcome>, k: nat)
    requires k < |outcomes|
    ensures Mutants(outcomes[..k + 1]) ==
      Mutants(outcomes[..k]) + if outcomes[k].scenario == Baseline then [] else [outcomes[k]]
  {
    assert outcomes[..k + 1][..k] == outcomes[..k];
  }

  lemma {:induction false} MutantsPrefix(outcomes: seq<Outcome>, k: nat)
    requires k <= |outcomes|
    ensures Mutants(outcomes[..k]) <= Mutants(outcomes)
    decreases |outcomes| - k
  {
    if k < |outcomes| {
      MutantsStep(outcomes, k);
      MutantsPrefix(outcomes, k + 1);
    } else {
      assert outcomes[..k] == outcomes;
    }
  }

  lemma VerdictStep(mutants: seq<Outcome>, o: Outcome, s: Summary)
    requires AllMutants(mutants) && o.scenario.Mutant?
    ensures AllMutants(mutants + [o])
    ensures o.summary == s ==> WithVerdict(mutants + [o], s) == WithVerdict(mutants, s) + [o.scenario.record.name]
    ensures o.summary != s ==> WithVerdict(mutants + [o], s) == WithVerdict(mutants, s)
  {
    assert (mutants + [o])[..|mutants|] == mutants;
  }

  /** An unacceptable outcome among the mutants makes the whole shard unacceptable. */
  lemma BadOutcome(outcomes: seq<Outcome>, k: nat, selected: map<string, Record>, seen: set<string>)
    requires k < |outcomes| && outcomes[k].scenario != Baseline
    requires var done := Mutants(outcomes[..k]);
      || !OutcomeAccepted(outcomes[k], selected)
      || outcomes[k].scenario.record.name in seen
      || exists j ::
        0 <= j < |done| && done[j].scenario.Mutant? && done[j].scenario.record.name == outcomes[k].scenario.record.name
    ensures !(OutcomesAccepted(Mutants(outcomes), selected) && selected.Keys !! seen)
  {
    hide VerifyPhases, Mutants;
    var done, all := Mutants(outcomes[..k]), Mutants(outcomes);
    MutantsStep(outcomes, k);
    MutantsPrefix(outcomes, k + 1);
    assert all[|done|] == outcomes[k] && forall j :: 0 <= j < |done| ==> all[j] == done[j];
  }

  /** An accepted outcome has one of the four verdicts. */
  lemma KnownVerdict(o: Outcome, selected: map<string, Record>)
    requires OutcomeAccepted(o, selected)
    ensures o.summary in {CaughtMutant, MissedMutant, Timeout, Unviable}
  {
  }

  /** The outcome loop of one shard. */
  method CheckOutcomes(outcomes: seq<Outcome>, selected: map<string, Record>, seen: set<string>)
      returns (ok: bool, texts: Tally<seq<string>>)
    ensures ok <==> OutcomesAccepted(Mutants(outcomes), selected) && selected.Keys !! seen
    ensures ok ==> AllMutants(Mutants(outcomes)) && texts == Verdicts(Mutants(outcomes))
  {
    hide VerifyPhases, Mutants, WithVerdict;
    var actual: set<string> := {};
    texts := Tally([], [], [], []);
    ghost var done: seq<Outcome> := [];
    MutantsStart(outcomes);
    for k := 0 to |outcomes|
      invariant done == Mutants(outcomes[..k]) && AllMutants(done)
      invariant forall j :: 0 <= j < |done| ==> OutcomeAccepted(done[j], selected)
      invariant Distinct(Names(done))
      invariant actual == NameSet(done)
      invariant actual <= selected.Keys && actual !! seen
      invariant texts == Verdicts(done)
    {
      MutantsStep(outcomes, k);
      var o := outcomes[k];
      if o.scenario == Baseline { continue; }
      var accepted := OutcomeAccepted(o, selected);
      if !accepted || o.scenario.record.name in actual || o.scenario.record.name in seen {
        BadOutcome(outcomes, k, selected, seen);
        return false, texts;
      }
      KnownVerdict(o, selected);
      VerdictStep(done, o, CaughtMutant);
      VerdictStep(done, o, MissedMutant);
      VerdictStep(done, o, Timeout);
      VerdictStep(done, o, Unviable);
      NameSetStep(done, o);
      actual := actual + {o.scenario.record.name};
      var name := [o.scenario.record.name];
      match o.summary {
        case CaughtMutant => texts := texts.(caught := texts.caught + name);
        case MissedMutant => texts := texts.(missed := texts.missed + name);
        case Timeout => texts := texts.(timeout := texts.timeout + name);
        case Unviable => texts := texts.(unviable := texts.unviable + name);
      }
      done := done + [o];
    }
    assert outcomes[..|outcomes|] == outcomes;
    ok := actual == selected.Keys;
  }

  lemma MutantsStart(outcomes: seq<Outcome>)
    ensures Mutants(outcomes[..0]) == [] && Verdicts([]) == Tally([], [], [], [])
  {
  }

  function Verdicts(mutants: seq<Outcome>): Tally<seq<string>>
    requires AllMutants(mutants)
  {
    Tally(WithVerdict(mutants, CaughtMutant), WithVerdict(mutants, MissedMutant),
          WithVerdict(mutants, Timeout), WithVerdict(mutants, Unviable))
  }

  lemma OneEach(mutants: seq<Outcome>, selected: map<string, Record>)
    requires OutcomesAccepted(mutants, selected)
    ensures |selected.Keys| == |mutants|
  {
    hide OutcomeAccepted;
    assert AllMutants(mutants) by { AcceptedAreMutants(mutants, selected); }
    DistinctSize(Names(mutants));
    assert (set x | x in Names(mutants)) == NameSet(mutants);
  }

  lemma AcceptedAreMutants(mutants: seq<Outcome>, selected: map<string, Record>)
    requires forall k :: 0 <= k < |mutants| ==> OutcomeAccepted(mutants[k], selected)
    ensures AllMutants(mutants)
  {
  }

  // ----- the counters -----

  /** The outcomes of mutants with one verdict, among the first `n`. */
  ghost function Positions(outcomes: seq<Outcome>, n: nat, s: Summary): set<int>
    requires n <= |outcomes|
  {
    set k | 0 <= k < n && outcomes[k].scenario.Mutant? && outcomes[k].summary == s
  }

  lemma PositionsStep(outcomes: seq<Outcome>, k: nat, s: Summary)
    requires k < |outcomes|
    ensures |Positions(outcomes, k + 1, s)| ==
      |Positions(outcomes, k, s)| + if outcomes[k].scenario.Mutant? && outcomes[k].summary == s then 1 else 0
  {
    var more := if outcomes[k].scenario.Mutant? && outcomes[k].summary == s then {k as int} else {};
    assert Positions(outcomes, k + 1, s) == Positions(outcomes, k, s) + more;
  }

  lemma {:induction false} VerdictCount(outcomes: seq<Outcome>, k: nat, s: Summary)
    requires k <= |outcomes| && AllMutants(Mutants(outcomes))
    ensures AllMutants(Mutants(outcomes[..k]))
    ensures |WithVerdict(Mutants(outcomes[..k]), s)| == |Positions(outcomes, k, s)|
    decreases k
  {
    hide WithVerdict, Mutants, Positions;
    MutantsPrefix(outcomes, k);
    if k == 0 {
      NoVerdicts(outcomes, s);
    } else {
      var o := outcomes[k - 1];
      VerdictCount(outcomes, k - 1, s);
      MutantsStep(outcomes, k - 1);
      PositionsStep(outcomes, k - 1, s);
      var done := Mutants(outcomes[..k - 1]);
      assert done + [] == done;
      if o.scenario != Baseline {
        assert Mutants(outcomes[..k])[|done|] == o;
        VerdictStep(done, o, s);
      }
    }
  }

  lemma WholeCount(outcomes: seq<Outcome>, s: Summary)
    requires AllMutants(Mutants(outcomes))
    ensures |WithVerdict(Mutants(outcomes), s)| == |Positions(outcomes, |outcomes|, s)|
  {
    hide WithVerdict, Mutants, Positions;
    VerdictCount(outcomes, |outcomes|, s);
    assert outcomes[..|outcomes|] == outcomes;
  }

  lemma NoVerdicts(outcomes: seq<Outcome>, s: Summary)
    ensures Mutants(outcomes[..0]) == [] && WithVerdict([], s) == [] && Positions(outcomes, 0, s) == {}
  {
  }

  /** An accepted shard's counters count its outcomes, and its total counts the mutants of its slice. */
  lemma CountersExact(sh: Shard, shards: nat, manifest: seq<Listed>)
    requires shards > 0 && ShardAccepted(sh, shards, manifest)
    ensures var n := |sh.outcomes|;
      sh.counts == Tally(|Positions(sh.outcomes, n, CaughtMutant)|, |Positions(sh.outcomes, n, MissedMutant)|,
                         |Positions(sh.outcomes, n, Timeout)|, |Positions(sh.outcomes, n, Unviable)|)
    ensures sh.total == |Slice(manifest, sh.index, shards)|
    ensures sh.counts.caught + sh.counts.missed + sh.counts.timeout + sh.counts.unviable == sh.total
  {
    hide RecordMap, ValidManifest, BaselineAccepted, Mutants, WithVerdict, Positions, Slice, SameLines;
    hide VerifyPhases, OutcomesAccepted, CountersAgree;
    var mutants, slice := Mutants(sh.outcomes), Slice(manifest, sh.index, shards);
    AcceptedParts(mutants, RecordMap(slice));
    WholeCount(sh.outcomes, CaughtMutant);
    WholeCount(sh.outcomes, MissedMutant);
    WholeCount(sh.outcomes, Timeout);
    WholeCount(sh.outcomes, Unviable);
    VerdictsAddUp(mutants);
    OneEach(mutants, RecordMap(slice));
    RecordCount(slice);
    TotalIs(sh, mutants);
  }

  lemma AcceptedParts(mutants: seq<Outcome>, selected: map<string, Record>)
    requires OutcomesAccepted(mutants, selected)
    ensures AllMutants(mutants)
    ensures forall k :: 0 <= k < |mutants| ==> VerifyPhases(mutants[k].phases, mutants[k].summary, false)
  {
    hide VerifyPhases;
  }

  lemma TotalIs(sh: Shard, mutants: seq<Outcome>)
    requires AllMutants(mutants) && CountersAgree(sh, mutants)
    ensures sh.total == |mutants| && sh.counts == Tally(
      |WithVerdict(mutants, CaughtMutant)|, |WithVerdict(mutants, MissedMutant)|,
      |WithVerdict(mutants, Timeout)|, |WithVerdict(mutants, Unviable)|)
  {
    hide WithVerdict, SameLines;
  }

  lemma NamesDiffer(manifest: seq<Listed>)
    requires ValidManifest(manifest)
    ensures forall j, k :: 0 <= j < k < |manifest| ==> manifest[j].record.name != manifest[k].record.name
  {
  }

  lemma {:induction false} RecordCountTo(manifest: seq<Listed>, k: nat)
    requires k <= |manifest|
    requires forall i, j :: 0 <= i < j < |manifest| ==> manifest[i].record.name != manifest[j].record.name
    ensures |RecordMap(manifest[..k]).Keys| == k
    decreases k
  {
    if k == 0 {
      RecordMapStart(manifest);
    } else {
      RecordCountTo(manifest, k - 1);
      RecordMapStep(manifest, k - 1);
      hide RecordMap;
      var m, name := RecordMap(manifest[..k - 1]), manifest[k - 1].record.name;
      assert name !in m.Keys;
      assert m[name := manifest[k - 1].record].Keys == m.Keys + {name};
    }
  }

  lemma RecordCount(manifest: seq<Listed>)
    requires ValidManifest(manifest)
    ensures |RecordMap(manifest).Keys| == |manifest|
  {
    NamesDiffer(manifest);
    hide RecordMap, ValidManifest;
    RecordCountTo(manifest, |manifest|);
    assert manifest[..|manifest|] == manifest;
  }

  /** All checks of one shard directory, given the mutants that earlier shards accounted for. */
  method CheckShard(sh: Shard, shards: nat, manifest: seq<Listed>,
      seen: set<string>) returns (ok: bool, names: set<string>)
    requires shards > 0
    ensures ok <==> ShardAccepted(sh, shards, manifest) && Selected(sh, shards).Keys !! seen
    ensures ok ==> names == Selected(sh, shards).Keys
  {
    hide VerifyPhases, RecordMap, OutcomesAccepted, Baselines, ValidManifest, SameLines, WithVerdict, Slice;
    names := {};
    if !sh.metadataMatches || !(0 <= sh.index < shards) || sh.manifest != manifest { return false, names; }
    var expected := Records(manifest);
    if expected.None? { return false, names; }
    var selected := Records(Slice(manifest, sh.index, shards));
    if selected.None? { return false, names; }
    var reported := Records(sh.reported);
    if reported != selected { return false, names; }
    OneBaseline(sh.outcomes);
    var baselines := Baselines(sh.outcomes);
    if !sh.versionMatches || !sh.timesMatch || |baselines| != 1 { return false, names; }
    if !VerifyPhases(baselines[0].phases, baselines[0].summary, true) { return false, names; }
    var texts;
    ok, texts := CheckOutcomes(sh.outcomes, selected.value, seen);
    if !ok { return; }
    names := selected.value.Keys;
    OneEach(Mutants(sh.outcomes), selected.value);
    ok := sh.counts == Tally(|texts.caught|, |texts.missed|, |texts.timeout|, |texts.unviable|)
      && SameLines(sh.texts.caught, texts.caught) && SameLines(sh.texts.missed, texts.missed)
      && SameLines(sh.texts.timeout, texts.timeout) && SameLines(sh.texts.unviable, texts.unviable)
      && sh.total == |names| && sh.success == 0;
  }

  function Selected(sh: Shard, shards: nat): map<string, Record>
    requires shards > 0
  {
    RecordMap(Slice(sh.manifest, Max(sh.index, 0), shards))
  }

  // ----- the whole run -----

  function Sum(shards: seq<Shard>): Tally<int> {
    if shards == [] then Tally(0, 0, 0, 0)
    else
      var t, c := Sum(shards[..|shards| - 1]), shards[|shards| - 1].counts;
      Tally(t.caught + c.caught, t.missed + c.missed, t.timeout + c.timeout, t.unviable + c.unviable)
  }

  predicate ScoreAccepted(t: Tally<int>) {
    var viable := t.caught + t.missed + t.timeout;
    viable > 0 && t.caught * 100 / viable >= 75
  }

  lemma FloorBound(a: nat, v: nat, c: nat)
    requires v > 0
    ensures a / v >= c <==> a >= c * v
  {
    var q := a / v;
    assert a == q * v + a % v;
    if q >= c { MulMonotone(c, q, v); } else { MulMonotone(q + 1, c, v); }
  }

  /** The floored percentage reaches 75 exactly when three of four viable mutants are caught. */
  lemma ScoreFloor(t: Tally<int>)
    requires t.caught >= 0 && t.missed >= 0 && t.timeout >= 0
    ensures var viable := t.caught + t.missed + t.timeout;
      ScoreAccepted(t) <==> viable > 0 && 4 * t.caught >= 3 * viable
  {
    var v := t.caught + t.missed + t.timeout;
    if v > 0 { FloorBound(t.caught * 100, v, 75); }
  }

  /** The run is complete: one accepted directory for each index, one manifest, enough caught. */
  ghost predicate RunAccepted(run: seq<Shard>, shards: nat) {
    && 0 < shards == |run|
    && (forall k :: 0 <= k < shards ==> ShardAccepted(run[k], shards, run[0].manifest))
    && (forall j, k :: 0 <= j < k < shards ==> run[j].index != run[k].index)
    && ScoreAccepted(Sum(run))
  }

  lemma SliceName(manifest: seq<Listed>, i: nat, shards: nat, name: string) returns (k: nat)
    requires shards > 0 && name in RecordMap(Slice(manifest, i, shards))
    ensures k < |manifest| && manifest[k].record.name == name
    ensures i * Width(|manifest|, shards) <= k < (i + 1) * Width(|manifest|, shards)
  {
    hide Width, RecordMap;
    var w := Width(|manifest|, shards);
    var s := Slice(manifest, i, shards);
    var j :| 0 <= j < |s| && s[j].record.name == name;
    MulMonotone(i, i + 1, w);
    InPart(manifest, i * w, (i + 1) * w, j);
    k := i * w + j;
  }

  lemma InPart<T>(manifest: seq<T>, from: nat, to: nat, j: nat)
    requires from <= to && j < Min(to, |manifest|) - Min(from, |manifest|)
    ensures from + j < to && from + j < |manifest|
    ensures manifest[Min(from, |manifest|)..Min(to, |manifest|)][j] == manifest[from + j]
  {
  }

  lemma SamePosition(manifest: seq<Listed>, j: nat, k: nat)
    requires ValidManifest(manifest) && j < |manifest| && k < |manifest|
    requires manifest[j].record.name == manifest[k].record.name
    ensures j == k
  {
  }

  /** Two different shards of one valid manifest share no mutant. */
  lemma SlicesDisjoint(manifest: seq<Listed>, a: nat, b: nat, shards: nat)
    requires shards > 0 && ValidManifest(manifest) && a < b
    ensures RecordMap(Slice(manifest, a, shards)).Keys !! RecordMap(Slice(manifest, b, shards)).Keys
  {
    hide Width, RecordMap, Slice, ValidManifest;
    forall name | name in RecordMap(Slice(manifest, a, shards)) && name in RecordMap(Slice(manifest, b, shards))
      ensures false
    {
      var j := SliceName(manifest, a, shards, name);
      var k := SliceName(manifest, b, shards, name);
      SamePosition(manifest, j, k);
      MulMonotone(a + 1, b, Width(|manifest|, shards));
    }
  }

  /** `check_reports`: every shard in turn, then the union and the score. */
  method CheckReports(run: seq<Shard>, shards: nat) returns (accepted: bool, totals: Tally<int>)
    requires shards > 0
    ensures accepted <==> RunAccepted(run, shards)
    ensures accepted ==> totals == Sum(run)
  {
    hide ShardAccepted, ScoreAccepted, Selected, ValidManifest, RecordMap;
    totals := Tally(0, 0, 0, 0);
    if |run| != shards { return false, totals; }
    var manifest := run[0].manifest;
    var seenShards: set<int>, seenMutants: set<string> := {}, {};
    assert Sum(run[..0]) == totals;
    for k := 0 to |run|
      invariant seenShards == set j | 0 <= j < k :: run[j].index
      invariant forall j :: 0 <= j < k ==> ShardAccepted(run[j], shards, manifest)
      invariant forall i, j :: 0 <= i < j < k ==> run[i].index != run[j].index
      invariant seenMutants == set j, name | 0 <= j < k && name in Selected(run[j], shards) :: name
      invariant totals == Sum(run[..k])
    {
      if run[k].index in seenShards { return false, totals; }
      var ok, names := CheckShard(run[k], shards, manifest, seenMutants);
      if !ok {
        if ShardAccepted(run[k], shards, manifest) { NoOverlap(run, k, shards, manifest, seenMutants); }
        return false, totals;
      }
      seenShards := seenShards + {run[k].index};
      seenMutants := seenMutants + names;
      assert run[..k + 1][..k] == run[..k];
      var c := run[k].counts;
      totals := Tally(totals.caught + c.caught, totals.missed + c.missed,
                      totals.timeout + c.timeout, totals.unviable + c.unviable);
    }
    assert run[..|run|] == run;
    var expected := Records(manifest);
    AllAccounted(run, shards, seenMutants);
    accepted := expected.Some? && seenMutants == expected.value.Keys && ScoreAccepted(totals);
  }

  /** With distinct indices the check for a mutant seen in an earlier shard cannot fire. */
  lemma NoOverlap(run: seq<Shard>, k: nat, shards: nat, manifest: seq<Listed>, seen: set<string>)
    requires shards > 0 && k < |run| && forall j :: 0 <= j <= k ==> ShardAccepted(run[j], shards, manifest)
    requires forall j :: 0 <= j < k ==> run[j].index != run[k].index
    requires seen == set j, name | 0 <= j < k && name in Selected(run[j], shards) :: name
    ensures Selected(run[k], shards).Keys !! seen
  {
    hide RecordMap, Slice, OutcomesAccepted, CountersAgree, BaselineAccepted;
    forall j | 0 <= j < k ensures Selected(run[j], shards).Keys !! Selected(run[k], shards).Keys {
      var a, b := run[j].index, run[k].index;
      if a < b { SlicesDisjoint(manifest, a, b, shards); } else { SlicesDisjoint(manifest, b, a, shards); }
    }
  }

  lemma DistinctCover(s: seq<int>, n: nat)
    requires |s| == n && (forall k :: 0 <= k < n ==> 0 <= s[k] < n) && Distinct(s)
    ensures forall i :: 0 <= i < n ==> i in s
  {
    var got := set x | x in s;
    DistinctSize(s);
    assert got <= Interval(0, n);
    SubsetSize(got, Interval(0, n));
    forall i | 0 <= i < n ensures i in s { assert i in Interval(0, n); }
  }

  lemma {:induction false} DistinctSize<T>(s: seq<T>)
    requires Distinct(s)
    ensures |set x | x in s| == |s|
  {
    if s == [] {
      assert (set x | x in s) == {};
    } else {
      var last := |s| - 1;
      DistinctSize(s[..last]);
      assert s == s[..last] + [s[last]];
      assert (set x | x in s) == (set x | x in s[..last]) + {s[last]};
      assert s[last] !in s[..last];
    }
  }

  /** Every mutant of the manifest is in the slice of the shard that owns its position. */
  lemma OwnerSelects(manifest: seq<Listed>, shards: nat, name: string) returns (owner: nat)
    requires shards > 0 && name in RecordMap(manifest)
    ensures owner < shards && name in RecordMap(Slice(manifest, owner, shards))
  {
    hide Width, RecordMap;
    var k :| 0 <= k < |manifest| && manifest[k].record.name == name;
    owner := OwningShard(manifest, shards, k);
    var w := Width(|manifest|, shards);
    var s := Slice(manifest, owner, shards);
    assert owner * w <= k < (owner + 1) * w;
    assert s[k - owner * w] == manifest[k];
  }

  /** All shards together select exactly the mutants of the manifest. */
  lemma AllAccounted(run: seq<Shard>, shards: nat, seen: set<string>)
    requires 0 < shards == |run| && forall k :: 0 <= k < shards ==> ShardAccepted(run[k], shards, run[0].manifest)
    requires forall j, k :: 0 <= j < k < shards ==> run[j].index != run[k].index
    requires seen == set j, name | 0 <= j < shards && name in Selected(run[j], shards) :: name
    ensures ValidManifest(run[0].manifest) && seen == RecordMap(run[0].manifest).Keys
  {
    hide RecordMap, OutcomesAccepted, CountersAgree, BaselineAccepted, Width, ValidManifest, Slice;
    var manifest := run[0].manifest;
    assert ShardAccepted(run[0], shards, manifest);
    var indices := seq(shards, k requires 0 <= k < shards => run[k].index);
    DistinctCover(indices, shards);
    forall name | name in seen ensures name in RecordMap(manifest).Keys {
      var j :| 0 <= j < shards && name in Selected(run[j], shards);
      assert ShardAccepted(run[j], shards, manifest);
      var k := SliceName(manifest, run[j].index, shards, name);
    }
    forall name | name in RecordMap(manifest).Keys ensures name in seen {
      var owner := OwnerSelects(manifest, shards, name);
      assert owner in indices;
      var j :| 0 <= j < shards && indices[j] == owner;
      assert ShardAccepted(run[j], shards, manifest);
      assert name in Selected(run[j], shards);
    }
  }

  // ----- what acceptance means -----

  function ShardNames(sh: Shard): seq<string> {
    var mutants := Mutants(sh.outcomes);
    if AllMutants(mutants) then Names(mutants) else []
  }

  /** The mutants of all outcomes of a run, in order. */
  function AllNames(run: seq<Shard>): seq<string> {
    if run == [] then [] else AllNames(run[..|run| - 1]) + ShardNames(run[|run| - 1])
  }

  function Accounted(t: Tally<int>): int {
    t.caught + t.missed + t.timeout + t.unviable
  }

  lemma AcceptedShardNames(sh: Shard, shards: nat, manifest: seq<Listed>)
    requires shards > 0 && ShardAccepted(sh, shards, manifest)
    ensures Distinct(ShardNames(sh)) && (set x | x in ShardNames(sh)) == Selected(sh, shards).Keys
    ensures Accounted(sh.counts) == |ShardNames(sh)|
    ensures sh.counts.caught >= 0 && sh.counts.missed >= 0 && sh.counts.timeout >= 0
  {
    hide RecordMap, VerifyPhases, ManifestsAgree, BaselineAccepted, WithVerdict, Mutants;
    var mutants := Mutants(sh.outcomes);
    VerdictsAddUp(mutants);
    assert ManifestsAgree(sh, shards, manifest);
    AgreedManifest(sh, shards, manifest);
    assert (set x | x in Names(mutants)) == NameSet(mutants);
  }

  lemma AgreedManifest(sh: Shard, shards: nat, manifest: seq<Listed>)
    requires shards > 0 && ManifestsAgree(sh, shards, manifest)
    ensures sh.manifest == manifest && 0 <= sh.index < shards
    ensures ValidManifest(manifest) && Slice(manifest, sh.index, shards) != []
  {
  }

  lemma DistinctAppend<T>(a: seq<T>, b: seq<T>)
    requires Distinct(a) && Distinct(b) && forall x :: x in a ==> x !in b
    ensures Distinct(a + b) && (set x | x in a + b) == (set x | x in a) + (set x | x in b)
  {
    forall j, k | 0 <= j < k < |a + b| ensures (a + b)[j] != (a + b)[k] {
      if j < |a| <= k {
        assert a[j] in a && b[k - |a|] in b;
      } else if |a| <= j {
        assert b[j - |a|] != b[k - |a|];
      }
    }
  }

  lemma {:induction false} NamesOfPrefix(run: seq<Shard>, k: nat, shards: nat)
    requires 0 < shards == |run| && k <= shards
    requires forall j :: 0 <= j < shards ==> ShardAccepted(run[j], shards, run[0].manifest)
    requires forall i, j :: 0 <= i < j < shards ==> run[i].index != run[j].index
    ensures Distinct(AllNames(run[..k]))
    ensures (set x | x in AllNames(run[..k])) == set j, name | 0 <= j < k && name in Selected(run[j], shards) :: name
    ensures Accounted(Sum(run[..k])) == |AllNames(run[..k])|
    ensures var t := Sum(run[..k]); t.caught >= 0 && t.missed >= 0 && t.timeout >= 0
    decreases k
  {
    hide ShardAccepted, ShardNames, Selected;
    if k > 0 {
      NamesOfPrefix(run, k - 1, shards);
      assert run[..k][..k - 1] == run[..k - 1];
      AcceptedShardNames(run[k - 1], shards, run[0].manifest);
      var seen := set j, name | 0 <= j < k - 1 && name in Selected(run[j], shards) :: name;
      NoOverlap(run, k - 1, shards, run[0].manifest, seen);
      var before, names := AllNames(run[..k - 1]), ShardNames(run[k - 1]);
      forall x | x in before ensures x !in names {
        assert (set y | y in before) == seen && x in seen;
        assert x !in Selected(run[k - 1], shards).Keys;
      }
      DistinctAppend(before, names);
    }
  }

  /**
   An accepted run accounts for every mutant of the manifest exactly once, its verdict counts
   add up to the manifest, every shard had work, and three of four viable mutants were caught.
   */
  lemma AcceptedRunIsComplete(run: seq<Shard>, shards: nat)
    requires RunAccepted(run, shards)
    ensures Distinct(AllNames(run))
    ensures (set x | x in AllNames(run)) == RecordMap(run[0].manifest).Keys
    ensures |AllNames(run)| == |run[0].manifest| == Accounted(Sum(run))
    ensures (shards - 1) * Width(|run[0].manifest|, shards) < |run[0].manifest|
    ensures var t := Sum(run); var viable := t.caught + t.missed + t.timeout; viable > 0 && 4 * t.caught >= 3 * viable
  {
    hide ShardAccepted, ShardNames, Selected, RecordMap, Width, ScoreAccepted;
    var manifest := run[0].manifest;
    assert run[..shards] == run;
    NamesOfPrefix(run, shards, shards);
    var seen := set x | x in AllNames(run);
    AllAccounted(run, shards, seen);
    DistinctSize(AllNames(run));
    ManifestSize(manifest);
    ScoreFloor(Sum(run));
    EveryShardHasWork(run, shards);
    AllShardsNonempty(manifest, shards);
  }

  lemma {:induction false} ManifestSize(manifest: seq<Listed>)
    requires ValidManifest(manifest)
    ensures |RecordMap(manifest).Keys| == |manifest|
  {
    hide RecordMap;
    var names := seq(|manifest|, k requires 0 <= k < |manifest| => manifest[k].record.name);
    assert Distinct(names);
    DistinctSize(names);
    forall name ensures name in names <==> name in RecordMap(manifest).Keys {
      if name in RecordMap(manifest).Keys {
        var k :| 0 <= k < |manifest| && manifest[k].record.name == name;
        assert names[k] == name;
      }
    }
    assert (set x | x in names) == RecordMap(manifest).Keys;
  }

  lemma EveryShardHasWork(run: seq<Shard>, shards: nat)
    requires RunAccepted(run, shards)
    ensures forall i: nat :: i < shards ==> Slice(run[0].manifest, i, shards) != []
  {
    hide Slice, OutcomesAccepted, CountersAgree, BaselineAccepted, ScoreAccepted, ValidManifest, RecordMap;
    var indices := seq(shards, k requires 0 <= k < shards => run[k].index);
    assert forall k :: 0 <= k < shards ==> ShardAccepted(run[k], shards, run[0].manifest);
    DistinctCover(indices, shards);
    forall i: nat | i < shards ensures Slice(run[0].manifest, i, shards) != [] {
      assert i in indices;
      var k :| 0 <= k < shards && indices[k] == i;
      AgreedManifest(run[k], shards, run[0].manifest);
    }
  }

  // ----- which manifests can be admitted -----

  const BUILT := PhaseResult(Build, Succeeded, true)

  function BaselineOutcome(): Outcome {
    Outcome(Baseline, Success, [BUILT, PhaseResult(Test, Succeeded, true)])
  }

  function CaughtOutcome(r: Record): Outcome {
    Outcome(Mutant(r), CaughtMutant, [BUILT, PhaseResult(Test, Failed(1), true)])
  }

  function AllCaught(slice: seq<Listed>): (os: seq<Outcome>)
    ensures |os| == |slice| && forall k :: 0 <= k < |slice| ==> os[k] == CaughtOutcome(slice[k].record)
  {
    seq(|slice|, k requires 0 <= k < |slice| => CaughtOutcome(slice[k].record))
  }

  /** The names, each on a line of its own. */
  function LinesText(names: seq<string>): string {
    if names == [] then "" else names[0] + "\n" + LinesText(names[1..])
  }

  lemma {:induction false} LinesReadBack(names: seq<string>)
    requires forall k :: 0 <= k < |names| ==> Text.OneLine(names[k])
    ensures Text.SplitLines(LinesText(names)) == names
  {
    if names != [] {
      LinesReadBack(names[1..]);
      Text.SplitFirstLine(names[0], LinesText(names[1..]));
    }
  }

  /** A shard that catches every mutant of its slice. */
  function PerfectShard(manifest: seq<Listed>, shards: nat, i: nat): Shard
    requires shards > 0
  {
    var slice := Slice(manifest, i, shards);
    var names := Names(AllCaught(slice));
    Shard(i, true, manifest, slice, true, true, [BaselineOutcome()] + AllCaught(slice),
          Tally(|slice|, 0, 0, 0), Tally(LinesText(names), "", "", ""), |slice|, 0)
  }

  function PerfectRun(manifest: seq<Listed>, shards: nat, n: nat): (run: seq<Shard>)
    requires shards > 0
    ensures |run| == n && forall k :: 0 <= k < n ==> run[k] == PerfectShard(manifest, shards, k)
  {
    seq(n, k requires 0 <= k < n => PerfectShard(manifest, shards, k))
  }

  lemma {:induction false} MutantsAfterBaseline(os: seq<Outcome>)
    requires AllMutants(os)
    ensures Mutants([BaselineOutcome()] + os) == os && OnlyBaseline([BaselineOutcome()] + os, 0)
    decreases |os|
  {
    var all := [BaselineOutcome()] + os;
    var n := |os|;
    if n == 0 {
      assert all[..0] == [] && all == [BaselineOutcome()];
    } else {
      assert all[..n] == [BaselineOutcome()] + os[..n - 1] && all[n] == os[n - 1];
      MutantsAfterBaseline(os[..n - 1]);
      assert os == os[..n - 1] + [os[n - 1]];
    }
  }

  lemma {:induction false} CaughtVerdicts(os: seq<Outcome>)
    requires AllMutants(os) && forall k :: 0 <= k < |os| ==> os[k].summary == CaughtMutant
    ensures Verdicts(os) == Tally(Names(os), [], [], [])
    decreases |os|
  {
    if os != [] {
      var n := |os| - 1;
      CaughtVerdicts(os[..n]);
      assert Names(os) == Names(os[..n]) + [os[n].scenario.record.name];
    }
  }

  lemma SliceValid(manifest: seq<Listed>, shards: nat, i: nat)
    requires shards > 0 && ValidManifest(manifest) && Slice(manifest, i, shards) != []
    ensures ValidManifest(Slice(manifest, i, shards))
  {
    hide Width;
    var w := Width(|manifest|, shards);
    var slice, from := Slice(manifest, i, shards), Min(i * w, |manifest|);
    assert forall k :: 0 <= k < |slice| ==> slice[k] == manifest[from + k];
  }

  lemma {:induction false} RecordAt(manifest: seq<Listed>, k: nat)
    requires ValidManifest(manifest) && k < |manifest|
    ensures manifest[k].record.name in RecordMap(manifest)
    ensures RecordMap(manifest)[manifest[k].record.name] == manifest[k].record
    decreases |manifest|
  {
    var n := |manifest| - 1;
    if k < n { RecordAt(manifest[..n], k); }
  }

  lemma {:induction false} MutantFrom(outcomes: seq<Outcome>, j: nat) returns (k: nat)
    requires j < |Mutants(outcomes)|
    ensures k < |outcomes| && outcomes[k] == Mutants(outcomes)[j]
    decreases |outcomes|
  {
    var n := |outcomes| - 1;
    if j < |Mutants(outcomes[..n])| { k := MutantFrom(outcomes[..n], j); } else { k := n; }
  }

  /** In an accepted shard every mutant of its slice has an outcome, for that very record and with fitting phases. */
  lemma OutcomeForEach(sh: Shard, shards: nat, manifest: seq<Listed>, i: nat) returns (k: nat)
    requires shards > 0 && ShardAccepted(sh, shards, manifest) && i < |Slice(manifest, sh.index, shards)|
    ensures k < |sh.outcomes| && sh.outcomes[k].scenario == Mutant(Slice(manifest, sh.index, shards)[i].record)
    ensures VerifyPhases(sh.outcomes[k].phases, sh.outcomes[k].summary, false)
  {
    hide RecordMap, ValidManifest, BaselineAccepted, Mutants, CountersAgree, Slice, VerifyPhases;
    var mutants, slice := Mutants(sh.outcomes), Slice(manifest, sh.index, shards);
    RecordAt(slice, i);
    var name := slice[i].record.name;
    assert name in RecordMap(slice).Keys;
    var j :| 0 <= j < |mutants| && mutants[j].scenario.record.name == name;
    assert OutcomeAccepted(mutants[j], RecordMap(slice));
    k := MutantFrom(sh.outcomes, j);
  }

  predicate NamesOneLine(manifest: seq<Listed>) {
    forall k :: 0 <= k < |manifest| ==> Text.OneLine(manifest[k].record.name)
  }

  lemma SliceOneLine(manifest: seq<Listed>, shards: nat, i: nat)
    requires shards > 0 && NamesOneLine(manifest)
    ensures var names := Names(AllCaught(Slice(manifest, i, shards)));
      forall k :: 0 <= k < |names| ==> Text.OneLine(names[k])
  {
    hide Width, Text.OneLine;
    var w := Width(|manifest|, shards);
    var slice, from := Slice(manifest, i, shards), Min(i * w, |manifest|);
    assert forall k :: 0 <= k < |slice| ==> slice[k] == manifest[from + k];
  }

  lemma {:induction false} VerdictListed(mutants: seq<Outcome>, k: nat)
    requires AllMutants(mutants) && k < |mutants|
    ensures mutants[k].scenario.record.name in WithVerdict(mutants, mutants[k].summary)
    decreases |mutants|
  {
    var n := |mutants| - 1;
    if k < n { VerdictListed(mutants[..n], k); }
  }

  lemma LinesAreLines(text: string, names: seq<string>, name: string)
    requires SameLines(text, names) && name in names
    ensures Text.OneLine(name)
  {
    assert name in multiset(names);
    assert name in Text.SplitLines(text);
  }

  /** A mutant whose verdict is reported has a name that fits on a line. */
  lemma ReportedOnOneLine(sh: Shard, mutants: seq<Outcome>, k: nat)
    requires AllMutants(mutants) && CountersAgree(sh, mutants) && k < |mutants|
    requires VerifyPhases(mutants[k].phases, mutants[k].summary, false)
    ensures Text.OneLine(mutants[k].scenario.record.name)
  {
    hide WithVerdict, SameLines, Text.OneLine;
    var name := mutants[k].scenario.record.name;
    VerdictListed(mutants, k);
    match mutants[k].summary
    case CaughtMutant => LinesAreLines(sh.texts.caught, WithVerdict(mutants, CaughtMutant), name);
    case MissedMutant => LinesAreLines(sh.texts.missed, WithVerdict(mutants, MissedMutant), name);
    case Timeout => LinesAreLines(sh.texts.timeout, WithVerdict(mutants, Timeout), name);
    case Unviable => LinesAreLines(sh.texts.unviable, WithVerdict(mutants, Unviable), name);
  }

  lemma AcceptedOnOneLine(sh: Shard, shards: nat, manifest: seq<Listed>, name: string)
    requires shards > 0 && ShardAccepted(sh, shards, manifest) && name in ShardNames(sh)
    ensures Text.OneLine(name)
  {
    hide RecordMap, Slice, OutcomesAccepted, ManifestsAgree, BaselineAccepted, CountersAgree, Mutants, Text.OneLine;
    var mutants := Mutants(sh.outcomes);
    var k :| 0 <= k < |mutants| && Names(mutants)[k] == name;
    hide Names;
    AgreedManifest(sh, shards, manifest);
    AcceptedPhases(mutants, RecordMap(Slice(manifest, sh.index, shards)), k);
    ReportedOnOneLine(sh, mutants, k);
  }

  lemma AcceptedPhases(mutants: seq<Outcome>, selected: map<string, Record>, k: nat)
    requires OutcomesAccepted(mutants, selected) && k < |mutants|
    ensures VerifyPhases(mutants[k].phases, mutants[k].summary, false)
  {
    hide VerifyPhases, Names, NameSet;
    assert OutcomeAccepted(mutants[k], selected);
  }

  lemma {:induction false} RunOnOneLine(run: seq<Shard>, shards: nat, manifest: seq<Listed>, name: string)
    requires shards > 0 && forall k :: 0 <= k < |run| ==> ShardAccepted(run[k], shards, manifest)
    requires name in AllNames(run)
    ensures Text.OneLine(name)
    decreases |run|
  {
    hide ShardAccepted, ShardNames, Text.OneLine;
    var n := |run| - 1;
    if name in ShardNames(run[n]) {
      AcceptedOnOneLine(run[n], shards, manifest, name);
    } else {
      RunOnOneLine(run[..n], shards, manifest, name);
    }
  }

  lemma AcceptedNamesFit(run: seq<Shard>, shards: nat)
    requires RunAccepted(run, shards)
    ensures NamesOneLine(run[0].manifest)
  {
    hide ShardAccepted, RecordMap, Text.OneLine, ScoreAccepted, Width;
    var manifest := run[0].manifest;
    AcceptedRunIsComplete(run, shards);
    forall k | 0 <= k < |manifest| ensures Text.OneLine(manifest[k].record.name) {
      var name := manifest[k].record.name;
      assert name in RecordMap(manifest).Keys && name in set x | x in AllNames(run);
      RunOnOneLine(run, shards, manifest, name);
    }
  }

  lemma CaughtOne(r: Record, selected: map<string, Record>)
    requires r.name in selected && selected[r.name] == r
    ensures OutcomeAccepted(CaughtOutcome(r), selected)
  {
  }

  lemma CaughtNames(slice: seq<Listed>)
    ensures AllMutants(AllCaught(slice)) && NameSet(AllCaught(slice)) == RecordMap(slice).Keys
  {
    hide RecordMap;
    var os := AllCaught(slice);
    assert forall k :: 0 <= k < |os| ==> os[k].scenario.record.name == slice[k].record.name;
  }

  lemma CaughtAccepted(slice: seq<Listed>)
    requires ValidManifest(slice)
    ensures OutcomesAccepted(AllCaught(slice), RecordMap(slice))
  {
    NamesDiffer(slice);
    hide RecordMap, ValidManifest, OutcomeAccepted, NameSet;
    var os, selected := AllCaught(slice), RecordMap(slice);
    CaughtNames(slice);
    forall k | 0 <= k < |os| ensures OutcomeAccepted(os[k], selected) {
      RecordAt(slice, k);
      CaughtOne(slice[k].record, selected);
    }
    forall j, k | 0 <= j < k < |os| ensures Names(os)[j] != Names(os)[k] {
      assert slice[j].record.name != slice[k].record.name;
    }
  }

  lemma PerfectShardAccepted(manifest: seq<Listed>, shards: nat, i: nat)
    requires i < shards && ValidManifest(manifest) && Slice(manifest, i, shards) != [] && NamesOneLine(manifest)
    ensures ShardAccepted(PerfectShard(manifest, shards, i), shards, manifest)
  {
    hide RecordMap, ValidManifest, Slice, OutcomesAccepted, Mutants, OnlyBaseline, WithVerdict, LinesText, NamesOneLine;
    var slice := Slice(manifest, i, shards);
    SliceValid(manifest, shards, i);
    SliceOneLine(manifest, shards, i);
    LinesReadBack(Names(AllCaught(slice)));
    LinesReadBack([]);
    CaughtAccepted(slice);
    MutantsAfterBaseline(AllCaught(slice));
    CaughtVerdicts(AllCaught(slice));
  }

  lemma {:induction false} PerfectSum(manifest: seq<Listed>, shards: nat, n: nat)
    requires shards > 0
    ensures Sum(PerfectRun(manifest, shards, n)) == Tally(|Slices(manifest, n, shards)|, 0, 0, 0)
    decreases n
  {
    hide Slice;
    if n > 0 {
      PerfectSum(manifest, shards, n - 1);
      assert PerfectRun(manifest, shards, n)[..n - 1] == PerfectRun(manifest, shards, n - 1);
    }
  }

  /**
   A valid manifest can be admitted exactly when the shards before the last do not exhaust it
   and every name fits on a line of a text report.
   */
  lemma AdmissibleManifest(manifest: seq<Listed>, shards: nat)
    requires shards > 0 && ValidManifest(manifest)
    ensures (exists run: seq<Shard> :: RunAccepted(run, shards) && run[0].manifest == manifest)
       <==> (shards - 1) * Width(|manifest|, shards) < |manifest| && NamesOneLine(manifest)
  {
    hide ShardAccepted, Slice, Width, Slices, PerfectShard, ValidManifest, NamesOneLine;
    if run: seq<Shard> :| RunAccepted(run, shards) && run[0].manifest == manifest {
      AcceptedRunIsComplete(run, shards);
      AcceptedNamesFit(run, shards);
    }
    if (shards - 1) * Width(|manifest|, shards) < |manifest| && NamesOneLine(manifest) {
      PerfectRunAccepted(manifest, shards);
    }
  }

  lemma PerfectRunAccepted(manifest: seq<Listed>, shards: nat)
    requires shards > 0 && ValidManifest(manifest) && NamesOneLine(manifest)
    requires (shards - 1) * Width(|manifest|, shards) < |manifest|
    ensures var run := PerfectRun(manifest, shards, shards); RunAccepted(run, shards) && run[0].manifest == manifest
  {
    hide ShardAccepted, Slice, Width, Slices, NamesOneLine;
    var run := PerfectRun(manifest, shards, shards);
    AllShardsNonempty(manifest, shards);
    forall k | 0 <= k < shards ensures ShardAccepted(run[k], shards, manifest) {
      PerfectShardAccepted(manifest, shards, k);
    }
    PerfectSum(manifest, shards, shards);
    SlicesPartition(manifest, shards);
    ScoreFloor(Sum(run));
  }

  /** With the default 16 shards, a manifest of 17 mutants can never be admitted. */
  lemma SeventeenMutantsInSixteenShards(run: seq<Shard>)
    requires run != [] && |run[0].manifest| == 17
    ensures !RunAccepted(run, 16)
  {
    hide ShardAccepted, RecordMap, ScoreAccepted;
    if RunAccepted(run, 16) { AcceptedRunIsComplete(run, 16); }
  }
}
