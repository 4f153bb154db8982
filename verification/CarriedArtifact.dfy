/**
 Choosing a build artifact carried over from an earlier attempt of the same workflow run, and
 the retry loop of the metadata requests it makes. Timestamps compare as a total order and are
 modelled as integers.
 */
module CarriedArtifact {
  import opened Prelude
  import opened Text

  datatype Job = Job(name: string, id: int, runId: int, runAttempt: int, headSha: string, status: string,
      conclusion: string,
                     started: Option<int>, completed: Option<int>)

  datatype Listing = Listing(totalCount: int, jobs: seq<Job>)

  /** An attempt as the service reports it; `producer` stands for the checks shared by every producer run. */
  datatype Run = Run(id: int, attempt: int, producer: bool, status: string, started: Option<int>)

  datatype Artifact = Artifact(name: Option<string>, id: int, size: int, expired: bool, created: Option<int>)

  /** What the service answers for each attempt; a missing entry is a failed request. */
  datatype Service = Service(runs: map<int, Run>, listings: map<int, Listing>)

  datatype Request = Request(runId: int, attempt: nat, started: int, headSha: string, owner: string, prefix: string,
      maxSize: int)

  predicate CompleteListing(l: Listing) {
    l.totalCount <= 100 && |l.jobs| == l.totalCount
  }

  function OwnersIn(l: Listing, owner: string): seq<Job> {
    Filter(l.jobs, (j: Job) => j.name == owner)
  }

  predicate AllStarted(jobs: seq<Job>) {
    forall k :: 0 <= k < |jobs| ==> jobs[k].started.Some?
  }

  /** A carried job keeps its original start time, so one at or after the attempt's start ran in it. */
  predicate Reran(jobs: seq<Job>, start: int) {
    exists k :: 0 <= k < |jobs| && jobs[k].started.Some? && jobs[k].started.value >= start
  }

  // ----- candidates -----

  type Candidate = (nat, Artifact)

  /** The attempt an artifact's name claims, if it is an earlier one. */
  function AttemptOf(q: Request, a: Artifact): (r: Option<nat>)
    ensures r.Some? ==> 0 < r.value < q.attempt
  {
    if a.name.None? || !StartsWith(a.name.value, q.prefix) then None
    else
      var n := Unsigned(a.name.value[|q.prefix|..]);
      if n.Some? && 0 < n.value < q.attempt then n else None
  }

  /** An artifact is a candidate exactly when its name is the prefix and the numeral of an earlier attempt. */
  lemma AttemptNamed(q: Request, a: Artifact, n: nat)
    ensures AttemptOf(q, a) == Some(n) <==>
      0 < n < q.attempt && exists k: nat :: a.name == Some(q.prefix + Zeros(k) + Numeral(n))
  {
    hide Unsigned, Zeros, Numeral;
    if a.name.Some? && StartsWith(a.name.value, q.prefix) {
      var suffix := a.name.value[|q.prefix|..];
      assert a.name.value == q.prefix + suffix;
      UnsignedExact(suffix, n);
      if AttemptOf(q, a) == Some(n) {
        var k: nat :| suffix == Zeros(k) + Numeral(n);
        assert a.name.value == q.prefix + Zeros(k) + Numeral(n);
      }
    }
    if k: nat :| a.name == Some(q.prefix + Zeros(k) + Numeral(n)) {
      var suffix := Zeros(k) + Numeral(n);
      assert a.name.value == q.prefix + suffix;
      assert a.name.value[..|q.prefix|] == q.prefix && a.name.value[|q.prefix|..] == suffix;
      UnsignedExact(suffix, n);
    }
  }

  function Candidates(q: Request, artifacts: seq<Artifact>): seq<Candidate> {
    if artifacts == [] then []
    else
      var last := artifacts[|artifacts| - 1];
      var n := AttemptOf(q, last);
      Candidates(q, artifacts[..|artifacts| - 1]) + if n.Some? then [(n.value, last)] else []
  }

  predicate DistinctAttempts(cs: seq<Candidate>) {
    forall j, k :: 0 <= j < k < |cs| ==> cs[j].0 != cs[k].0
  }

  ghost predicate Greatest(cs: seq<Candidate>, c: Candidate) {
    c in cs && forall k :: 0 <= k < |cs| ==> cs[k].0 <= c.0
  }

  lemma {:induction false} CandidateIsEarlier(q: Request, artifacts: seq<Artifact>, c: Candidate)
    requires c in Candidates(q, artifacts)
    ensures c.1 in artifacts && AttemptOf(q, c.1) == Some(c.0)
  {
    var n := |artifacts| - 1;
    assert artifacts == artifacts[..n] + [artifacts[n]];
    if c in Candidates(q, artifacts[..n]) { CandidateIsEarlier(q, artifacts[..n], c); }
  }

  lemma {:induction false} EveryCandidate(q: Request, artifacts: seq<Artifact>, a: Artifact)
    requires a in artifacts && AttemptOf(q, a).Some?
    ensures (AttemptOf(q, a).value, a) in Candidates(q, artifacts)
  {
    var n := |artifacts| - 1;
    assert artifacts == artifacts[..n] + [artifacts[n]];
    if a in artifacts[..n] { EveryCandidate(q, artifacts[..n], a); }
  }

  // ----- the checks -----

  ghost predicate CurrentOk(s: Service, q: Request) {
    && q.attempt in s.listings && CompleteListing(s.listings[q.attempt])
    && AllStarted(OwnersIn(s.listings[q.attempt], q.owner))
  }

  predicate RunOk(s: Service, q: Request, attempt: int) {
    && attempt in s.runs && s.runs[attempt].producer && s.runs[attempt].id == q.runId
    && s.runs[attempt].attempt == attempt
    && s.runs[attempt].status == "completed" && s.runs[attempt].started.Some?
  }

  /** An attempt between the artifact's and the current one that did not run the owner again. */
  predicate BetweenOk(s: Service, q: Request, attempt: int) {
    && RunOk(s, q, attempt) && attempt in s.listings && CompleteListing(s.listings[attempt])
    && AllStarted(OwnersIn(s.listings[attempt], q.owner))
    && !Reran(OwnersIn(s.listings[attempt], q.owner), s.runs[attempt].started.value)
  }

  predicate OwnerOk(s: Service, q: Request, attempt: int, a: Artifact)
    requires RunOk(s, q, attempt) && attempt in s.listings
  {
    var owners := OwnersIn(s.listings[attempt], q.owner);
    && |owners| == 1
    && var j := owners[0];
       && j.id > 0 && j.runId == q.runId && j.runAttempt == attempt && j.headSha == q.headSha
       && j.status == "completed" && j.conclusion == "success"
       && j.started.Some? && j.completed.Some? && a.created.Some?
       && s.runs[attempt].started.value <= j.started.value <= a.created.value <= j.completed.value < q.started
  }

  predicate PriorOk(s: Service, q: Request, attempt: int, a: Artifact) {
    && RunOk(s, q, attempt) && attempt in s.listings && CompleteListing(s.listings[attempt])
    && OwnerOk(s, q, attempt, a)
    && a.id > 0 && 0 < a.size <= q.maxSize && !a.expired
  }

  datatype Answer = Nothing | Carried(artifact: Artifact, attempt: nat) | Refused

  ghost predicate Admissible(s: Service, q: Request, c: Candidate) {
    PriorOk(s, q, c.0, c.1) && forall k :: c.0 < k < q.attempt ==> BetweenOk(s, q, k)
  }

  /** The answer: nothing to carry, the newest candidate if everything about it holds, and otherwise a refusal. */
  ghost predicate Answers(s: Service, q: Request, artifacts: seq<Artifact>, r: Answer) {
    var cs := Candidates(q, artifacts);
    if !CurrentOk(s, q) then r == Refused
    else if Reran(OwnersIn(s.listings[q.attempt], q.owner), q.started) then r == Nothing
    else if !DistinctAttempts(cs) then r == Refused
    else if cs == [] then r == Nothing
    else exists c :: Greatest(cs, c) && r == if Admissible(s, q, c) then Carried(c.1, c.0) else Refused
  }

  // ----- the search -----

  method CollectCandidates(q: Request, artifacts: seq<Artifact>) returns (cs: seq<Candidate>)
    ensures cs == Candidates(q, artifacts)
  {
    hide AttemptOf;
    cs := [];
    var k := 0;
    assert artifacts[..0] == [];
    while k < |artifacts|
      invariant 0 <= k <= |artifacts| && cs == Candidates(q, artifacts[..k])
    {
      assert artifacts[..k + 1][..k] == artifacts[..k];
      var n := AttemptOf(q, artifacts[k]);
      if n.Some? { cs := cs + [(n.value, artifacts[k])]; }
      k := k + 1;
    }
    assert artifacts[..k] == artifacts;
  }

  /** The first element of the candidates in descending order. */
  method First(cs: seq<Candidate>) returns (c: Candidate)
    requires cs != []
    ensures Greatest(cs, c)
  {
    c := cs[0];
    var k := 1;
    while k < |cs|
      invariant 1 <= k <= |cs| && c in cs && forall j :: 0 <= j < k ==> cs[j].0 <= c.0
    {
      if cs[k].0 > c.0 { c := cs[k]; }
      k := k + 1;
    }
  }

  /** The attempts after the artifact's, from the newest back. */
  method CheckBetween(s: Service, q: Request, attempt: nat) returns (ok: bool)
    requires attempt < q.attempt
    ensures ok <==> forall k :: attempt < k < q.attempt ==> BetweenOk(s, q, k)
  {
    hide BetweenOk;
    var later := q.attempt - 1;
    while later > attempt
      invariant attempt <= later < q.attempt && forall k :: later < k < q.attempt ==> BetweenOk(s, q, k)
    {
      if !BetweenOk(s, q, later) { return false; }
      later := later - 1;
    }
    return true;
  }

  method PriorArtifact(s: Service, q: Request, artifacts: seq<Artifact>) returns (r: Answer)
    ensures Answers(s, q, artifacts, r)
  {
    hide PriorOk, BetweenOk, Reran, AllStarted, Candidates, DistinctAttempts;
    if q.attempt !in s.listings || !CompleteListing(s.listings[q.attempt]) { return Refused; }
    var owners := OwnersIn(s.listings[q.attempt], q.owner);
    if !AllStarted(owners) { return Refused; }
    if Reran(owners, q.started) { return Nothing; }
    var cs := CollectCandidates(q, artifacts);
    if !DistinctAttempts(cs) { return Refused; }
    if cs == [] { return Nothing; }
    var c := First(cs);
    CandidateIsEarlier(q, artifacts, c);
    var between := CheckBetween(s, q, c.0);
    r := if between && PriorOk(s, q, c.0, c.1) then Carried(c.1, c.0) else Refused;
    assert Greatest(cs, c) && r == if Admissible(s, q, c) then Carried(c.1, c.0) else Refused;
  }

  // ----- what the answer means -----

  ghost predicate RanOwner(s: Service, q: Request, attempt: int, start: int) {
    attempt in s.listings && Reran(OwnersIn(s.listings[attempt], q.owner), start)
  }

  lemma GreatestUnique(cs: seq<Candidate>, c: Candidate, d: Candidate)
    requires DistinctAttempts(cs) && Greatest(cs, c) && Greatest(cs, d)
    ensures c == d
  {
    var j :| 0 <= j < |cs| && cs[j] == c;
    var k :| 0 <= k < |cs| && cs[k] == d;
  }

  /** The answer is determined by the service and the listing. */
  lemma AnswerUnique(s: Service, q: Request, artifacts: seq<Artifact>, r: Answer, t: Answer)
    requires Answers(s, q, artifacts, r) && Answers(s, q, artifacts, t)
    ensures r == t
  {
    hide Admissible, Reran, Candidates, Greatest, DistinctAttempts;
    var cs := Candidates(q, artifacts);
    if CurrentOk(s, q) && !Reran(OwnersIn(s.listings[q.attempt], q.owner), q.started) && DistinctAttempts(cs)
       && cs != [] {
      var c :| Greatest(cs, c) && r == if Admissible(s, q, c) then Carried(c.1, c.0) else Refused;
      var d :| Greatest(cs, d) && t == if Admissible(s, q, d) then Carried(d.1, d.0) else Refused;
      GreatestUnique(cs, c, d);
    }
  }

  /**
   A carried artifact is the newest earlier one, no attempt since its own, the current one
   included, ran the owner again, and it was made by that attempt's successful owner job
   before the current attempt began.
   */
  lemma CarriedIsNewest(s: Service, q: Request, artifacts: seq<Artifact>, a: Artifact, attempt: nat)
    requires Answers(s, q, artifacts, Carried(a, attempt))
    ensures a in artifacts && AttemptOf(q, a) == Some(attempt) && attempt < q.attempt
    ensures forall b :: b in artifacts && AttemptOf(q, b).Some? && b != a ==> AttemptOf(q, b).value < attempt
    ensures !RanOwner(s, q, q.attempt, q.started)
    ensures forall k :: attempt < k < q.attempt ==>
      k in s.runs && s.runs[k].started.Some? && !RanOwner(s, q, k, s.runs[k].started.value)
    ensures attempt in s.listings && exists j :: j in s.listings[attempt].jobs && MadeBy(j, a, q, attempt)
  {
    hide Candidates, AttemptOf, DistinctAttempts;
    var cs := Candidates(q, artifacts);
    var c :| Greatest(cs, c) && Carried(a, attempt) == if Admissible(s, q, c) then Carried(c.1, c.0) else Refused;
    CandidateIsEarlier(q, artifacts, c);
    forall b | b in artifacts && AttemptOf(q, b).Some? && b != a ensures AttemptOf(q, b).value < attempt {
      EveryCandidate(q, artifacts, b);
      OtherIsOlder(cs, c, (AttemptOf(q, b).value, b));
    }
    var owners := OwnersIn(s.listings[attempt], q.owner);
    assert owners[0] in owners;
    assert MadeBy(owners[0], a, q, attempt);
    forall k | attempt < k < q.attempt
      ensures k in s.runs && s.runs[k].started.Some? && !RanOwner(s, q, k, s.runs[k].started.value)
    {
      assert BetweenOk(s, q, k);
    }
  }

  /** The artifact was made by this job of the attempt, on the right commit, before the current attempt began. */
  ghost predicate MadeBy(j: Job, a: Artifact, q: Request, attempt: int) {
    && j.name == q.owner && j.conclusion == "success" && j.runId == q.runId && j.runAttempt == attempt
    && j.headSha == q.headSha
    && j.started.Some? && j.completed.Some? && a.created.Some?
    && j.started.value <= a.created.value <= j.completed.value < q.started
  }

  lemma OtherIsOlder(cs: seq<Candidate>, c: Candidate, d: Candidate)
    requires DistinctAttempts(cs) && Greatest(cs, c) && d in cs && d != c
    ensures d.0 < c.0
  {
    var j :| 0 <= j < |cs| && cs[j] == c;
    var k :| 0 <= k < |cs| && cs[k] == d;
  }

  /** Nothing falls back: with the same newest candidate, whatever older ones there are, the answer is the same. */
  lemma OlderCandidatesIrrelevant(s: Service, q: Request, xs: seq<Artifact>, ys: seq<Artifact>, c: Candidate, r: Answer)
    requires DistinctAttempts(Candidates(q, xs)) && DistinctAttempts(Candidates(q, ys))
    requires Greatest(Candidates(q, xs), c) && Greatest(Candidates(q, ys), c)
    ensures Answers(s, q, xs, r) <==> Answers(s, q, ys, r)
  {
    hide Admissible, CurrentOk, Reran, Candidates, Greatest, DistinctAttempts;
    assert c in Candidates(q, xs) by { InIt(Candidates(q, xs), c); }
    assert c in Candidates(q, ys) by { InIt(Candidates(q, ys), c); }
    forall d | Greatest(Candidates(q, xs), d) ensures d == c { GreatestUnique(Candidates(q, xs), c, d); }
    forall d | Greatest(Candidates(q, ys), d) ensures d == c { GreatestUnique(Candidates(q, ys), c, d); }
  }

  lemma InIt(cs: seq<Candidate>, c: Candidate)
    requires Greatest(cs, c)
    ensures c in cs
  {
  }

  // ----- exactly when something is carried -----

  /** The attempt is a completed producer run of this workflow run. */
  ghost predicate Completed(s: Service, q: Request, k: int) {
    && k in s.runs && s.runs[k].producer && s.runs[k].id == q.runId && s.runs[k].attempt == k
    && s.runs[k].status == "completed" && s.runs[k].started.Some?
  }

  /** All jobs of the attempt are known. */
  ghost predicate JobsKnown(s: Service, k: int) {
    k in s.listings && |s.listings[k].jobs| == s.listings[k].totalCount && s.listings[k].totalCount <= 100
  }

  /** Every owner job listed for the attempt began before this time, so none of them ran in it. */
  ghost predicate CarriedOver(s: Service, q: Request, k: int, start: int)
    requires k in s.listings
  {
    forall j :: j in s.listings[k].jobs && j.name == q.owner ==> j.started.Some? && j.started.value < start
  }

  ghost predicate OnlyOwner(jobs: seq<Job>, owner: string, i: int) {
    0 <= i < |jobs| && jobs[i].name == owner && forall n :: 0 <= n < |jobs| && n != i ==> jobs[n].name != owner
  }

  /** Exactly one job of the attempt is the owner, and it made the artifact. */
  ghost predicate Produced(s: Service, q: Request, k: int, a: Artifact)
    requires k in s.listings && k in s.runs && s.runs[k].started.Some?
  {
    var jobs := s.listings[k].jobs;
    exists i :: OnlyOwner(jobs, q.owner, i)
      && jobs[i].id > 0 && jobs[i].status == "completed" && MadeBy(jobs[i], a, q, k)
      && s.runs[k].started.value <= jobs[i].started.value
  }

  ghost predicate Downloadable(a: Artifact, q: Request) {
    a.id > 0 && !a.expired && a.size > 0 && a.size <= q.maxSize
  }

  /** No two artifacts claim one attempt. */
  ghost predicate ClaimsDistinct(q: Request, artifacts: seq<Artifact>) {
    forall j, k :: 0 <= j < k < |artifacts| && AttemptOf(q, artifacts[j]).Some? ==>
      AttemptOf(q, artifacts[j]) != AttemptOf(q, artifacts[k])
  }

  ghost predicate Newest(q: Request, artifacts: seq<Artifact>, a: Artifact, attempt: nat) {
    && a in artifacts && AttemptOf(q, a) == Some(attempt)
    && forall b :: b in artifacts && AttemptOf(q, b).Some? ==> AttemptOf(q, b).value <= attempt
  }

  lemma OwnersStarted(s: Service, q: Request, k: int, start: int)
    requires k in s.listings
    ensures CarriedOver(s, q, k, start) <==>
      var owners := OwnersIn(s.listings[k], q.owner); AllStarted(owners) && !Reran(owners, start)
  {
    var owners := OwnersIn(s.listings[k], q.owner);
    forall j ensures j in owners <==> j in s.listings[k].jobs && j.name == q.owner { }
    hide OwnersIn;
    if CarriedOver(s, q, k, start) {
      forall i | 0 <= i < |owners| ensures owners[i].started.Some? && owners[i].started.value < start {
        assert owners[i] in owners;
      }
    }
    if AllStarted(owners) && !Reran(owners, start) {
      forall j | j in owners ensures j.started.Some? && j.started.value < start {
        var i :| 0 <= i < |owners| && owners[i] == j;
      }
    }
  }

  lemma OneOwner(l: Listing, owner: string)
    ensures |OwnersIn(l, owner)| == 1 <==> exists i :: OnlyOwner(l.jobs, owner, i)
    ensures forall i :: OnlyOwner(l.jobs, owner, i) ==> OwnersIn(l, owner) == [l.jobs[i]]
  {
    var p := (j: Job) => j.name == owner;
    FilterSingle(l.jobs, p);
    forall i ensures OnlyOwner(l.jobs, owner, i) <==> Sole(l.jobs, p, i) { }
    assert OwnersIn(l, owner) == Filter(l.jobs, p);
  }

  lemma ProducedIs(s: Service, q: Request, k: int, a: Artifact)
    requires RunOk(s, q, k) && k in s.listings
    ensures Produced(s, q, k, a) <==> OwnerOk(s, q, k, a)
  {
    hide OwnersIn;
    OneOwner(s.listings[k], q.owner);
    if OwnerOk(s, q, k, a) {
      var i :| OnlyOwner(s.listings[k].jobs, q.owner, i);
    }
  }

  lemma {:induction false} ClaimsAre(q: Request, artifacts: seq<Artifact>)
    ensures DistinctAttempts(Candidates(q, artifacts)) <==> ClaimsDistinct(q, artifacts)
    decreases |artifacts|
  {
    hide AttemptOf;
    if artifacts != [] {
      var n := |artifacts| - 1;
      var init, last := artifacts[..n], artifacts[n];
      ClaimsAre(q, init);
      var cs := Candidates(q, init);
      assert forall i :: 0 <= i < n ==> init[i] == artifacts[i];
      var claim := AttemptOf(q, last);
      if claim.Some? {
        var all := cs + [(claim.value, last)];
        assert Candidates(q, artifacts) == all;
        ClaimedBefore(q, init, claim.value);
        AddClaim(cs, (claim.value, last));
      } else {
        assert Candidates(q, artifacts) == cs;
      }
    }
  }

  lemma AddClaim(cs: seq<Candidate>, c: Candidate)
    ensures DistinctAttempts(cs + [c]) <==> DistinctAttempts(cs) && forall i :: 0 <= i < |cs| ==> cs[i].0 != c.0
  {
    var all := cs + [c];
    if DistinctAttempts(all) {
      forall j, k | 0 <= j < k < |cs| ensures cs[j].0 != cs[k].0 { assert all[j].0 != all[k].0; }
      forall i | 0 <= i < |cs| ensures cs[i].0 != c.0 { assert all[i].0 != all[|cs|].0; }
    }
  }

  lemma ClaimedBefore(q: Request, artifacts: seq<Artifact>, n: nat)
    ensures (exists i :: 0 <= i < |Candidates(q, artifacts)| && Candidates(q, artifacts)[i].0 == n) <==>
      exists i :: 0 <= i < |artifacts| && AttemptOf(q, artifacts[i]) == Some(n)
  {
    hide AttemptOf, Candidates;
    var cs := Candidates(q, artifacts);
    if i :| 0 <= i < |cs| && cs[i].0 == n {
      CandidateIsEarlier(q, artifacts, cs[i]);
      var j :| 0 <= j < |artifacts| && artifacts[j] == cs[i].1;
    }
    if i :| 0 <= i < |artifacts| && AttemptOf(q, artifacts[i]) == Some(n) {
      EveryCandidate(q, artifacts, artifacts[i]);
      var j :| 0 <= j < |cs| && cs[j] == (n, artifacts[i]);
    }
  }

  lemma NewestIs(q: Request, artifacts: seq<Artifact>, c: Candidate)
    ensures Newest(q, artifacts, c.1, c.0) <==> Greatest(Candidates(q, artifacts), c)
  {
    hide AttemptOf, Candidates;
    var cs := Candidates(q, artifacts);
    if Newest(q, artifacts, c.1, c.0) {
      EveryCandidate(q, artifacts, c.1);
      forall k | 0 <= k < |cs| ensures cs[k].0 <= c.0 { CandidateIsEarlier(q, artifacts, cs[k]); }
    }
    if Greatest(cs, c) {
      CandidateIsEarlier(q, artifacts, c);
      forall b | b in artifacts && AttemptOf(q, b).Some? ensures AttemptOf(q, b).value <= c.0 {
        EveryCandidate(q, artifacts, b);
        var k :| 0 <= k < |cs| && cs[k] == (AttemptOf(q, b).value, b);
      }
    }
  }

  ghost predicate Untouched(s: Service, q: Request, k: int) {
    Completed(s, q, k) && JobsKnown(s, k) && CarriedOver(s, q, k, s.runs[k].started.value)
  }

  lemma UntouchedIs(s: Service, q: Request, k: int)
    ensures Untouched(s, q, k) <==> BetweenOk(s, q, k)
  {
    hide OwnersIn, AllStarted, Reran;
    if Completed(s, q, k) && JobsKnown(s, k) { OwnersStarted(s, q, k, s.runs[k].started.value); }
  }

  /**
   An artifact is carried exactly when this attempt and every one since the artifact's own is known
   not to have run the owner, no two artifacts claim one attempt, it is the newest, its attempt's
   only owner job made it, and it can be downloaded.
   */
  lemma CarriedExact(s: Service, q: Request, artifacts: seq<Artifact>, a: Artifact, attempt: nat)
    ensures Answers(s, q, artifacts, Carried(a, attempt)) <==>
      && JobsKnown(s, q.attempt) && CarriedOver(s, q, q.attempt, q.started)
      && ClaimsDistinct(q, artifacts) && Newest(q, artifacts, a, attempt)
      && (forall k :: attempt < k < q.attempt ==> Untouched(s, q, k))
      && Completed(s, q, attempt) && JobsKnown(s, attempt) && Produced(s, q, attempt, a) && Downloadable(a, q)
  {
    hide Candidates, AttemptOf, DistinctAttempts, ClaimsDistinct, Newest, Greatest, OwnersIn, AllStarted, Reran;
    hide Untouched, BetweenOk, Produced, OwnerOk, CarriedOver;
    ClaimsAre(q, artifacts);
    if q.attempt in s.listings { OwnersStarted(s, q, q.attempt, q.started); }
    NewestIs(q, artifacts, (attempt, a));
    forall k ensures Untouched(s, q, k) <==> BetweenOk(s, q, k) { UntouchedIs(s, q, k); }
    if RunOk(s, q, attempt) && attempt in s.listings { ProducedIs(s, q, attempt, a); }
    var cs := Candidates(q, artifacts);
    if Greatest(cs, (attempt, a)) { InIt(cs, (attempt, a)); }
    if DistinctAttempts(cs) && Greatest(cs, (attempt, a)) {
      forall d | Greatest(cs, d) ensures d == (attempt, a) { GreatestUnique(cs, (attempt, a), d); }
    }
  }

  /** There is nothing to carry exactly when the owner runs in this attempt or no artifact is of an earlier one. */
  lemma NothingExact(s: Service, q: Request, artifacts: seq<Artifact>)
    ensures Answers(s, q, artifacts, Nothing) <==>
      && JobsKnown(s, q.attempt) && OwnersHaveStarted(s, q)
      && (!CarriedOver(s, q, q.attempt, q.started) || forall a :: a in artifacts ==> AttemptOf(q, a).None?)
  {
    hide AttemptOf, DistinctAttempts, Greatest, OwnersIn, AllStarted, Reran, CarriedOver;
    if q.attempt in s.listings {
      OwnersStarted(s, q, q.attempt, q.started);
      StartedIs(s, q);
    }
    var cs := Candidates(q, artifacts);
    hide Candidates;
    if cs != [] {
      CandidateIsEarlier(q, artifacts, cs[0]);
    }
    forall a | a in artifacts && AttemptOf(q, a).Some? ensures cs != [] { EveryCandidate(q, artifacts, a); }
    NoneDistinct(cs);
  }

  lemma NoneDistinct(cs: seq<Candidate>)
    ensures cs == [] ==> DistinctAttempts(cs)
  {
  }

  ghost predicate OwnersHaveStarted(s: Service, q: Request)
    requires q.attempt in s.listings
  {
    forall j :: j in s.listings[q.attempt].jobs && j.name == q.owner ==> j.started.Some?
  }

  lemma StartedIs(s: Service, q: Request)
    requires q.attempt in s.listings
    ensures OwnersHaveStarted(s, q) <==> AllStarted(OwnersIn(s.listings[q.attempt], q.owner))
  {
    var owners := OwnersIn(s.listings[q.attempt], q.owner);
    forall j ensures j in owners <==> j in s.listings[q.attempt].jobs && j.name == q.owner { }
    hide OwnersIn;
    if AllStarted(owners) {
      forall j | j in owners ensures j.started.Some? { var i :| 0 <= i < |owners| && owners[i] == j; }
    }
    if OwnersHaveStarted(s, q) {
      forall i | 0 <= i < |owners| ensures owners[i].started.Some? { assert owners[i] in owners; }
    }
  }

  // ----- metadata requests -----

  /** What one request comes back with: no answer in time, a failed transport, or a response. */
  datatype Reply = TimedOut | Broken | Failed(status: int, retryAfter: bool) | Done(status: int, body: Option<string>)

  const DEADLINE := 90_000
  const ATTEMPTS := 3

  predicate Retryable(r: Reply) {
    r == TimedOut || (r.Failed? && r.status in {502, 503, 504} && !r.retryAfter)
  }

  predicate Succeeds(r: Reply) {
    r.Done? && 200 <= r.status < 300 && r.body.Some?
  }

  function Delay(attempt: nat): nat {
    if attempt == 0 then 1000 else if attempt == 1 then 2000 else 4000
  }

  /** A request is cut off when the time left runs out. */
  function Answered(reply: (Reply, nat), left: nat): (Reply, nat) {
    if reply.1 >= left then (TimedOut, left) else reply
  }

  /** One request of the log: when it began and ended, and its outcome. */
  datatype Call = Call(start: nat, end: nat, reply: Reply)

  /** A log in which every request lies before the deadline and follows a retryable one after the full delay. */
  ghost predicate Disciplined(log: seq<Call>) {
    && |log| <= 3
    && (forall k :: 0 <= k < |log| ==> log[k].start < 90_000 && log[k].start <= log[k].end <= 90_000)
    && (forall j, k :: 0 <= j && j + 1 == k && k < |log| ==>
         Follows(log[j], j, log[k].start))
  }

  lemma NextCall(log: seq<Call>, c: Call)
    requires Disciplined(log) && |log| < ATTEMPTS && c.start < DEADLINE && c.start <= c.end <= DEADLINE
    requires log != [] ==> Follows(log[|log| - 1], |log| - 1, c.start)
    ensures Disciplined(log + [c])
  {
  }

  /** The next request may begin at this time: the last one failed in a passing way, and the back-off is over. */
  ghost predicate Follows(c: Call, k: nat, start: int) {
    Transient(c.reply) && c.end + 1000 * Power2(k) < 90_000 && c.end + 1000 * Power2(k) <= start
  }

  /** No answer in time, or a gateway error that does not say when to come back. */
  ghost predicate Transient(r: Reply) {
    match r
    case TimedOut => true
    case Failed(status, retryAfter) => 502 <= status <= 504 && !retryAfter
    case _ => false
  }

  ghost function Power2(k: nat): nat {
    if k == 0 then 1 else 2 * Power2(k - 1)
  }

  /** Each request runs as the network has it, unless the deadline cuts it off; each begins when the sleep ends. */
  ghost predicate AsServed(log: seq<Call>, replies: seq<(Reply, nat)>, naps: seq<nat>)
    requires |log| <= |replies| && |log| <= |naps|
  {
    forall k :: 0 <= k < |log| ==>
      && log[k].start == (if k == 0 then 0 else log[k - 1].end + naps[k - 1])
      && (log[k].start + replies[k].1 < 90_000 ==>
            log[k].end == log[k].start + replies[k].1 && log[k].reply == replies[k].0)
      && (log[k].start + replies[k].1 >= 90_000 ==> log[k].end == 90_000 && log[k].reply == TimedOut)
  }

  lemma Powers()
    ensures Power2(0) == 1 && Power2(1) == 2 && Power2(2) == 4
  {
  }

  lemma NoneServed(replies: seq<(Reply, nat)>, naps: seq<nat>)
    ensures AsServed([], replies, naps)
  {
  }

  lemma NextServed(log: seq<Call>, c: Call, replies: seq<(Reply, nat)>, naps: seq<nat>)
    requires |log| < |replies| && |log| < |naps| && AsServed(log, replies, naps)
    requires c.start == (if log == [] then 0 else log[|log| - 1].end + naps[|log| - 1])
    requires c.start < 90_000
    requires (c.reply, c.end - c.start) == Answered(replies[|log|], DEADLINE - c.start)
    ensures AsServed(log + [c], replies, naps)
  {
  }

  lemma NoCalls()
    ensures Disciplined([])
  {
  }

  /**
   `api_json`: at most three requests under one deadline. `replies` and `naps` are what the
   network and the clock do: the outcome and duration of each request, and the length of each
   sleep, which is at least the delay asked for. Times are in milliseconds.
   */
  method FetchJson(replies: seq<(Reply, nat)>, naps: seq<nat>) returns (r: Option<string>, log: seq<Call>)
    requires |replies| >= 3 && |naps| >= 3 && forall k :: 0 <= k < 3 ==> naps[k] >= 1000 * Power2(k)
    ensures Disciplined(log) && log != [] && AsServed(log, replies, naps)
    ensures r.Some? <==> var last := log[|log| - 1].reply; last.Done? && last.status / 100 == 2 && last.body.Some?
    ensures r.Some? ==> r == log[|log| - 1].reply.body
    ensures Transient(log[|log| - 1].reply) ==>
      |log| == 3 || log[|log| - 1].end + naps[|log| - 1] >= 90_000
  {
    hide Disciplined, AsServed;
    Powers();
    log := [];
    var now := 0;
    var attempt := 0;
    NoCalls();
    assert AsServed(log, replies, naps) by { NoneServed(replies, naps); }
    while attempt < ATTEMPTS
      invariant 0 <= attempt < ATTEMPTS && |log| == attempt && Disciplined(log)
      invariant attempt == 0 ==> now == 0
      invariant attempt > 0 ==>
        Follows(log[attempt - 1], attempt - 1, now) && now == log[attempt - 1].end + naps[attempt - 1]
      invariant AsServed(log, replies, naps)
    {
      if now >= DEADLINE { return None, log; }
      var (reply, took) := Answered(replies[attempt], DEADLINE - now);
      NextCall(log, Call(now, now + took, reply));
      NextServed(log, Call(now, now + took, reply), replies, naps);
      log := log + [Call(now, now + took, reply)];
      now := now + took;
      if reply.Done? {
        r := if Succeeds(reply) then reply.body else None;
        return;
      }
      if !Retryable(reply) { return None, log; }
      if attempt == 2 || DEADLINE - now <= Delay(attempt) { return None, log; }
      now := now + naps[attempt];
      attempt := attempt + 1;
    }
    r := None;
  }
}
