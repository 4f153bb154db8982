/**
 The bounded image cache: any number of writers publish pinned images into one flat directory
 under a lock, each against a byte budget, and each may fail or crash at any step.
 */
module ImageCache {
  import opened Prelude

  datatype Algorithm = Sha256 | Sha512

  /** A pin: the algorithm and the digest as hexadecimal text. */
  datatype Digest = Digest(algorithm: Algorithm, hex: string)

  /** Any pair of digest functions. */
  type Hash = (Algorithm, Bytes) -> string

  /** The bytes have the pinned digest under the pinned algorithm. */
  predicate Matches(H: Hash, b: Bytes, d: Digest) {
    H(d.algorithm, b) == d.hex
  }

  /** File names of the flat cache: pinned images, temporary copies, and anything else. */
  datatype Name = Pinned(digest: Digest) | Temporary(token: nat) | Other(text: string)

  type Directory = map<Name, Bytes>

  ghost function Sizes(d: Directory): map<Name, int> {
    map n | n in d :: |d[n]|
  }

  /** All file bytes of the directory; the empty lock file does not count. */
  ghost function FileBytes(d: Directory): int {
    Total(Sizes(d))
  }

  lemma BytesInsert(d: Directory, n: Name, b: Bytes)
    requires n !in d
    ensures FileBytes(d[n := b]) == FileBytes(d) + |b|
  {
    TotalInsert(Sizes(d), n, |b|);
    assert Sizes(d[n := b]) == Sizes(d)[n := |b|];
  }

  lemma BytesUpdate(d: Directory, n: Name, b: Bytes)
    requires n in d
    ensures FileBytes(d[n := b]) == FileBytes(d) - |d[n]| + |b|
  {
    TotalUpdate(Sizes(d), n, |b|);
    assert Sizes(d[n := b]) == Sizes(d)[n := |b|];
  }

  lemma BytesRemove(d: Directory, n: Name)
    requires n in d
    ensures FileBytes(d - {n}) == FileBytes(d) - |d[n]|
  {
    TotalRemove(Sizes(d), n);
    assert Sizes(d - {n}) == Sizes(d) - {n};
  }

  // ----- the step system -----

  datatype Outcome = Published | QuotaExceeded | Rejected

  /** How far a writer has come; `size` is the verified image size, `used` its measurement. */
  datatype Phase =
    | Waiting(size: nat)
    | Locked(size: nat)
    | Measured(size: nat, used: int)
    | Copying(size: nat, used: int, temporary: Name, copied: Bytes)
    | Ready(size: nat, used: int, temporary: Name, copied: Bytes)
    | Cleaning(used: int, temporary: Name)
    | Leaving(outcome: Outcome)
    | Finished(outcome: Outcome)
    | Crashed

  datatype Writer = Writer(digest: Digest, budget: nat, phase: Phase)

  /** `abandoned` are the temporary files whose writer crashed or could not remove them. */
  datatype State = State(files: Directory, lock: Option<nat>, writers: map<nat, Writer>, abandoned: set<Name>)

  /** What may happen next to one writer; chunks and failures are up to the environment. */
  datatype Event =
    | Start(digest: Digest, budget: nat, size: nat)
    | Acquire
    | Measure
    | Create(token: nat)
    | Read(chunk: Bytes)
    | EndOfFile(stable: bool)
    | Replace
    | Fail
    | Unlink
    | UnlinkFails
    | Release
    | Crash

  predicate InCritical(p: Phase) {
    p.Locked? || p.Measured? || p.Copying? || p.Ready? || p.Cleaning? || p.Leaving?
  }

  predicate HasTemporary(p: Phase) {
    p.Copying? || p.Ready? || p.Cleaning?
  }

  function Move(s: State, w: nat, p: Phase): State
    requires w in s.writers
  {
    s.(writers := s.writers[w := s.writers[w].(phase := p)])
  }

  /** A new writer that has verified its source and waits for the lock. */
  function Started(s: State, w: nat, digest: Digest, budget: nat, size: nat): State {
    if w in s.writers then s else s.(writers := s.writers[w := Writer(digest, budget, Waiting(size))])
  }

  function Acquired(s: State, w: nat): State
    requires w in s.writers
  {
    var p := s.writers[w].phase;
    if p.Waiting? && s.lock == None then Move(s, w, Locked(p.size)).(lock := Some(w)) else s
  }

  ghost function AfterMeasure(s: State, w: nat): State
    requires w in s.writers
  {
    var me, used := s.writers[w], FileBytes(s.files);
    if !me.phase.Locked? then s
    else Move(s, w, if used + me.phase.size > me.budget then Leaving(QuotaExceeded) else Measured(me.phase.size, used))
  }

  function Created(s: State, w: nat, t: Name): State
    requires w in s.writers
  {
    var p := s.writers[w].phase;
    if !p.Measured? || !t.Temporary? then s
    else if t in s.files then Move(s, w, Leaving(Rejected))
    else Move(s, w, Copying(p.size, p.used, t, [])).(files := s.files[t := []])
  }

  function AfterRead(s: State, w: nat, chunk: Bytes): State
    requires w in s.writers
  {
    var p := s.writers[w].phase;
    if !p.Copying? then s
    else if |p.copied| + |chunk| > p.size then Move(s, w, Cleaning(p.used, p.temporary))
    else
      var copied := p.copied + chunk;
      Move(s, w, Copying(p.size, p.used, p.temporary, copied)).(files := s.files[p.temporary := copied])
  }

  function AfterEnd(H: Hash, s: State, w: nat, stable: bool): State
    requires w in s.writers
  {
    var me, p := s.writers[w], s.writers[w].phase;
    if !p.Copying? then s
    else if |p.copied| != p.size || !Matches(H, p.copied, me.digest) || !stable then
      Move(s, w, Cleaning(p.used, p.temporary))
    else Move(s, w, Ready(p.size, p.used, p.temporary, p.copied))
  }

  function Replaced(s: State, w: nat): State
    requires w in s.writers
  {
    var me, p := s.writers[w], s.writers[w].phase;
    if !p.Ready? then s
    else Move(s, w, Leaving(Published)).(files := (s.files - {p.temporary})[Pinned(me.digest) := p.copied])
  }

  /** An error inside the critical section leads to the clean-up of its temporary file, if any. */
  function AfterFailure(s: State, w: nat): State
    requires w in s.writers
  {
    var p := s.writers[w].phase;
    if p.Locked? || p.Measured? then Move(s, w, Leaving(Rejected))
    else if p.Copying? || p.Ready? then Move(s, w, Cleaning(p.used, p.temporary))
    else s
  }

  function AfterUnlink(s: State, w: nat, removed: bool): State
    requires w in s.writers
  {
    var p := s.writers[w].phase;
    if !p.Cleaning? then s
    else if removed then Move(s, w, Leaving(Rejected)).(files := s.files - {p.temporary})
    else Move(s, w, Leaving(Rejected)).(abandoned := s.abandoned + {p.temporary})
  }

  function Released(s: State, w: nat): State
    requires w in s.writers
  {
    var p := s.writers[w].phase;
    if p.Leaving? then Move(s, w, Finished(p.outcome)).(lock := None) else s
  }

  /** A crash at any point: the lock is given up, the temporary file stays. */
  function AfterCrash(s: State, w: nat): State
    requires w in s.writers
  {
    var p := s.writers[w].phase;
    if p.Finished? || p.Crashed? then s
    else
      var left := if HasTemporary(p) then {p.temporary} else {};
      Move(s, w, Crashed).(lock := if s.lock == Some(w) then None else s.lock, abandoned := s.abandoned + left)
  }

  /** One step of writer `w`; the state is unchanged when the event does not apply. */
  ghost function Step(H: Hash, s: State, w: nat, e: Event): State {
    if e.Start? then Started(s, w, e.digest, e.budget, e.size)
    else if w !in s.writers then s
    else match e
      case Acquire => Acquired(s, w)
      case Measure => AfterMeasure(s, w)
      case Create(token) => Created(s, w, Temporary(token))
      case Read(chunk) => AfterRead(s, w, chunk)
      case EndOfFile(stable) => AfterEnd(H, s, w, stable)
      case Replace => Replaced(s, w)
      case Fail => AfterFailure(s, w)
      case Unlink => AfterUnlink(s, w, true)
      case UnlinkFails => AfterUnlink(s, w, false)
      case Release => Released(s, w)
      case Crash => AfterCrash(s, w)
  }

  // ----- what every step keeps -----

  /** The holder's measurement accounts for everything but its own temporary copy. */
  ghost predicate Accurate(H: Hash, files: Directory, me: Writer) {
    match me.phase
    case Measured(size, used) => used == FileBytes(files) && used + size <= me.budget
    case Copying(size, used, t, copied) =>
      && used + size <= me.budget && |copied| <= size && t.Temporary? && t in files && files[t] == copied
      && FileBytes(files) == used + |copied|
    case Ready(size, used, t, copied) =>
      && used + size <= me.budget && |copied| == size && t.Temporary? && t in files && files[t] == copied
      && FileBytes(files) == used + |copied| && Matches(H, copied, me.digest)
    case Cleaning(used, t) =>
      t.Temporary? && t in files && FileBytes(files) == used + |files[t]| <= me.budget
    case _ => true
  }

  /** Only the lock holder is inside the critical section. */
  ghost predicate Exclusive(s: State) {
    && (forall w :: w in s.writers ==> (InCritical(s.writers[w].phase) <==> s.lock == Some(w)))
    && (s.lock.Some? ==> s.lock.value in s.writers)
  }

  /** Relative to the directory at the start: what is kept, and what a pinned name may hold. */
  ghost predicate Faithful(H: Hash, start: Directory, files: Directory) {
    && start.Keys <= files.Keys
    && (forall n :: n in start && !n.Pinned? ==> files[n] == start[n])
    && (forall n :: n in files && n.Other? ==> n in start)
    && (forall n :: n in files && n.Pinned? ==> Matches(H, files[n], n.digest) || (n in start && files[n] == start[n]))
  }

  /** Temporary files beyond the first directory belong to the holder or were abandoned. */
  ghost predicate Owned(start: Directory, s: State) {
    forall n :: n in s.files && n.Temporary? && n !in start ==>
      || n in s.abandoned
      || (s.lock.Some? && s.lock.value in s.writers
          && HasTemporary(s.writers[s.lock.value].phase) && s.writers[s.lock.value].phase.temporary == n)
  }

  ghost predicate TemporaryIsNew(start: Directory, s: State) {
    forall w :: w in s.writers && HasTemporary(s.writers[w].phase) ==> s.writers[w].phase.temporary !in start
  }

  ghost predicate Bounded(start: Directory, bound: int, s: State) {
    && FileBytes(s.files) <= Max(FileBytes(start), bound)
    && forall w :: w in s.writers ==> s.writers[w].budget <= bound
  }

  ghost predicate Invariant(H: Hash, start: Directory, bound: int, s: State) {
    && Exclusive(s)
    && (s.lock.Some? ==> Accurate(H, s.files, s.writers[s.lock.value]))
    && Faithful(H, start, s.files)
    && Owned(start, s)
    && TemporaryIsNew(start, s)
    && Bounded(start, bound, s)
  }

  lemma StartKeeps(
      H: Hash, start: Directory, bound: int, s: State, w: nat, digest: Digest, budget: nat, size: nat)
    requires Invariant(H, start, bound, s) && budget <= bound
    ensures Invariant(H, start, bound, Started(s, w, digest, budget, size))
  {
    hide FileBytes, Faithful;
  }

  lemma LockKeeps(H: Hash, start: Directory, bound: int, s: State, w: nat)
    requires Invariant(H, start, bound, s) && w in s.writers
    ensures Invariant(H, start, bound, Acquired(s, w)) && Invariant(H, start, bound, Released(s, w))
  {
    hide FileBytes, Faithful;
  }

  lemma MeasureKeeps(H: Hash, start: Directory, bound: int, s: State, w: nat)
    requires Invariant(H, start, bound, s) && w in s.writers
    ensures Invariant(H, start, bound, AfterMeasure(s, w))
  {
    hide FileBytes, Faithful;
  }

  lemma EndKeeps(H: Hash, start: Directory, bound: int, s: State, w: nat, stable: bool)
    requires Invariant(H, start, bound, s) && w in s.writers
    ensures Invariant(H, start, bound, AfterEnd(H, s, w, stable))
  {
    hide FileBytes, Faithful;
  }

  lemma FailureKeeps(H: Hash, start: Directory, bound: int, s: State, w: nat)
    requires Invariant(H, start, bound, s) && w in s.writers
    ensures Invariant(H, start, bound, AfterFailure(s, w))
  {
    hide FileBytes, Faithful;
  }

  lemma CrashKeeps(H: Hash, start: Directory, bound: int, s: State, w: nat)
    requires Invariant(H, start, bound, s) && w in s.writers
    ensures Invariant(H, start, bound, AfterCrash(s, w))
  {
    hide FileBytes, Faithful;
  }

  lemma CreateKeeps(H: Hash, start: Directory, bound: int, s: State, w: nat, t: Name)
    requires Invariant(H, start, bound, s) && w in s.writers
    ensures Invariant(H, start, bound, Created(s, w, t))
  {
    hide FileBytes;
    if s.writers[w].phase.Measured? && t !in s.files { BytesInsert(s.files, t, []); }
  }

  lemma ReadKeeps(H: Hash, start: Directory, bound: int, s: State, w: nat, chunk: Bytes)
    requires Invariant(H, start, bound, s) && w in s.writers
    ensures Invariant(H, start, bound, AfterRead(s, w, chunk))
  {
    hide FileBytes;
    var p := s.writers[w].phase;
    if p.Copying? { BytesUpdate(s.files, p.temporary, p.copied + chunk); }
  }

  /** The published bytes are the copied ones, so they carry the pinned digest. */
  lemma ReplaceKeeps(H: Hash, start: Directory, bound: int, s: State, w: nat)
    requires Invariant(H, start, bound, s) && w in s.writers
    ensures Invariant(H, start, bound, Replaced(s, w))
  {
    hide FileBytes, Matches;
    var me, p := s.writers[w], s.writers[w].phase;
    if p.Ready? {
      var d, n := s.files - {p.temporary}, Pinned(me.digest);
      BytesRemove(s.files, p.temporary);
      if n in d { BytesUpdate(d, n, p.copied); } else { BytesInsert(d, n, p.copied); }
    }
  }

  lemma UnlinkKeeps(H: Hash, start: Directory, bound: int, s: State, w: nat, removed: bool)
    requires Invariant(H, start, bound, s) && w in s.writers
    ensures Invariant(H, start, bound, AfterUnlink(s, w, removed))
  {
    hide FileBytes;
    var p := s.writers[w].phase;
    if p.Cleaning? { BytesRemove(s.files, p.temporary); }
  }

  lemma StepKeeps(H: Hash, start: Directory, bound: int, s: State, w: nat, e: Event)
    requires Invariant(H, start, bound, s) && (e.Start? ==> e.budget <= bound)
    ensures Invariant(H, start, bound, Step(H, s, w, e))
    ensures Truthful(H, s) ==> Truthful(H, Step(H, s, w, e))
  {
    hide Truthful;
    if Truthful(H, s) { StepTruthful(H, start, bound, s, w, e); }
    hide Invariant, Started, Acquired, AfterMeasure, Created, AfterRead, AfterEnd, Replaced, AfterFailure;
    hide AfterUnlink, Released, AfterCrash;
    if e.Start? {
      StartKeeps(H, start, bound, s, w, e.digest, e.budget, e.size);
    } else if w in s.writers {
      match e
      case Acquire => LockKeeps(H, start, bound, s, w);
      case Measure => MeasureKeeps(H, start, bound, s, w);
      case Create(token) => CreateKeeps(H, start, bound, s, w, Temporary(token));
      case Read(chunk) => ReadKeeps(H, start, bound, s, w, chunk);
      case EndOfFile(stable) => EndKeeps(H, start, bound, s, w, stable);
      case Replace => ReplaceKeeps(H, start, bound, s, w);
      case Fail => FailureKeeps(H, start, bound, s, w);
      case Unlink => UnlinkKeeps(H, start, bound, s, w, true);
      case UnlinkFails => UnlinkKeeps(H, start, bound, s, w, false);
      case Release => LockKeeps(H, start, bound, s, w);
      case Crash => CrashKeeps(H, start, bound, s, w);
    }
  }

  // ----- whole runs -----

  ghost function Run(H: Hash, s: State, events: seq<(nat, Event)>): State
    decreases |events|
  {
    if events == [] then s
    else
      var last := events[|events| - 1];
      Step(H, Run(H, s, events[..|events| - 1]), last.0, last.1)
  }

  /** A directory with any contents, before the first writer. */
  function Initial(start: Directory): State {
    State(start, None, map[], {})
  }

  ghost predicate BudgetsWithin(events: seq<(nat, Event)>, bound: int) {
    forall k :: 0 <= k < |events| && events[k].1.Start? ==> events[k].1.budget <= bound
  }

  /**
   In every interleaving, with failures and crashes anywhere, the invariant holds, and whoever
   reports a publication has published.
   */
  lemma {:induction false} EveryRunKeeps(H: Hash, start: Directory, bound: int, events: seq<(nat, Event)>)
    requires BudgetsWithin(events, bound)
    ensures Invariant(H, start, bound, Run(H, Initial(start), events))
    ensures Truthful(H, Run(H, Initial(start), events))
    decreases |events|
  {
    hide Step, FileBytes;
    if events != [] {
      hide Invariant, Truthful;
      var n := |events| - 1;
      assert forall k :: 0 <= k < n ==> events[..n][k] == events[k];
      EveryRunKeeps(H, start, bound, events[..n]);
      StepKeeps(H, start, bound, Run(H, Initial(start), events[..n]), events[n].0, events[n].1);
    }
  }

  /** The directory never holds more bytes than at the start or than the largest budget. */
  lemma CacheStaysWithinBudget(H: Hash, start: Directory, bound: int, events: seq<(nat, Event)>)
    requires BudgetsWithin(events, bound)
    ensures FileBytes(Run(H, Initial(start), events).files) <= Max(FileBytes(start), bound)
  {
    hide Run, FileBytes;
    EveryRunKeeps(H, start, bound, events);
  }

  /** What a writer measured still holds, up to its own copy, at every point before its replace. */
  lemma MeasurementStaysAccurate(H: Hash, start: Directory, bound: int, events: seq<(nat, Event)>, w: nat)
    requires BudgetsWithin(events, bound)
    requires w in Run(H, Initial(start), events).writers
    ensures var s := Run(H, Initial(start), events); var p := s.writers[w].phase;
      && (InCritical(p) ==> s.lock == Some(w))
      && (p.Measured? ==> FileBytes(s.files) == p.used)
      && (HasTemporary(p) ==> p.temporary in s.files && FileBytes(s.files) == p.used + |s.files[p.temporary]|)
  {
    hide Run, FileBytes;
    EveryRunKeeps(H, start, bound, events);
  }

  /** Every image that is not left over from the start carries the digest of its name. */
  lemma PublishedImagesMatch(
      H: Hash, start: Directory, bound: int, events: seq<(nat, Event)>, digest: Digest)
    requires BudgetsWithin(events, bound)
    requires Pinned(digest) in Run(H, Initial(start), events).files
    ensures var files := Run(H, Initial(start), events).files;
      || Matches(H, files[Pinned(digest)], digest)
      || (Pinned(digest) in start && files[Pinned(digest)] == start[Pinned(digest)])
  {
    hide Run, FileBytes;
    EveryRunKeeps(H, start, bound, events);
  }

  /** Unknown files are never removed or changed, and pinned ones never disappear. */
  lemma NothingIsLost(H: Hash, start: Directory, bound: int, events: seq<(nat, Event)>, n: Name)
    requires BudgetsWithin(events, bound) && n in start
    ensures var files := Run(H, Initial(start), events).files; n in files && (!n.Pinned? ==> files[n] == start[n])
  {
    hide Run, FileBytes;
    EveryRunKeeps(H, start, bound, events);
  }

  /** With nobody inside and nothing abandoned, no temporary file has been added. */
  lemma QuietCacheIsClean(H: Hash, start: Directory, bound: int, events: seq<(nat, Event)>, n: Name)
    requires BudgetsWithin(events, bound) && n.Temporary?
    requires var s := Run(H, Initial(start), events); s.lock == None && s.abandoned == {} && n in s.files
    ensures n in start
  {
    hide Run, FileBytes;
    EveryRunKeeps(H, start, bound, events);
  }

  ghost predicate Good(H: Hash, files: Directory, digest: Digest) {
    Pinned(digest) in files && Matches(H, files[Pinned(digest)], digest)
  }

  lemma GoodImageStays(H: Hash, start: Directory, bound: int, s: State, w: nat, e: Event, digest: Digest)
    requires Invariant(H, start, bound, s) && Good(H, s.files, digest)
    ensures Good(H, Step(H, s, w, e).files, digest)
  {
    hide FileBytes, Faithful, Owned, Bounded, TemporaryIsNew;
    if w in s.writers && HasTemporary(s.writers[w].phase) { assert s.lock == Some(w); }
  }

  /** Once published, an image stays valid through everything that happens later. */
  lemma {:induction false} PublishedImageStays(
    H: Hash, start: Directory, bound: int, events: seq<(nat, Event)>, j: nat, digest: Digest)
    requires BudgetsWithin(events, bound) && j <= |events|
    requires Good(H, Run(H, Initial(start), events[..j]).files, digest)
    ensures Good(H, Run(H, Initial(start), events).files, digest)
    decreases |events|
  {
    hide Invariant, Good, Step, Initial;
    var n := |events| - 1;
    if j == |events| {
      assert events[..j] == events;
    } else {
      assert forall k :: 0 <= k < n ==> events[..n][k] == events[k];
      assert events[..n][..j] == events[..j];
      PublishedImageStays(H, start, bound, events[..n], j, digest);
      EveryRunKeeps(H, start, bound, events[..n]);
      GoodImageStays(H, start, bound, Run(H, Initial(start), events[..n]), events[n].0, events[n].1, digest);
    }
  }

  // ----- what a writer reports -----

  predicate Reports(p: Phase, o: Outcome) {
    p == Leaving(o) || p == Finished(o)
  }

  ghost predicate Truthful(H: Hash, s: State) {
    forall w :: w in s.writers && Reports(s.writers[w].phase, Published) ==> Good(H, s.files, s.writers[w].digest)
  }

  /** Only a replace turns a writer into one that reports a publication. */
  lemma NewlyPublished(H: Hash, start: Directory, bound: int, s: State, w: nat, e: Event)
    requires Invariant(H, start, bound, s) && w in s.writers && !Reports(s.writers[w].phase, Published)
    requires Reports(Step(H, s, w, e).writers[w].phase, Published)
    ensures Good(H, Step(H, s, w, e).files, s.writers[w].digest)
    ensures Step(H, s, w, e).writers[w].digest == s.writers[w].digest
  {
    hide FileBytes, Faithful, Owned, Bounded, TemporaryIsNew;
    assert s.lock == Some(w);
  }

  lemma OnlyOneMoves(H: Hash, s: State, w: nat, e: Event, v: nat)
    requires v != w || (v in s.writers && e.Start?)
    ensures v in Step(H, s, w, e).writers <==> v in s.writers
    ensures v in s.writers ==> Step(H, s, w, e).writers[v] == s.writers[v]
  {
    hide FileBytes;
  }

  lemma StepTruthful(H: Hash, start: Directory, bound: int, s: State, w: nat, e: Event)
    requires Invariant(H, start, bound, s) && Truthful(H, s)
    ensures Truthful(H, Step(H, s, w, e))
  {
    hide Good, Step, Invariant;
    var t := Step(H, s, w, e);
    forall v | v in t.writers && Reports(t.writers[v].phase, Published) ensures Good(H, t.files, t.writers[v].digest) {
      if v != w {
        OnlyOneMoves(H, s, w, e, v);
        GoodImageStays(H, start, bound, s, w, e, s.writers[v].digest);
      } else if w !in s.writers {
        NewWriterWaits(H, s, w, e);
      } else {
        SameDigest(H, s, w, e);
        if Reports(s.writers[w].phase, Published) {
          GoodImageStays(H, start, bound, s, w, e, s.writers[w].digest);
        } else {
          NewlyPublished(H, start, bound, s, w, e);
        }
      }
    }
  }

  lemma NewWriterWaits(H: Hash, s: State, w: nat, e: Event)
    requires w !in s.writers
    ensures w in Step(H, s, w, e).writers ==> Step(H, s, w, e).writers[w].phase.Waiting?
  {
  }

  lemma SameDigest(H: Hash, s: State, w: nat, e: Event)
    requires w in s.writers
    ensures var t := Step(H, s, w, e);
      w in t.writers && t.writers[w].digest == s.writers[w].digest && t.writers[w].budget == s.writers[w].budget
  {
    hide FileBytes;
  }

  /** In every run, a writer that reports a publication has published: its image is there with its digest. */
  lemma {:induction false} PublishedIsGood(H: Hash, start: Directory, bound: int, events: seq<(nat, Event)>, w: nat)
    requires BudgetsWithin(events, bound) && w in Run(H, Initial(start), events).writers
    requires Reports(Run(H, Initial(start), events).writers[w].phase, Published)
    ensures var s := Run(H, Initial(start), events); Good(H, s.files, s.writers[w].digest)
  {
    hide Run, Good;
    EveryRunKeeps(H, start, bound, events);
  }

  /** The state after writer `w` failed, cleaned up and left. */
  ghost function Abort(H: Hash, s: State, w: nat): State {
    Step(H, Step(H, Step(H, s, w, Fail), w, Unlink), w, Release)
  }

  /**
   An error anywhere in the critical section: the lock is given up, the temporary copy is gone and
   nothing else has changed.
   */
  lemma FailureReleases(H: Hash, s: State, w: nat)
    requires Exclusive(s) && s.lock == Some(w)
    ensures var p, t := s.writers[w].phase, Abort(H, s, w);
      && t.lock == None && t.abandoned == s.abandoned && t.writers.Keys == s.writers.Keys
      && (forall v :: v in s.writers && v != w ==> t.writers[v] == s.writers[v])
      && t.writers[w].phase == Finished(if p.Leaving? then p.outcome else Rejected)
      && t.files == if p.Copying? || p.Ready? || p.Cleaning? then s.files - {p.temporary} else s.files
  {
    hide FileBytes, AfterMeasure, Created, AfterRead, AfterEnd, Replaced, AfterCrash, Acquired, Started;
    var p := s.writers[w].phase;
    var a := Step(H, s, w, Fail);
    assert a == AfterFailure(s, w) && a.files == s.files && a.lock == s.lock && a.abandoned == s.abandoned;
    var b := Step(H, a, w, Unlink);
    assert b == AfterUnlink(a, w, true) && b.lock == s.lock && b.abandoned == s.abandoned;
    assert b.writers[w].phase == Leaving(if p.Leaving? then p.outcome else Rejected);
  }

  /** A crash there gives up the lock too, but leaves the copy behind. */
  lemma CrashReleases(H: Hash, s: State, w: nat)
    requires Exclusive(s) && s.lock == Some(w)
    ensures var p, t := s.writers[w].phase, Step(H, s, w, Crash);
      && t.lock == None && t.files == s.files && t.writers == s.writers[w := s.writers[w].(phase := Crashed)]
      && t.abandoned == s.abandoned + if p.Copying? || p.Ready? || p.Cleaning? then {p.temporary} else {}
  {
    hide FileBytes;
  }

  /** At event `j` the writer measured the cache and found no room for its image. */
  ghost predicate FoundNoRoom(H: Hash, start: Directory, events: seq<(nat, Event)>, w: nat, j: int) {
    && 0 <= j < |events| && events[j] == (w, Measure)
    && var s := Run(H, Initial(start), events[..j]);
       w in s.writers && s.writers[w].phase.Locked?
       && FileBytes(s.files) + s.writers[w].phase.size > s.writers[w].budget
  }

  lemma QuotaStep(H: Hash, s: State, w: nat, e: Event)
    requires w in s.writers && w in Step(H, s, w, e).writers
    ensures var p, q := s.writers[w].phase, Step(H, s, w, e).writers[w].phase;
      && (Reports(p, QuotaExceeded) ==> Reports(q, QuotaExceeded) || q.Crashed?)
      && (p.Crashed? ==> q.Crashed?)
      && (Reports(q, QuotaExceeded) && !Reports(p, QuotaExceeded) ==> e.Measure? && p.Locked?)
      && (e.Measure? && p.Locked? ==>
            (Reports(q, QuotaExceeded) <==> FileBytes(s.files) + p.size > s.writers[w].budget))
  {
    hide FileBytes;
  }

  /** In every run, a writer reports an exceeded quota exactly when it found no room, unless it crashed since. */
  lemma {:induction false} QuotaIsMeasured(H: Hash, start: Directory, events: seq<(nat, Event)>, w: nat)
    requires w in Run(H, Initial(start), events).writers
    ensures var p := Run(H, Initial(start), events).writers[w].phase;
      && (Reports(p, QuotaExceeded) ==> exists j :: FoundNoRoom(H, start, events, w, j))
      && (forall j :: FoundNoRoom(H, start, events, w, j) ==> Reports(p, QuotaExceeded) || p.Crashed?)
    decreases |events|
  {
    hide Step, FileBytes;
    if events != [] {
      var n := |events| - 1;
      var before, last := events[..n], events[n];
      var s := Run(H, Initial(start), before);
      forall j ensures FoundNoRoom(H, start, before, w, j) <==> j < n && FoundNoRoom(H, start, events, w, j) {
        if 0 <= j < n { assert before[..j] == events[..j]; }
      }
      hide Run;
      if w in s.writers {
        QuotaIsMeasured(H, start, before, w);
        RunStep(H, start, events);
        if last.0 == w { QuotaStep(H, s, w, last.1); } else { OnlyOneMoves(H, s, last.0, last.1, w); }
        if Reports(Run(H, Initial(start), events).writers[w].phase, QuotaExceeded) {
          if Reports(s.writers[w].phase, QuotaExceeded) {
            var j :| FoundNoRoom(H, start, before, w, j);
            assert FoundNoRoom(H, start, events, w, j);
          } else {
            assert FoundNoRoom(H, start, events, w, n);
          }
        }
      } else {
        RunStep(H, start, events);
        if last.0 == w { NewWriterWaits(H, s, w, last.1); } else { OnlyOneMoves(H, s, last.0, last.1, w); }
        NeverInside(H, start, before, w);
      }
    }
  }

  lemma RunStep(H: Hash, start: Directory, events: seq<(nat, Event)>)
    requires events != []
    ensures var n := |events| - 1;
      Run(H, Initial(start), events) == Step(H, Run(H, Initial(start), events[..n]), events[n].0, events[n].1)
  {
    hide Step;
  }

  /** Writers never disappear. */
  lemma {:induction false} NeverInside(H: Hash, start: Directory, events: seq<(nat, Event)>, w: nat)
    requires w !in Run(H, Initial(start), events).writers
    ensures forall j :: !FoundNoRoom(H, start, events, w, j)
    decreases |events|
  {
    hide Step, FileBytes;
    if events != [] {
      var n := |events| - 1;
      var before, last := events[..n], events[n];
      var s := Run(H, Initial(start), before);
      if w in s.writers { StaysWriter(H, s, last.0, last.1, w); }
      NeverInside(H, start, before, w);
      forall j ensures !FoundNoRoom(H, start, events, w, j) {
        if 0 <= j < n {
          assert before[..j] == events[..j];
          assert !FoundNoRoom(H, start, before, w, j);
        }
      }
    }
  }

  lemma StaysWriter(H: Hash, s: State, w: nat, e: Event, v: nat)
    requires v in s.writers
    ensures v in Step(H, s, w, e).writers
  {
  }

  // ----- one writer alone -----

  /** The flat cache directory as one writer sees it while it holds the lock. */
  class Cache {
    var files: Directory

    constructor (d: Directory)
      ensures files == d
    {
      files := d;
    }

    /** `cache_bytes`: the sum over all entries. */
    method CacheBytes() returns (total: int)
      ensures total == FileBytes(files)
    {
      total := 0;
      var left := files.Keys;
      ghost var done: map<Name, int> := map[];
      while left != {}
        invariant left <= files.Keys && done == Sizes(files) - left && total == Total(done)
        decreases left
      {
        var n :| n in left;
        total := total + |files[n]|;
        TotalInsert(done, n, |files[n]|);
        assert done[n := |files[n]|] == Sizes(files) - (left - {n});
        done := done[n := |files[n]|];
        left := left - {n};
      }
      assert Sizes(files) - {} == Sizes(files);
    }

    /**
     `publish_cache` from the lock on: measure, copy what the source now yields, verify, replace.
     `chunks` are the chunks of the second read, `stable` whether the source is still the same file.
     */
    method Publish(
        H: Hash, digest: Digest, budget: nat, size: nat, token: nat, chunks: seq<Bytes>, stable: bool)
        returns (outcome: Outcome)
      modifies this
      ensures outcome == SoloOutcome(H, old(files), digest, budget, size, token, chunks, stable)
      ensures files == SoloFiles(H, old(files), digest, budget, size, token, chunks, stable)
      ensures FileBytes(files) <= Max(FileBytes(old(files)), budget)
    {
      var used := CacheBytes();
      if used + size > budget { return QuotaExceeded; }
      var temporary := Temporary(token);
      if temporary in files { return Rejected; }
      ghost var before := files;
      var copied: Bytes := [];
      BytesInsert(before, temporary, []);
      files := files[temporary := []];
      var ok, k := true, 0;
      assert chunks[..0] == [];
      while k < |chunks|
        invariant 0 <= k <= |chunks| && temporary !in before
        invariant ok ==> copied == Concat(chunks[..k]) && |copied| <= size
        invariant !ok ==> |Concat(chunks)| > size
        invariant files == before[temporary := copied] && used + |copied| <= budget
      {
        ConcatStep(chunks, k);
        if |copied| + |chunks[k]| > size {
          ConcatLonger(chunks, k + 1);
          ok := false;
          break;
        }
        copied := copied + chunks[k];
        files := files[temporary := copied];
        k := k + 1;
      }
      assert ok ==> chunks[..k] == chunks;
      assert files - {temporary} == before;
      if ok && |copied| == size && Matches(H, copied, digest) && stable {
        files := (files - {temporary})[Pinned(digest) := copied];
        if Pinned(digest) in before {
          BytesUpdate(before, Pinned(digest), copied);
        } else {
          BytesInsert(before, Pinned(digest), copied);
        }
        return Published;
      }
      files := files - {temporary};
      return Rejected;
    }
  }

  // ----- a copy outside the cache -----

  /** A directory that a verified copy is written into. */
  class Target {
    var files: Directory

    constructor (d: Directory)
      ensures files == d
    {
      files := d;
    }

    /** `verified_copy`: the destination is replaced by the copied bytes only if they carry the digest. */
    method VerifiedCopy(
        H: Hash, destination: Name, digest: Digest, token: nat, chunks: seq<Bytes>) returns (ok: bool)
      requires Temporary(token) !in files && destination != Temporary(token)
      modifies this
      ensures ok <==> Matches(H, Concat(chunks), digest)
      ensures files == if ok then old(files)[destination := Concat(chunks)] else old(files)
    {
      var temporary := Temporary(token);
      ghost var before := files;
      var copied: Bytes := [];
      files := files[temporary := []];
      var k := 0;
      assert chunks[..0] == [];
      while k < |chunks|
        invariant 0 <= k <= |chunks| && copied == Concat(chunks[..k]) && files == before[temporary := copied]
      {
        ConcatStep(chunks, k);
        copied := copied + chunks[k];
        files := files[temporary := copied];
        k := k + 1;
      }
      assert chunks[..k] == chunks;
      assert files - {temporary} == before;
      ok := Matches(H, copied, digest);
      if ok {
        files := (files - {temporary})[destination := copied];
      } else {
        files := files - {temporary};
      }
    }
  }

  function Concat(chunks: seq<Bytes>): Bytes {
    if chunks == [] then [] else Concat(chunks[..|chunks| - 1]) + chunks[|chunks| - 1]
  }

  lemma ConcatStep(chunks: seq<Bytes>, k: nat)
    requires k < |chunks|
    ensures Concat(chunks[..k + 1]) == Concat(chunks[..k]) + chunks[k]
  {
    assert chunks[..k + 1][..k] == chunks[..k];
  }

  lemma {:induction false} ConcatLonger(chunks: seq<Bytes>, k: nat)
    requires k <= |chunks|
    ensures |Concat(chunks[..k])| <= |Concat(chunks)|
    decreases |chunks| - k
  {
    if k == |chunks| {
      assert chunks[..k] == chunks;
    } else {
      ConcatStep(chunks, k);
      ConcatLonger(chunks, k + 1);
    }
  }

  /** What comes of one undisturbed attempt. */
  ghost function SoloOutcome(H: Hash, d: Directory, digest: Digest, budget: nat, size: nat, token: nat,
                             chunks: seq<Bytes>, stable: bool): Outcome
  {
    if FileBytes(d) + size > budget then QuotaExceeded
    else if Temporary(token) in d || |Concat(chunks)| != size || !Matches(H, Concat(chunks), digest) || !stable
    then Rejected
    else Published
  }

  ghost function SoloFiles(H: Hash, d: Directory, digest: Digest, budget: nat, size: nat, token: nat,
                           chunks: seq<Bytes>, stable: bool): Directory
  {
    if SoloOutcome(H, d, digest, budget, size, token, chunks, stable) == Published
    then d[Pinned(digest) := Concat(chunks)] else d
  }

  function Reads(chunks: seq<Bytes>): (es: seq<(nat, Event)>)
    ensures |es| == |chunks|
  {
    seq(|chunks|, k requires 0 <= k < |chunks| => (0, Read(chunks[k])))
  }

  lemma {:induction false} RunAppend(H: Hash, s: State, a: seq<(nat, Event)>, b: seq<(nat, Event)>)
    ensures Run(H, s, a + b) == Run(H, Run(H, s, a), b)
    decreases |b|
  {
    hide Step;
    if b == [] {
      assert a + b == a;
    } else {
      var n := |b| - 1;
      assert (a + b)[..|a + b| - 1] == a + b[..n];
      RunAppend(H, s, a, b[..n]);
    }
  }

  lemma RunOne(H: Hash, s: State, e: Event)
    ensures Run(H, s, [(0, e)]) == Step(H, s, 0, e)
  {
    assert [(0, e)][..0] == [];
  }

  lemma RunFour(H: Hash, s: State, a: Event, b: Event, c: Event, d: Event)
    ensures Run(H, s, [(0, a), (0, b), (0, c), (0, d)]) == Step(H, Step(H, Step(H, Step(H, s, 0, a), 0, b), 0, c), 0, d)
  {
    hide Step, Run;
    var s1 := Step(H, s, 0, a);
    var s2 := Step(H, s1, 0, b);
    RunOne(H, s, a);
    RunOne(H, s1, b);
    RunAppend(H, s, [(0, a)], [(0, b)]);
    RunOne(H, s2, c);
    RunAppend(H, s, [(0, a)] + [(0, b)], [(0, c)]);
    RunOne(H, Step(H, s2, 0, c), d);
    RunAppend(H, s, [(0, a)] + [(0, b)] + [(0, c)], [(0, d)]);
    assert [(0, a)] + [(0, b)] + [(0, c)] + [(0, d)] == [(0, a), (0, b), (0, c), (0, d)];
  }

  /** The state of a lone writer that has read some chunks into its temporary file. */
  ghost predicate Reading(s: State, d: Directory, digest: Digest, budget: nat, size: nat, used: int, t: Name,
      content: Bytes) {
    && t !in d && s.lock == Some(0) && 0 in s.writers && s.abandoned == {}
    && s.writers[0].digest == digest && s.writers[0].budget == budget
    && (if |content| <= size
        then s.writers[0].phase == Copying(size, used, t, content) && s.files == d[t := content]
        else s.writers[0].phase == Cleaning(used, t) && t in s.files && s.files - {t} == d)
  }

  lemma {:induction false} ReadAll(
    H: Hash, s: State, d: Directory, digest: Digest, budget: nat, size: nat, used: int, t: Name,
    chunks: seq<Bytes>)
    requires Reading(s, d, digest, budget, size, used, t, [])
    ensures Reading(Run(H, s, Reads(chunks)), d, digest, budget, size, used, t, Concat(chunks))
    decreases |chunks|
  {
    if chunks == [] {
      assert Reads(chunks) == [];
    } else {
      var n := |chunks| - 1;
      ReadAll(H, s, d, digest, budget, size, used, t, chunks[..n]);
      assert Reads(chunks)[..n] == Reads(chunks[..n]);
      ReadOne(H, Run(H, s, Reads(chunks[..n])), d, digest, budget, size, used, t, Concat(chunks[..n]), chunks[n]);
    }
  }

  lemma ReadOne(H: Hash, s: State, d: Directory, digest: Digest, budget: nat, size: nat, used: int, t: Name,
                content: Bytes, chunk: Bytes)
    requires Reading(s, d, digest, budget, size, used, t, content)
    ensures Reading(Step(H, s, 0, Read(chunk)), d, digest, budget, size, used, t, content + chunk)
  {
    assert d[t := content] - {t} == d;
  }

  /** A lone writer of the step system does what the sequential method does. */
  lemma SoloRun(H: Hash, d: Directory, digest: Digest, budget: nat, size: nat, token: nat,
                chunks: seq<Bytes>, stable: bool)
    ensures var begin := [(0, Start(digest, budget, size)), (0, Acquire), (0, Measure), (0, Create(token))];
      var end := [(0, EndOfFile(stable)), (0, Replace), (0, Unlink), (0, Release)];
      var s := Run(H, Initial(d), begin + Reads(chunks) + end);
      && s.files == SoloFiles(H, d, digest, budget, size, token, chunks, stable)
      && 0 in s.writers
      && s.writers[0].phase == Finished(SoloOutcome(H, d, digest, budget, size, token, chunks, stable))
      && s.lock == None
  {
    hide Run, FileBytes, Step;
    var begin := [(0, Start(digest, budget, size)), (0, Acquire), (0, Measure), (0, Create(token))];
    var end := [(0, EndOfFile(stable)), (0, Replace), (0, Unlink), (0, Release)];
    RunAppend(H, Initial(d), begin + Reads(chunks), end);
    RunAppend(H, Initial(d), begin, Reads(chunks));
    RunFour(H, Initial(d), Start(digest, budget, size), Acquire, Measure, Create(token));
    var s := Run(H, Initial(d), begin);
    var r := Run(H, s, Reads(chunks));
    RunFour(H, r, EndOfFile(stable), Replace, Unlink, Release);
    SoloBegin(H, d, digest, budget, size, token);
    if FileBytes(d) + size <= budget && Temporary(token) !in d {
      ReadAll(H, s, d, digest, budget, size, FileBytes(d), Temporary(token), chunks);
    } else {
      LeavingIgnoresReads(H, s, chunks);
    }
    SoloEnd(H, r, d, digest, budget, size, token, Concat(chunks), stable);
  }

  ghost predicate LeavingWith(s: State, d: Directory, outcome: Outcome) {
    s.files == d && s.lock == Some(0) && 0 in s.writers && s.writers[0].phase == Leaving(outcome)
  }

  lemma SoloBegin(H: Hash, d: Directory, digest: Digest, budget: nat, size: nat, token: nat)
    ensures
      var locked := Step(H, Step(H, Initial(d), 0, Start(digest, budget, size)), 0, Acquire);
      var s := Step(H, Step(H, locked, 0, Measure), 0, Create(token));
      if FileBytes(d) + size > budget then LeavingWith(s, d, QuotaExceeded)
      else if Temporary(token) in d then LeavingWith(s, d, Rejected)
      else Reading(s, d, digest, budget, size, FileBytes(d), Temporary(token), [])
  {
    hide FileBytes;
  }

  lemma {:induction false} LeavingIgnoresReads(H: Hash, s: State, chunks: seq<Bytes>)
    requires 0 in s.writers && s.writers[0].phase.Leaving?
    ensures Run(H, s, Reads(chunks)) == s
    decreases |chunks|
  {
    if chunks != [] {
      var n := |chunks| - 1;
      LeavingIgnoresReads(H, s, chunks[..n]);
      assert Reads(chunks)[..n] == Reads(chunks[..n]);
    }
  }

  lemma SoloEnd(H: Hash, r: State, d: Directory, digest: Digest, budget: nat, size: nat, token: nat,
                content: Bytes, stable: bool)
    requires LeavingWith(r, d, QuotaExceeded) || LeavingWith(r, d, Rejected)
      || Reading(r, d, digest, budget, size, FileBytes(d), Temporary(token), content)
    ensures var s := Step(H, Step(H, Step(H, Step(H, r, 0, EndOfFile(stable)), 0, Replace), 0, Unlink), 0, Release);
      && 0 in s.writers && s.lock == None
      && (LeavingWith(r, d, QuotaExceeded) ==> s.files == d && s.writers[0].phase == Finished(QuotaExceeded))
      && (LeavingWith(r, d, Rejected) ==> s.files == d && s.writers[0].phase == Finished(Rejected))
      && (Reading(r, d, digest, budget, size, FileBytes(d), Temporary(token), content) ==>
            if |content| == size && Matches(H, content, digest) && stable
            then s.files == d[Pinned(digest) := content] && s.writers[0].phase == Finished(Published)
            else s.files == d && s.writers[0].phase == Finished(Rejected))
  {
    hide FileBytes;
    assert Temporary(token) !in d ==> d[Temporary(token) := content] - {Temporary(token)} == d;
  }
}
