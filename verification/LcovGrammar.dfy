/**
 The reports that the LCOV reader accepts, as a grammar: file sections with lines between them,
 and in each section records in any order.
 */
module LcovGrammar {
  import opened Prelude
  import opened Text
  import opened LcovReport

  // ----- the lines of a section -----

  ghost predicate Ignored(line: string) {
    line == "" || line[0] == '#'
  }

  /** A record that is allowed in a section and not read. */
  ghost predicate Note(line: string) {
    exists prefix :: prefix in {"FN:", "FNDA:", "FNF:", "FNH:", "BRDA:", "BRF:", "BRH:", "VER:"}
      && StartsWith(line, prefix)
  }

  /** The rest of a line record after its count: nothing, or one more field. */
  ghost predicate Checksum(tail: string) {
    tail == "" || (tail[0] == ',' && ',' !in tail[1..])
  }

  /** A line record, with or without a checksum. */
  ghost predicate DataOf(line: string, n: nat, c: nat) {
    exists number, count, tail :: DataParts(line, number, count, tail)
      && Unsigned(number) == Some(n) && Unsigned(count) == Some(c)
  }

  ghost predicate DataParts(line: string, number: string, count: string, tail: string) {
    line == "DA:" + number + "," + count + tail && Checksum(tail)
  }

  ghost predicate FoundOf(line: string, n: nat) {
    StartsWith(line, "LF:") && Unsigned(line[3..]) == Some(n)
  }

  ghost predicate HitOf(line: string, n: nat) {
    StartsWith(line, "LH:") && Unsigned(line[3..]) == Some(n)
  }

  /** What a record is about: a line of the source, or one of the two summaries. */
  datatype Key = LineAt(number: nat) | FoundKey | HitKey

  ghost predicate Records(line: string, key: Key, value: nat) {
    match key
    case LineAt(n) => n > 0 && DataOf(line, n, value)
    case FoundKey => FoundOf(line, value)
    case HitKey => HitOf(line, value)
  }

  /** A line of a section as the reader takes it. */
  ghost function EntryOf(line: string): Entry<Key, nat> {
    match Classify(line)
    case Skipped => Noise
    case Detail => Noise
    case Data(fields) =>
      if |fields| != 2 && |fields| != 3 then Bad
      else if Unsigned(fields[0]).None? || Unsigned(fields[1]).None? || Unsigned(fields[0]) == Some(0) then Bad
      else Field(LineAt(Unsigned(fields[0]).value), Unsigned(fields[1]).value)
    case Found(digits) => if Unsigned(digits).None? then Bad else Field(FoundKey, Unsigned(digits).value)
    case Hit(digits) => if Unsigned(digits).None? then Bad else Field(HitKey, Unsigned(digits).value)
    case _ => Bad
  }

  // ----- the entries are the records -----

  lemma NoteIs(line: string)
    ensures Classify(line) == Detail <==> !Ignored(line) && Note(line)
  {
    if Note(line) {
      var prefix :|
        prefix in {"FN:", "FNDA:", "FNF:", "FNH:", "BRDA:", "BRF:", "BRH:", "VER:"} && StartsWith(line, prefix);
      assert line == prefix + line[|prefix|..];
      ClassifyDetail(prefix, line[|prefix|..]);
    }
  }

  lemma NoComma(s: string)
    requires Unsigned(s).Some?
    ensures ',' !in s
  {
    assert AllDigits(s) && !IsDigit(',');
  }

  lemma {:induction false} SplitRest(s: string, sep: char) returns (first: string, rest: string)
    ensures |SplitOn(s, sep)| == 1 ==> s == SplitOn(s, sep)[0] && sep !in s
    ensures |SplitOn(s, sep)| > 1 ==>
      s == first + [sep] + rest && first == SplitOn(s, sep)[0] && SplitOn(rest, sep) == SplitOn(s, sep)[1..]
  {
    var n := UntilChar(s, sep);
    first, rest := s[..n], "";
    if n < |s| {
      rest := s[n + 1..];
      assert s == first + [sep] + rest;
    } else {
      assert s[..n] == s;
    }
  }

  /** Two or three fields are a number, a count and perhaps a checksum. */
  lemma FieldsAre(text: string) returns (tail: string)
    requires |SplitOn(text, ',')| in {2, 3}
    ensures text == SplitOn(text, ',')[0] + "," + SplitOn(text, ',')[1] + tail && Checksum(tail)
  {
    hide SplitOn;
    var fields := SplitOn(text, ',');
    var first, rest := SplitRest(text, ',');
    var second, last := SplitRest(rest, ',');
    assert SplitOn(rest, ',') == fields[1..];
    if |fields| == 2 {
      tail := "";
      assert text == fields[0] + "," + fields[1] + tail;
    } else {
      var a, b := SplitRest(last, ',');
      assert SplitOn(last, ',') == fields[1..][1..];
      tail := "," + last;
      assert tail[1..] == last;
      assert text == fields[0] + "," + fields[1] + tail;
    }
  }

  lemma FieldsOf(number: string, count: string, tail: string)
    requires ',' !in number && ',' !in count && Checksum(tail)
    ensures var fields := SplitOn(number + "," + count + tail, ',');
      |fields| in {2, 3} && fields[0] == number && fields[1] == count
  {
    hide SplitOn;
    if tail == "" {
      assert number + "," + count + tail == number + [','] + count;
      SplitMore(number, ',', count);
      SplitOne(count, ',');
    } else {
      assert tail == [','] + tail[1..];
      assert number + "," + count + tail == number + [','] + (count + [','] + tail[1..]);
      SplitMore(number, ',', count + [','] + tail[1..]);
      SplitMore(count, ',', tail[1..]);
      SplitOne(tail[1..], ',');
    }
  }

  lemma DataIs(line: string, n: nat, c: nat)
    requires n > 0
    ensures EntryOf(line) == Field(LineAt(n), c) <==> DataOf(line, n, c)
  {
    hide Unsigned, SplitOn, Checksum;
    if EntryOf(line) == Field(LineAt(n), c) {
      var text := line[3..];
      assert line == "DA:" + text;
      var fields := SplitOn(text, ',');
      var tail := FieldsAre(text);
      assert line == "DA:" + fields[0] + "," + fields[1] + tail;
      assert DataParts(line, fields[0], fields[1], tail);
    }
    if DataOf(line, n, c) {
      var number, count, tail :| DataParts(line, number, count, tail)
        && Unsigned(number) == Some(n) && Unsigned(count) == Some(c);
      NoComma(number);
      NoComma(count);
      FieldsOf(number, count, tail);
      var text := number + "," + count + tail;
      assert line == "DA:" + text;
      ClassifyFields(text);
    }
  }

  lemma SummaryIs(line: string, n: nat)
    ensures EntryOf(line) == Field(FoundKey, n) <==> FoundOf(line, n)
    ensures EntryOf(line) == Field(HitKey, n) <==> HitOf(line, n)
  {
    hide Unsigned, SplitOn;
    if StartsWith(line, "LF:") { assert line[0] == line[..3][0] == 'L' && line[1] == line[..3][1] == 'F'; }
    if StartsWith(line, "LH:") { assert line[0] == line[..3][0] == 'L' && line[1] == line[..3][1] == 'H'; }
    if StartsWith(line, "SF:") { assert line[0] == line[..3][0] == 'S'; }
    if StartsWith(line, "DA:") { assert line[0] == line[..3][0] == 'D'; }
    assert "end_of_record"[0] == 'e';
  }

  /** The reader takes a line for a record exactly when it is one. */
  lemma EntryExact(line: string, key: Key, value: nat)
    ensures EntryOf(line) == Field(key, value) <==> Records(line, key, value)
    ensures EntryOf(line) == Noise <==> Ignored(line) || Note(line)
  {
    hide EntryOf, DataOf, FoundOf, HitOf, Note;
    match key {
      case LineAt(n) => if n > 0 { DataIs(line, n, value); } else { NeverZero(line, value); }
      case FoundKey => SummaryIs(line, value);
      case HitKey => SummaryIs(line, value);
    }
    NoiseIs(line);
  }

  lemma NeverZero(line: string, value: nat)
    ensures EntryOf(line) != Field(LineAt(0), value)
  {
  }

  lemma NoiseIs(line: string)
    ensures EntryOf(line) == Noise <==> Ignored(line) || Note(line)
  {
    hide Unsigned, SplitOn, Note;
    NoteIs(line);
    assert Ignored(line) <==> Classify(line) == Skipped;
  }

  // ----- one section -----

  /** What has been read of the open section. */
  ghost function Fields(s: State): map<Key, nat> {
    map key | key in FieldKeys(s) :: (match key
      case LineAt(n) => if n in s.counts then s.counts[n] else 0
      case FoundKey => if s.lf.Some? then s.lf.value else 0
      case HitKey => if s.lh.Some? then s.lh.value else 0)
  }

  ghost function FieldKeys(s: State): set<Key> {
    (set n | n in s.counts :: LineAt(n)) + (if s.lf.Some? then {FoundKey} else {}) + if s.lh.Some? then {HitKey} else {}
  }

  lemma FieldsAt(s: State, key: Key, value: nat)
    ensures Maps(Fields(s), key, value) <==>
      match key
      case LineAt(n) => n in s.counts && s.counts[n] == value
      case FoundKey => s.lf == Some(value)
      case HitKey => s.lh == Some(value)
    ensures key in Fields(s) <==>
      match key
      case LineAt(n) => n in s.counts
      case FoundKey => s.lf.Some?
      case HitKey => s.lh.Some?
  {
  }

  /** Apart from the open section the states agree. */
  ghost predicate SameOutside(s: State, t: State) {
    t == s.(counts := t.counts, lf := t.lf, lh := t.lh)
  }

  ghost function Put(s: State, key: Key, value: nat): State {
    match key
    case LineAt(n) => s.(counts := s.counts[n := value])
    case FoundKey => s.(lf := Some(value))
    case HitKey => s.(lh := Some(value))
  }

  lemma PutFields(s: State, key: Key, value: nat)
    requires key !in Fields(s)
    ensures Fields(Put(s, key, value)) == Fields(s)[key := value] && SameOutside(s, Put(s, key, value))
  {
    hide Fields;
    var a, b := Fields(Put(s, key, value)), Fields(s)[key := value];
    forall k: Key ensures (k in a <==> k in b) && (k in a ==> a[k] == b[k]) {
      FieldsAt(s, k, 0);
      FieldsAt(Put(s, key, value), k, 0);
      if k in a { FieldsAt(Put(s, key, value), k, a[k]); }
      if k in Fields(s) { FieldsAt(s, k, Fields(s)[k]); }
    }
  }

  /** A line inside a section: refused, passed over, or put with what was read. */
  lemma SectionLine(s: State, line: string)
    requires s.source.Some? && line != "end_of_record"
    ensures Step(s, Classify(line)).Ok? <==>
      match EntryOf(line)
      case Bad => false
      case Noise => true
      case Field(key, _) => key !in Fields(s)
    ensures Step(s, Classify(line)).Ok? ==>
      Step(s, Classify(line)).value ==
        match EntryOf(line)
        case Bad => s
        case Noise => s
        case Field(key, value) => Put(s, key, value)
  {
    hide Unsigned, SplitOn, Fields;
    EndIs(line);
    match EntryOf(line) {
      case Field(key, value) => FieldsAt(s, key, value);
      case _ =>
    }
  }

  lemma EndIs(line: string)
    ensures Classify(line) == End <==> line == "end_of_record"
  {
    hide SplitOn;
    if line == "end_of_record" { ClassifyEnd(); }
  }

  /** The lines of a section are read exactly when they can be gathered, into exactly that. */
  lemma {:induction false} RunBody(s: State, body: seq<string>)
    requires s.source.Some? && "end_of_record" !in body
    ensures Run(s, body).Ok? <==> Gather(body, EntryOf, Fields(s)).Some?
    ensures Run(s, body).Ok? ==>
      SameOutside(s, Run(s, body).value) && Gather(body, EntryOf, Fields(s)) == Some(Fields(Run(s, body).value))
    decreases |body|
  {
    hide Step, Classify, EntryOf, Fields;
    if body != [] {
      var line := body[0];
      SectionLine(s, line);
      match EntryOf(line) {
        case Bad =>
        case Noise => RunBody(s, body[1..]);
        case Field(key, value) =>
          if key !in Fields(s) {
            PutFields(s, key, value);
            RunBody(Put(s, key, value), body[1..]);
          }
      }
    }
  }

  /** Every line of the body is a note or a record, and no two records have one key. */
  ghost predicate BodyOk(body: seq<string>) {
    && "end_of_record" !in body
    && (forall line :: line in body ==> Ignored(line) || Note(line) || exists key, value :: Records(line, key, value))
    && (forall j, k, key, a, b :: 0 <= j < k < |body| && Records(body[j], key, a) ==> !Records(body[k], key, b))
  }

  ghost predicate HasRecord(body: seq<string>, key: Key, value: nat) {
    exists line :: line in body && Records(line, key, value)
  }

  /** The section holds exactly the records of the body. */
  ghost predicate BodySays(body: seq<string>, x: Section) {
    && (forall n: nat, c: nat :: Maps(x.counts, n, c) <==> HasRecord(body, LineAt(n), c))
    && HasRecord(body, FoundKey, x.lf) && HasRecord(body, HitKey, x.lh)
  }

  lemma BodySets(body: seq<string>, key: Key, value: nat)
    ensures Sets(body, EntryOf, key, value) <==> HasRecord(body, key, value)
  {
    hide EntryOf, Records;
    if k :| 0 <= k < |body| && EntryOf(body[k]) == Field(key, value) { EntryExact(body[k], key, value); }
    if line :| line in body && Records(line, key, value) {
      EntryExact(line, key, value);
      var k :| 0 <= k < |body| && body[k] == line;
    }
  }

  lemma BodyGathers(body: seq<string>)
    requires "end_of_record" !in body
    ensures Gatherable(body, EntryOf, map[]) <==> BodyOk(body)
  {
    hide EntryOf, Records, Note, Ignored;
    forall line, key, value: nat ensures EntryOf(line) == Field(key, value) <==> Records(line, key, value) {
      EntryExact(line, key, value);
    }
    forall line ensures EntryOf(line) == Noise <==> Ignored(line) || Note(line) { EntryExact(line, FoundKey, 0); }
    forall line ensures EntryOf(line).Field? <==> exists key, value :: Records(line, key, value) {
      if EntryOf(line).Field? { assert EntryOf(line) == Field(EntryOf(line).key, EntryOf(line).value); }
    }
    if Gatherable(body, EntryOf, map[]) { GatheredBody(body); }
  }

  lemma GatheredBody(body: seq<string>)
    requires "end_of_record" !in body && Gatherable(body, EntryOf, map[])
    ensures BodyOk(body)
  {
    hide EntryOf, Records, Note, Ignored;
    forall line | line in body ensures Ignored(line) || Note(line) || exists key, value :: Records(line, key, value) {
      var k :| 0 <= k < |body| && body[k] == line;
      EntryExact(line, FoundKey, 0);
      var e := EntryOf(line);
      if e.Field? { EntryExact(line, e.key, e.value); }
    }
    forall j, k, key, a, b | 0 <= j < k < |body| && Records(body[j], key, a) ensures !Records(body[k], key, b) {
      EntryExact(body[j], key, a);
      EntryExact(body[k], key, b);
    }
  }

  lemma RecordOnce(body: seq<string>, key: Key, a: nat, b: nat)
    requires BodyOk(body) && HasRecord(body, key, a) && HasRecord(body, key, b)
    ensures a == b
  {
    hide Records;
    var l, m :| l in body && Records(l, key, a) && m in body && Records(m, key, b);
    var j, k :| 0 <= j < |body| && body[j] == l && 0 <= k < |body| && body[k] == m;
    if j == k {
      EntryExact(l, key, a);
      EntryExact(l, key, b);
    }
  }

  lemma SaysOnce(body: seq<string>, x: Section, y: Section)
    requires BodyOk(body) && BodySays(body, x) && BodySays(body, y)
    ensures x == y
  {
    hide HasRecord, BodyOk;
    RecordOnce(body, FoundKey, x.lf, y.lf);
    RecordOnce(body, HitKey, x.lh, y.lh);
    SameMap(x.counts, y.counts);
  }

  /** A section just opened. */
  ghost predicate Opened(s: State) {
    s.source.Some? && s.counts == map[] && s.lf == None && s.lh == None
  }

  lemma OpenedFields(s: State)
    requires Opened(s)
    ensures Fields(s) == map[]
  {
  }

  lemma FieldsSay(s: State, body: seq<string>, t: State)
    requires Gathers(body, EntryOf, map[], Fields(t))
    ensures forall key, value :: Maps(Fields(t), key, value) <==> HasRecord(body, key, value)
    ensures t.lf.Some? && t.lh.Some? ==> BodySays(body, Section(t.counts, t.lf.value, t.lh.value))
    ensures t.lf.None? ==> forall v :: !HasRecord(body, FoundKey, v)
    ensures t.lh.None? ==> forall v :: !HasRecord(body, HitKey, v)
  {
    hide HasRecord, Fields, EntryOf;
    forall key, value: nat ensures Maps(Fields(t), key, value) <==> HasRecord(body, key, value) {
      BodySets(body, key, value);
      assert !Maps(map[], key, value);
    }
    forall n: nat, c: nat ensures Maps(t.counts, n, c) <==> Maps(Fields(t), LineAt(n), c) { FieldsAt(t, LineAt(n), c); }
    forall v: nat ensures t.lf == Some(v) <==> Maps(Fields(t), FoundKey, v) { FieldsAt(t, FoundKey, v); }
    forall v: nat ensures t.lh == Some(v) <==> Maps(Fields(t), HitKey, v) { FieldsAt(t, HitKey, v); }
  }

  /** From an opened section on: the body is read exactly when it is well formed, and then as it says. */
  lemma BodyExact(s: State, body: seq<string>)
    requires Opened(s) && "end_of_record" !in body
    ensures Run(s, body).Ok? <==> BodyOk(body)
    ensures Run(s, body).Ok? ==>
      var t := Run(s, body).value;
      && SameOutside(s, t)
      && (t.lf.Some? && t.lh.Some? ==> BodySays(body, Section(t.counts, t.lf.value, t.lh.value)))
      && (t.lf.None? ==> forall v :: !HasRecord(body, FoundKey, v))
      && (t.lh.None? ==> forall v :: !HasRecord(body, HitKey, v))
  {
    hide BodyOk, Fields, EntryOf, HasRecord, BodySays, Gatherable, Gathers, Run;
    OpenedFields(s);
    RunBody(s, body);
    GatherExact(body, EntryOf, Fields(s));
    BodyGathers(body);
    if Run(s, body).Ok? { FieldsSay(s, body, Run(s, body).value); }
  }

  /** A section that may stand in a report, with what it holds. */
  ghost predicate BlockSays(body: seq<string>, x: Section) {
    BodyOk(body) && BodySays(body, x) && x.lh <= x.lf && (x.lf > 0 ==> x.counts != map[])
  }

  ghost function BlockLines(name: string, body: seq<string>): seq<string> {
    ["SF:" + name] + body + ["end_of_record"]
  }

  ghost predicate Adds(s: State, t: State, name: string, x: Section) {
    && t.source == None && t.seen == s.seen + {name} && t.sections == s.sections[name := x]
  }

  lemma OpenBlock(s: State, name: string, rest: seq<string>)
    requires s.source == None && name != "" && name !in s.seen
    ensures var o := s.(source := Some(name), seen := s.seen + {name}, counts := map[], lf := None, lh := None);
      Run(s, ["SF:" + name] + rest) == Run(o, rest)
  {
    ClassifySource(name);
    hide Classify;
    assert (["SF:" + name] + rest)[1..] == rest;
  }

  lemma CloseBlock(t: State)
    ensures Run(t, ["end_of_record"]) == Close(t)
  {
    ClassifyEnd();
    hide Classify, Close;
    assert ["end_of_record"][1..] == [];
    assert Run(t, ["end_of_record"]) == match Close(t) { case Err(e) => Err(e) case Ok(u) => Run(u, []) };
  }

  lemma BlockExact(s: State, name: string, body: seq<string>, x: Section)
    requires s.source == None && "end_of_record" !in body
    ensures name != "" && name !in s.seen && BlockSays(body, x) ==>
      Run(s, BlockLines(name, body)).Ok? && Adds(s, Run(s, BlockLines(name, body)).value, name, x)
  {
    hide Run, BodyOk, BodySays, HasRecord, HitLines;
    if name != "" && name !in s.seen && BlockSays(body, x) {
      var o := s.(source := Some(name), seen := s.seen + {name}, counts := map[], lf := None, lh := None);
      assert BlockLines(name, body) == ["SF:" + name] + (body + ["end_of_record"]);
      OpenBlock(s, name, body + ["end_of_record"]);
      RunAppend(o, body, ["end_of_record"]);
      BodyExact(o, body);
      var t := Run(o, body).value;
      SummariesRead(body, x, t);
      SaysOnce(body, x, Section(t.counts, t.lf.value, t.lh.value));
      CloseBlock(t);
    }
  }

  lemma SummariesRead(body: seq<string>, x: Section, t: State)
    requires BodySays(body, x)
    requires t.lf.None? ==> forall v :: !HasRecord(body, FoundKey, v)
    requires t.lh.None? ==> forall v :: !HasRecord(body, HitKey, v)
    ensures t.lf.Some? && t.lh.Some?
  {
    hide HasRecord;
  }

  // ----- the whole report -----

  /** A report in parts: lines between the sections, and the sections. */
  datatype Part = Gap(line: string) | Block(name: string, body: seq<string>)

  ghost function PartLines(p: Part): seq<string> {
    match p
    case Gap(line) => [line]
    case Block(name, body) => BlockLines(name, body)
  }

  ghost function Flatten(parts: seq<Part>): seq<string> {
    if parts == [] then [] else PartLines(parts[0]) + Flatten(parts[1..])
  }

  ghost predicate PartOk(p: Part) {
    match p
    case Gap(line) => Ignored(line) || StartsWith(line, "TN:")
    case Block(name, body) => name != "" && exists x :: BlockSays(body, x)
  }

  /** Every part is in order, and no file has two sections. */
  ghost predicate PartsOk(parts: seq<Part>, seen: set<string>) {
    && (forall k :: 0 <= k < |parts| ==> PartOk(parts[k]) && (parts[k].Block? ==> parts[k].name !in seen))
    && (forall j, k :: 0 <= j < k < |parts| && parts[j].Block? && parts[k].Block? ==> parts[j].name != parts[k].name)
  }

  /** The sections that were there and those of the parts, and nothing else. */
  ghost predicate Describes(parts: seq<Part>, before: map<string, Section>, m: map<string, Section>) {
    forall name, x :: Maps(m, name, x) <==> Maps(before, name, x) || Holds(parts, name, x)
  }

  ghost predicate Holds(parts: seq<Part>, name: string, x: Section) {
    exists k :: 0 <= k < |parts| && parts[k].Block? && parts[k].name == name && BlockSays(parts[k].body, x)
  }

  lemma GapExact(s: State, line: string)
    requires s.source == None && !StartsWith(line, "SF:")
    ensures Step(s, Classify(line)).Ok? <==> Ignored(line) || StartsWith(line, "TN:")
    ensures Step(s, Classify(line)).Ok? ==> Step(s, Classify(line)).value == s
  {
    hide Unsigned, SplitOn;
    if StartsWith(line, "TN:") {
      assert line == "TN:" + line[3..];
      ClassifyTest(line[3..]);
    }
  }

  lemma PartsStep(parts: seq<Part>, seen: set<string>)
    requires parts != []
    ensures PartsOk(parts, seen) <==>
      match parts[0]
      case Gap(line) => PartOk(parts[0]) && PartsOk(parts[1..], seen)
      case Block(name, _) => PartOk(parts[0]) && name !in seen && PartsOk(parts[1..], seen + {name})
  {
    hide PartOk;
    var rest := parts[1..];
    assert forall k :: 0 <= k < |rest| ==> rest[k] == parts[k + 1];
    assert forall k :: 0 < k < |parts| ==> parts[k] == rest[k - 1];
    if parts[0].Block? && PartsOk(parts, seen) {
      forall k | 0 <= k < |rest| && rest[k].Block? ensures rest[k].name != parts[0].name {
        assert parts[k + 1] == rest[k];
      }
    }
  }

  lemma HoldsStep(parts: seq<Part>, name: string, x: Section)
    requires parts != []
    ensures Holds(parts, name, x) <==>
      || (parts[0].Block? && parts[0].name == name && BlockSays(parts[0].body, x))
      || Holds(parts[1..], name, x)
  {
    hide BlockSays;
    var rest := parts[1..];
    if k :| 0 <= k < |parts| && parts[k].Block? && parts[k].name == name && BlockSays(parts[k].body, x) {
      if k > 0 { assert rest[k - 1] == parts[k]; }
    }
    if k :| 0 <= k < |rest| && rest[k].Block? && rest[k].name == name && BlockSays(rest[k].body, x) {
      assert parts[k + 1] == rest[k];
    }
  }

  lemma BlockOnce(body: seq<string>, x: Section, y: Section)
    requires BlockSays(body, x) && BlockSays(body, y)
    ensures x == y
  {
    SaysOnce(body, x, y);
  }

  /** Reading the parts gives their sections. */
  lemma {:induction false} PartsRead(s: State, parts: seq<Part>)
    requires s.source == None && s.sections.Keys <= s.seen && PartsOk(parts, s.seen)
    ensures Run(s, Flatten(parts)).Ok?
    ensures var t := Run(s, Flatten(parts)).value; t.source == None && Describes(parts, s.sections, t.sections)
    decreases |parts|
  {
    hide PartsOk, BlockSays, Holds, Step, Classify;
    if parts == [] {
      NoParts(parts);
    } else {
      PartsStep(parts, s.seen);
      var p, rest := parts[0], parts[1..];
      RunAppend(s, PartLines(p), Flatten(rest));
      forall name, x ensures Holds(parts, name, x) <==>
        (p.Block? && p.name == name && BlockSays(p.body, x)) || Holds(rest, name, x)
      {
        HoldsStep(parts, name, x);
      }
      match p {
        case Gap(line) =>
          GapRead(s, line);
          PartsRead(s, rest);
        case Block(name, body) =>
          var x :| BlockSays(body, x);
          NoEndIn(body, x);
          BlockExact(s, name, body, x);
          var t := Run(s, BlockLines(name, body)).value;
          PartsRead(t, rest);
          SetFirst(s.sections, name, x);
          forall y | BlockSays(body, y) ensures y == x { BlockOnce(body, x, y); }
      }
    }
  }

  lemma NoEndIn(body: seq<string>, x: Section)
    requires BlockSays(body, x)
    ensures "end_of_record" !in body
  {
  }

  lemma GapRead(s: State, line: string)
    requires s.source == None && PartOk(Gap(line))
    ensures Run(s, [line]) == Ok(s)
  {
    if StartsWith(line, "TN:") { assert line[..3][0] == line[0] == 'T'; }
    assert "SF:"[0] == 'S';
    GapExact(s, line);
    assert [line][1..] == [];
  }

  lemma NoParts(parts: seq<Part>)
    requires parts == []
    ensures forall name, x :: !Holds(parts, name, x)
  {
  }

  /** Where the open section ends. */
  lemma FirstEnd(o: State, lines: seq<string>) returns (e: nat)
    requires o.source.Some? && Run(o, lines).Ok? && Run(o, lines).value.source == None
    ensures e < |lines| && lines[e] == "end_of_record" && "end_of_record" !in lines[..e]
  {
    hide Run, EntryOf, Fields;
    if "end_of_record" !in lines { RunBody(o, lines); }
    e := 0;
    while lines[e] != "end_of_record"
      invariant e < |lines| && "end_of_record" !in lines[..e] && "end_of_record" in lines[e..]
      decreases |lines| - e
    {
      assert lines[..e + 1] == lines[..e] + [lines[e]];
      assert lines[e..] == [lines[e]] + lines[e + 1..];
      e := e + 1;
    }
  }

  /** Every report that is read to its end is in parts. */
  lemma {:induction false} EveryReport(s: State, lines: seq<string>) returns (parts: seq<Part>)
    requires s.source == None && Run(s, lines).Ok? && Run(s, lines).value.source == None
    ensures Flatten(parts) == lines && PartsOk(parts, s.seen)
    decreases |lines|
  {
    hide PartsOk, BlockSays, Step, Classify, Close;
    if lines == [] {
      parts := [];
      NoPartsOk(s.seen);
    } else if !StartsWith(lines[0], "SF:") {
      GapExact(s, lines[0]);
      var rest := EveryReport(s, lines[1..]);
      parts := [Gap(lines[0])] + rest;
      assert parts[1..] == rest;
      PartsStep(parts, s.seen);
      assert [lines[0]] + lines[1..] == lines;
    } else {
      parts := FirstBlock(s, lines);
    }
  }

  lemma NoPartsOk(seen: set<string>)
    ensures PartsOk([], seen)
  {
  }

  lemma {:induction false} FirstBlock(s: State, lines: seq<string>) returns (parts: seq<Part>)
    requires s.source == None && Run(s, lines).Ok? && Run(s, lines).value.source == None
    requires lines != [] && StartsWith(lines[0], "SF:")
    ensures Flatten(parts) == lines && PartsOk(parts, s.seen)
    decreases |lines|, 0
  {
    hide PartsOk, BlockSays, Run, Close;
    var name, rest := lines[0][3..], lines[1..];
    assert lines[0] == "SF:" + name && lines == ["SF:" + name] + rest;
    OpenOk(s, name, rest);
    var o := s.(source := Some(name), seen := s.seen + {name}, counts := map[], lf := None, lh := None);
    OpenBlock(s, name, rest);
    var e := FirstEnd(o, rest);
    var body, after := rest[..e], rest[e + 1..];
    assert rest == body + (["end_of_record"] + after);
    RunAppend(o, body, ["end_of_record"] + after);
    var t := Run(o, body).value;
    RunAppend(t, ["end_of_record"], after);
    CloseBlock(t);
    var u := Close(t).value;
    var x := ClosedBlock(o, body, t);
    var more := EveryReport(u, after);
    parts := [Block(name, body)] + more;
    assert parts[1..] == more;
    assert PartOk(Block(name, body));
    PartsStep(parts, s.seen);
    assert BlockLines(name, body) + after == lines;
  }

  lemma OpenOk(s: State, name: string, rest: seq<string>)
    requires s.source == None && Run(s, ["SF:" + name] + rest).Ok?
    ensures name != "" && name !in s.seen
  {
    ClassifySource(name);
    hide Classify;
  }

  lemma ClosedBlock(o: State, body: seq<string>, t: State) returns (x: Section)
    requires Opened(o) && "end_of_record" !in body && Run(o, body) == Ok(t) && Close(t).Ok?
    ensures BlockSays(body, x)
    ensures Close(t).value.source == None && Close(t).value.seen == o.seen
  {
    hide Run, BodyOk, BodySays, HasRecord, HitLines;
    BodyExact(o, body);
    x := Section(t.counts, t.lf.value, t.lh.value);
  }

  /** The figures of a report are the sums over its sections, and something is measured. */
  ghost predicate Figures(c: Coverage) {
    && Totals(c.sections, c.found, c.hit, c.mapped, c.mappedHit) && c.files == |c.sections|
    && c.found > 0 && c.mapped > 0
  }

  ghost predicate IsReport(parts: seq<Part>, lines: seq<string>, sections: map<string, Section>) {
    Flatten(parts) == lines && PartsOk(parts, {}) && Describes(parts, map[], sections)
  }

  /**
   Exactly which texts are read, and as what: the lines are sections of distinct named files with
   comments and test names between them, each section holds one record of each summary, at most
   one for a line and any notes in any order, its hits are within its lines, and something is
   measured. The coverage holds those sections and their sums.
   */
  lemma ReportExact(text: string, c: Coverage)
    ensures Read(text) == Ok(c) <==>
      Figures(c) && exists parts :: IsReport(parts, SplitLines(text), c.sections)
  {
    hide PartsOk, Flatten, SplitLines, Run, Holds, Totals, Good;
    var lines := SplitLines(text);
    NoTotals();
    if Read(text) == Ok(c) {
      var parts := EveryReport(START, lines);
      PartsRead(START, parts);
      RunKeeps(START, lines);
      FinishedFigures(Run(START, lines).value);
      assert IsReport(parts, lines, c.sections);
    }
    if Figures(c) {
      if parts :| IsReport(parts, lines, c.sections) {
        PartsRead(START, parts);
        var s := Run(START, lines).value;
        DescribedOnce(parts, s.sections, c.sections);
        RunKeeps(START, lines);
        FinishesAs(s, c);
        assert Read(text) == Finish(s);
        assert Read(text) == Ok(c);
        assert IsReport(parts, SplitLines(text), c.sections);
      }
    }
  }

  lemma FinishedFigures(s: State)
    requires Good(s) && Finish(s).Ok?
    ensures Figures(Finish(s).value)
  {
    hide Totals;
  }

  lemma DescribedOnce(parts: seq<Part>, m: map<string, Section>, n: map<string, Section>)
    requires Describes(parts, map[], m) && Describes(parts, map[], n)
    ensures m == n
  {
    hide Holds, Maps;
    SameMap(m, n);
  }

  lemma FinishesAs(s: State, c: Coverage)
    requires Good(s) && s.source == None && s.sections == c.sections && Figures(c)
    ensures Finish(s) == Ok(c)
  {
    hide SumOf;
    assert s.seen == s.sections.Keys;
    if s.seen == {} {
      assert c.sections == map[];
      SumEmpty(c.sections, Lf);
      assert false;
    }
  }
}
