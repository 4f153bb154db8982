/**
 The audit log's hash chain: the version 1 preimage with a domain tag and length prefixes,
 the legacy preimage that only concatenates texts, and what a chain's last hash fixes.
 */
module AuditChain {
  import opened Prelude

  const U64 := 0x1_0000_0000_0000_0000

  /** Big-endian in a fixed width, as `to_bytes(width, 'big')`. */
  function BigEndian(n: nat, width: nat): (b: Bytes)
    ensures |b| == width
  {
    if width == 0 then [] else BigEndian(n / 0x100, width - 1) + [(n % 0x100) as byte]
  }

  function FromBigEndian(b: Bytes): nat {
    if b == [] then 0 else FromBigEndian(b[..|b| - 1]) * 0x100 + b[|b| - 1] as nat
  }

  function Power256(width: nat): (p: nat)
    ensures p > 0
  {
    if width == 0 then 1 else 0x100 * Power256(width - 1)
  }

  lemma {:induction false} BigEndianRoundTrip(n: nat, width: nat)
    requires n < Power256(width)
    ensures FromBigEndian(BigEndian(n, width)) == n
    decreases width
  {
    if width > 0 {
      var b := BigEndian(n, width);
      assert b[..|b| - 1] == BigEndian(n / 0x100, width - 1);
      BigEndianRoundTrip(n / 0x100, width - 1);
    }
  }

  lemma EightBytes()
    ensures Power256(8) == U64
  {
    assert Power256(4) == 0x1_0000_0000;
    assert Power256(8) == 0x100 * (0x100 * (0x100 * (0x100 * Power256(4))));
  }

  // ----- the version 1 preimage -----

  function Field(f: Bytes): Bytes {
    BigEndian(|f|, 8) + f
  }

  function FieldsFrom(fields: seq<Bytes>): Bytes {
    if fields == [] then [] else Field(fields[0]) + FieldsFrom(fields[1..])
  }

  datatype Entry = Entry(id: Bytes, timestamp: Bytes, eventType: Bytes, severity: Bytes, user: Bytes,
                         resource: Bytes, description: Bytes, metadata: Bytes, previous: Bytes) {
    function Fields(): (fs: seq<Bytes>)
      ensures |fs| == 9
    {
      [id, timestamp, eventType, severity, user, resource, description, metadata, previous]
    }

    ghost predicate Encodable() {
      forall k :: 0 <= k < 9 ==> |Fields()[k]| < U64
    }
  }

  const DOMAIN: Bytes := [0xFF, 0x01]

  function Preimage(e: Entry): Bytes {
    DOMAIN + FieldsFrom(e.Fields())
  }

  /** A length-prefixed field is read back from the front of anything it precedes. */
  lemma FieldIsPrefixFree(f: Bytes, g: Bytes, x: Bytes, y: Bytes)
    requires |f| < U64 && |g| < U64 && Field(f) + x == Field(g) + y
    ensures f == g && x == y
  {
    var s, t := Field(f) + x, Field(g) + y;
    assert s[..8] == BigEndian(|f|, 8) && t[..8] == BigEndian(|g|, 8);
    EightBytes();
    BigEndianRoundTrip(|f|, 8);
    BigEndianRoundTrip(|g|, 8);
    assert s[8..8 + |f|] == f && t[8..8 + |g|] == g;
    assert s[8 + |f|..] == x && t[8 + |g|..] == y;
  }

  lemma {:induction false} FieldsArePrefixFree(f: seq<Bytes>, g: seq<Bytes>, x: Bytes, y: Bytes)
    requires |f| == |g| && FieldsFrom(f) + x == FieldsFrom(g) + y
    requires forall k :: 0 <= k < |f| ==> |f[k]| < U64 && |g[k]| < U64
    ensures f == g && x == y
    decreases |f|
  {
    hide Field;
    if f == [] {
      assert FieldsFrom(f) + x == x && FieldsFrom(g) + y == y;
    } else {
      var fx, gy := FieldsFrom(f[1..]) + x, FieldsFrom(g[1..]) + y;
      assert FieldsFrom(f) + x == Field(f[0]) + fx && FieldsFrom(g) + y == Field(g[0]) + gy;
      FieldIsPrefixFree(f[0], g[0], fx, gy);
      FieldsArePrefixFree(f[1..], g[1..], x, y);
      assert f == [f[0]] + f[1..] && g == [g[0]] + g[1..];
    }
  }

  /** Different entries have different version 1 preimages. */
  lemma PreimageInjective(a: Entry, b: Entry)
    requires a.Encodable() && b.Encodable() && Preimage(a) == Preimage(b)
    ensures a == b
  {
    var f, g := a.Fields(), b.Fields();
    assert Preimage(a)[2..] == FieldsFrom(f) && Preimage(b)[2..] == FieldsFrom(g);
    assert FieldsFrom(f) + [] == FieldsFrom(f) && FieldsFrom(g) + [] == FieldsFrom(g);
    FieldsArePrefixFree(f, g, [], []);
    assert f[0] == g[0] && f[1] == g[1] && f[2] == g[2] && f[3] == g[3] && f[4] == g[4]
        && f[5] == g[5] && f[6] == g[6] && f[7] == g[7] && f[8] == g[8];
  }

  // ----- the legacy preimage -----

  /** One character in UTF-8 (section 3 of RFC 3629). */
  function Utf8Char(c: char): (b: Bytes)
    ensures b != [] && forall k :: 0 <= k < |b| ==> b[k] < 0xF8
  {
    var n := c as int;
    if n < 0x80 then [n as byte]
    else if n < 0x800 then [(0xC0 + n / 0x40) as byte, (0x80 + n % 0x40) as byte]
    else if n < 0x10000 then [(0xE0 + n / 0x1000) as byte, (0x80 + n / 0x40 % 0x40) as byte, (0x80 + n % 0x40) as byte]
    else [(0xF0 + n / 0x40000) as byte, (0x80 + n / 0x1000 % 0x40) as byte,
          (0x80 + n / 0x40 % 0x40) as byte, (0x80 + n % 0x40) as byte]
  }

  function Utf8(s: string): (b: Bytes)
    ensures forall k :: 0 <= k < |b| ==> b[k] < 0xF8
    ensures s != "" ==> b != []
  {
    if s == "" then [] else Utf8Char(s[0]) + Utf8(s[1..])
  }

  datatype Legacy = Legacy(id: string, timestamp: string, eventType: string, severity: string, user: string,
                           resource: string, description: string, previous: string)

  function LegacyPreimage(r: Legacy): Bytes {
    Utf8(Joined(r))
  }

  /** No legacy record hashes the same bytes as a version 1 entry: text has no byte 0xFF. */
  lemma DomainsAreDisjoint(e: Entry, r: Legacy)
    ensures Preimage(e) != LegacyPreimage(r)
  {
    assert Preimage(e)[0] == 0xFF;
  }

  /** Concatenation loses the field boundaries, which version 1 keeps. */
  lemma LegacyIsAmbiguous()
    ensures exists a: Legacy, b: Legacy :: a != b && LegacyPreimage(a) == LegacyPreimage(b)
  {
    var time := "2025-01-01T00:00:01Z";
    var a := Legacy("fixture-1", time, "PolicyViolation", "Error", "fixture", "package-1", "0 findings", "genesis");
    var b := Legacy("fixture-1", time, "PolicyViolation", "Error", "fixture", "package-10", " findings", "genesis");
    hide Utf8;
    var c := a.id + a.timestamp + a.eventType + a.severity + a.user;
    assert a.resource + a.description == "package-10 findings" == b.resource + b.description;
    assert Joined(a) == c + (a.resource + a.description) + a.previous;
    assert Joined(b) == c + (b.resource + b.description) + b.previous;
    assert a.resource != b.resource;
    assert a != b && LegacyPreimage(a) == LegacyPreimage(b);
  }

  function Joined(r: Legacy): string {
    r.id + r.timestamp + r.eventType + r.severity + r.user + r.resource + r.description + r.previous
  }

  lemma LeadByte(c: char)
    ensures var b, n := Utf8Char(c), c as int;
      && (|b| == 1 <==> n < 0x80) && (|b| == 2 <==> 0x80 <= n < 0x800) && (|b| == 3 <==> 0x800 <= n < 0x10000)
      && (|b| == 1 <==> b[0] < 0x80) && (|b| == 2 <==> 0xC0 <= b[0] < 0xE0) && (|b| == 3 <==> 0xE0 <= b[0] < 0xF0)
      && 1 <= |b| <= 4 && (|b| == 4 <==> 0xF0 <= b[0])
  {
  }

  /** The code point of an encoded character. */
  function Decoded(b: Bytes): int {
    if |b| == 1 then b[0] as int
    else if |b| == 2 then (b[0] as int - 0xC0) * 0x40 + (b[1] as int - 0x80)
    else if |b| == 3 then (b[0] as int - 0xE0) * 0x1000 + (b[1] as int - 0x80) * 0x40 + (b[2] as int - 0x80)
    else if |b| == 4 then
      (b[0] as int - 0xF0) * 0x40000 + (b[1] as int - 0x80) * 0x1000
      + (b[2] as int - 0x80) * 0x40 + (b[3] as int - 0x80)
    else 0
  }

  lemma CharRoundTrip(c: char)
    ensures Decoded(Utf8Char(c)) == c as int
  {
    var n := c as int;
    assert n == n / 0x40 * 0x40 + n % 0x40;
    assert n / 0x40 == n / 0x40 / 0x40 * 0x40 + n / 0x40 % 0x40;
    assert n / 0x1000 == n / 0x1000 / 0x40 * 0x40 + n / 0x1000 % 0x40;
    assert n / 0x40 / 0x40 == n / 0x1000 && n / 0x1000 / 0x40 == n / 0x40000;
  }

  lemma CharIsPrefixFree(c: char, d: char, x: Bytes, y: Bytes)
    requires Utf8Char(c) + x == Utf8Char(d) + y
    ensures c == d && x == y
  {
    hide Utf8Char, Decoded;
    var a, b := Utf8Char(c), Utf8Char(d);
    LeadByte(c);
    LeadByte(d);
    assert a[0] == (a + x)[0] == (b + y)[0] == b[0];
    assert |a| == |b|;
    assert a == (a + x)[..|a|] == (b + y)[..|b|] == b;
    CharRoundTrip(c);
    CharRoundTrip(d);
    assert x == (a + x)[|a|..] == (b + y)[|b|..] == y;
  }

  lemma {:induction false} Utf8Injective(s: string, t: string)
    requires Utf8(s) == Utf8(t)
    ensures s == t
  {
    hide Utf8Char;
    if s != "" && t != "" {
      CharIsPrefixFree(s[0], t[0], Utf8(s[1..]), Utf8(t[1..]));
      Utf8Injective(s[1..], t[1..]);
      assert s == [s[0]] + s[1..] && t == [t[0]] + t[1..];
    }
  }

  ghost predicate SameWidths(a: Legacy, b: Legacy) {
    && |a.id| == |b.id| && |a.timestamp| == |b.timestamp| && |a.eventType| == |b.eventType|
    && |a.severity| == |b.severity|
    && |a.user| == |b.user| && |a.resource| == |b.resource| && |a.description| == |b.description|
  }

  lemma Halves(a: string, b: string, x: string, y: string)
    requires a + x == b + y && |a| == |b|
    ensures a == b && x == y
  {
    assert a == (a + x)[..|a|] && b == (b + y)[..|b|] && x == (a + x)[|a|..] && y == (b + y)[|b|..];
  }

  /**
   Two legacy records share a preimage exactly when they read the same without boundaries; with
   equal widths, exactly when they are equal.
   */
  lemma LegacyExact(a: Legacy, b: Legacy)
    ensures LegacyPreimage(a) == LegacyPreimage(b) <==> Joined(a) == Joined(b)
    ensures SameWidths(a, b) ==> (LegacyPreimage(a) == LegacyPreimage(b) <==> a == b)
  {
    hide Utf8;
    if LegacyPreimage(a) == LegacyPreimage(b) {
      Utf8Injective(Joined(a), Joined(b));
      if SameWidths(a, b) { SplitJoined(a, b); }
    }
  }

  lemma SplitJoined(a: Legacy, b: Legacy)
    requires SameWidths(a, b) && Joined(a) == Joined(b)
    ensures a == b
  {
    var p2, q2 := a.id + a.timestamp, b.id + b.timestamp;
    var p3, q3 := p2 + a.eventType, q2 + b.eventType;
    var p4, q4 := p3 + a.severity, q3 + b.severity;
    var p5, q5 := p4 + a.user, q4 + b.user;
    var p6, q6 := p5 + a.resource, q5 + b.resource;
    var p7, q7 := p6 + a.description, q6 + b.description;
    Halves(p7, q7, a.previous, b.previous);
    Halves(p6, q6, a.description, b.description);
    Halves(p5, q5, a.resource, b.resource);
    Halves(p4, q4, a.user, b.user);
    Halves(p3, q3, a.severity, b.severity);
    Halves(p2, q2, a.eventType, b.eventType);
    Halves(a.id, b.id, a.timestamp, b.timestamp);
  }

  // ----- chains -----

  /** A stored entry with the hash of its preimage, as hexadecimal text. */
  datatype Link = Link(entry: Entry, hash: Bytes)

  function Previous(genesis: Bytes, chain: seq<Link>): Bytes {
    if chain == [] then genesis else chain[|chain| - 1].hash
  }

  /** Every entry names its predecessor's hash and carries the hash of its own preimage. */
  ghost predicate Chain(H: Bytes -> Bytes, genesis: Bytes, chain: seq<Link>)
    decreases |chain|
  {
    chain != [] ==>
      var before, last := chain[..|chain| - 1], chain[|chain| - 1];
      && Chain(H, genesis, before)
      && last.entry.Encodable()
      && last.entry.previous == Previous(genesis, before)
      && last.hash == H(Preimage(last.entry))
  }

  /** The events of a log, chained in order; only the link to the predecessor is filled in. */
  method AuditEntries(H: Bytes -> Bytes, genesis: Bytes, events: seq<Entry>) returns (chain: seq<Link>)
    requires |genesis| < U64 && forall k :: 0 <= k < |events| ==> events[k].Encodable()
    requires forall b :: |H(b)| < U64
    ensures |chain| == |events| && Chain(H, genesis, chain)
    ensures forall k :: 0 <= k < |events| ==>
      chain[k].entry == events[k].(previous := chain[k].entry.previous)
  {
    hide Preimage, Entry.Encodable;
    chain := [];
    var previous := genesis;
    for k := 0 to |events|
      invariant |chain| == k && Chain(H, genesis, chain) && |previous| < U64
      invariant previous == Previous(genesis, chain)
      invariant forall j :: 0 <= j < k ==> chain[j].entry == events[j].(previous := chain[j].entry.previous)
    {
      var entry := events[k].(previous := previous);
      StillEncodable(events[k], previous);
      previous := H(Preimage(entry));
      ghost var before := chain;
      chain := chain + [Link(entry, previous)];
      assert chain[..k] == before;
    }
  }

  lemma StillEncodable(e: Entry, previous: Bytes)
    requires e.Encodable() && |previous| < U64
    ensures e.(previous := previous).Encodable()
  {
    var e' := e.(previous := previous);
    forall k | 0 <= k < 9 ensures |e'.Fields()[k]| < U64 {
      assert k < 8 ==> e'.Fields()[k] == e.Fields()[k];
    }
  }

  lemma LastLink(H: Bytes -> Bytes, genesis: Bytes, c: seq<Link>)
    requires Chain(H, genesis, c) && c != []
    ensures var before, last := c[..|c| - 1], c[|c| - 1];
      && Chain(H, genesis, before) && last.entry.Encodable() && last.entry.previous == Previous(genesis, before)
      && last.hash == H(Preimage(last.entry))
  {
  }

  lemma SomeLink(H: Bytes -> Bytes, genesis: Bytes, c: seq<Link>)
    requires Chain(H, genesis, c) && forall b :: H(b) != genesis
    ensures c == [] <==> Previous(genesis, c) == genesis
  {
  }

  /**
   The last hash fixes the whole log: two chains that end in the same hash are the same chain,
   or they exhibit two different preimages with one hash. Their lengths need not agree, provided
   no hash equals the genesis value.
   */
  lemma {:induction false} LastHashFixesChain(H: Bytes -> Bytes, genesis: Bytes, c: seq<Link>, d: seq<Link>)
      returns (x: Bytes, y: Bytes)
    requires Chain(H, genesis, c) && Chain(H, genesis, d)
    requires Previous(genesis, c) == Previous(genesis, d)
    requires |c| == |d| || forall b :: H(b) != genesis
    ensures c == d || (x != y && H(x) == H(y))
    decreases |c|
  {
    hide Preimage, Entry.Encodable, Chain;
    x, y := [], [];
    if |c| != |d| {
      SomeLink(H, genesis, c);
      SomeLink(H, genesis, d);
    }
    if c != [] && d != [] {
      var m, n := |c| - 1, |d| - 1;
      LastLink(H, genesis, c);
      LastLink(H, genesis, d);
      x, y := Preimage(c[m].entry), Preimage(d[n].entry);
      if x == y {
        PreimageInjective(c[m].entry, d[n].entry);
        x, y := LastHashFixesChain(H, genesis, c[..m], d[..n]);
        assert c == c[..m] + [c[m]] && d == d[..n] + [d[n]];
      }
    }
  }
}
