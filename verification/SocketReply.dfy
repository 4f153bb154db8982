/**
 The decoder of a UNIX socket diagnostic reply: a netlink message header (section 2.3.2 of
 RFC 3549), the socket identity, and a list of aligned type-length-value attributes.
 Integers are little-endian, the byte order of the supported hosts.
 */
module SocketReply {
  import opened Prelude

  // ----- integers on the wire -----

  function Le16(n: nat): (b: Bytes)
    ensures |b| == 2
  {
    [(n % 0x100) as byte, (n / 0x100 % 0x100) as byte]
  }

  function Le32(n: nat): (b: Bytes)
    ensures |b| == 4
  {
    Le16(n % 0x10000) + Le16(n / 0x10000)
  }

  function U16(b: Bytes, i: nat): (n: nat)
    requires i + 2 <= |b|
    ensures n < 0x10000
  {
    b[i] as nat + 0x100 * b[i + 1] as nat
  }

  function U32(b: Bytes, i: nat): (n: nat)
    requires i + 4 <= |b|
    ensures n < 0x1_0000_0000
  {
    U16(b, i) + 0x10000 * U16(b, i + 2)
  }

  lemma Le16Exact(b: Bytes, i: nat, n: nat)
    requires i + 2 <= |b| && n < 0x10000
    ensures U16(b, i) == n <==> b[i..i + 2] == Le16(n)
  {
    assert b[i..i + 2] == [b[i], b[i + 1]];
    assert Le16(n)[0] as nat + 0x100 * Le16(n)[1] as nat == n;
    if U16(b, i) == n {
      assert n % 0x100 == b[i] as nat && n / 0x100 == b[i + 1] as nat;
    }
  }

  lemma Le32Exact(b: Bytes, i: nat, n: nat)
    requires i + 4 <= |b| && n < 0x1_0000_0000
    ensures U32(b, i) == n <==> b[i..i + 4] == Le32(n)
  {
    hide U16, Le16;
    var low, high := n % 0x10000, n / 0x10000;
    Le16Exact(b, i, low);
    Le16Exact(b, i + 2, high);
    var s := b[i..i + 4];
    assert b[i..i + 2] == s[..2] && b[i + 2..i + 4] == s[2..] && s == s[..2] + s[2..];
    assert Le32(n)[..2] == Le16(low) && Le32(n)[2..] == Le16(high);
    assert U32(b, i) == n <==> U16(b, i) == low && U16(b, i + 2) == high;
  }

  // ----- attributes -----

  datatype Attribute = Attribute(kind: nat, payload: Bytes, padding: Bytes) {
    predicate Valid() {
      kind < 0x10000 && 4 + |payload| < 0x10000 && |padding| == Aligned(4 + |payload|) - (4 + |payload|)
    }

    function Encode(): Bytes {
      Le16(4 + |payload|) + Le16(kind) + payload + padding
    }
  }

  function Aligned(size: nat): (a: nat)
    ensures size <= a < size + 4 && a % 4 == 0
  {
    (size + 3) / 4 * 4
  }

  const KINDS: set<nat> := {0, 1, 4, 6, 7}

  datatype Fault =
    | Boundary | IdentityMismatch | RequestLength | UnqualifiedRequest | BadErrorReply | KernelError(code: int)
    | UnexpectedMessage | WrongSocket | TruncatedHeader | TruncatedPayload | UnknownAttribute | MissingAttribute
    | WrongName | WrongSize

  /** The attributes of the remaining bytes, added to those already read. */
  function Attributes(rest: Bytes, read: map<nat, Bytes>): Result<map<nat, Bytes>, Fault>
    decreases |rest|
  {
    if rest == [] then Ok(read)
    else if |rest| < 4 then Err(TruncatedHeader)
    else
      var size, kind := U16(rest, 0), U16(rest, 2);
      if size < 4 || Aligned(size) > |rest| then Err(TruncatedPayload)
      else if kind !in KINDS || kind in read then Err(UnknownAttribute)
      else Attributes(rest[Aligned(size)..], read[kind := rest[4..size]])
  }

  function EncodeAll(attributes: seq<Attribute>): Bytes {
    if attributes == [] then [] else attributes[0].Encode() + EncodeAll(attributes[1..])
  }

  /** Attributes of known, pairwise different kinds that are not among those already read. */
  predicate Fresh(attributes: seq<Attribute>, read: set<nat>) {
    && (forall k :: 0 <= k < |attributes| ==> attributes[k].Valid() && attributes[k].kind in KINDS - read)
    && (forall j, k :: 0 <= j < k < |attributes| ==> attributes[j].kind != attributes[k].kind)
  }

  function Payloads(attributes: seq<Attribute>, read: map<nat, Bytes>): map<nat, Bytes> {
    if attributes == [] then read else Payloads(attributes[1..], read[attributes[0].kind := attributes[0].payload])
  }

  lemma EncodedFields(a: Attribute, tail: Bytes)
    requires a.Valid()
    ensures var s := a.Encode() + tail; var size := 4 + |a.payload|;
      && |s| == Aligned(size) + |tail| && U16(s, 0) == size && U16(s, 2) == a.kind
      && s[4..size] == a.payload && s[Aligned(size)..] == tail
  {
    var s := a.Encode() + tail;
    var size := 4 + |a.payload|;
    assert s[0..2] == Le16(size) && s[2..4] == Le16(a.kind);
    Le16Exact(s, 0, size);
    Le16Exact(s, 2, a.kind);
  }

  /** Encoded attributes are read back as their payloads. */
  lemma {:induction false} ReadEncoded(attributes: seq<Attribute>, read: map<nat, Bytes>)
    requires Fresh(attributes, read.Keys)
    ensures Attributes(EncodeAll(attributes), read) == Ok(Payloads(attributes, read))
    decreases |attributes|
  {
    if attributes != [] {
      var a := attributes[0];
      EncodedFields(a, EncodeAll(attributes[1..]));
      ReadEncoded(attributes[1..], read[a.kind := a.payload]);
    }
  }

  function Head(rest: Bytes): Attribute
    requires |rest| >= 4 && 4 <= U16(rest, 0) && Aligned(U16(rest, 0)) <= |rest|
  {
    var size := U16(rest, 0);
    Attribute(U16(rest, 2), rest[4..size], rest[size..Aligned(size)])
  }

  lemma HeadWasEncoded(rest: Bytes)
    requires |rest| >= 4 && 4 <= U16(rest, 0) && Aligned(U16(rest, 0)) <= |rest|
    ensures Head(rest).Valid() && rest == Head(rest).Encode() + rest[Aligned(U16(rest, 0))..]
  {
    var size, kind := U16(rest, 0), U16(rest, 2);
    Le16Exact(rest, 0, size);
    Le16Exact(rest, 2, kind);
    assert rest == rest[0..2] + rest[2..4] + rest[4..size] + rest[size..Aligned(size)] + rest[Aligned(size)..];
  }

  lemma FreshCons(a: Attribute, others: seq<Attribute>, read: set<nat>)
    requires a.Valid() && a.kind in KINDS - read && Fresh(others, read + {a.kind})
    ensures Fresh([a] + others, read)
  {
    var all := [a] + others;
    forall k | 0 <= k < |all| ensures all[k].Valid() && all[k].kind in KINDS - read {
      if k > 0 { assert all[k] == others[k - 1]; }
    }
    forall j, k | 0 <= j < k < |all| ensures all[j].kind != all[k].kind {
      assert all[k] == others[k - 1];
      if j > 0 { assert all[j] == others[j - 1]; }
    }
  }

  /** Whatever reads as attributes was encoded from a list of them. */
  lemma {:induction false} WasEncoded(rest: Bytes, read: map<nat, Bytes>) returns (attributes: seq<Attribute>)
    requires Attributes(rest, read).Ok?
    ensures rest == EncodeAll(attributes) && Fresh(attributes, read.Keys)
    ensures Attributes(rest, read).value == Payloads(attributes, read)
    decreases |rest|
  {
    hide Fresh, Attribute.Valid, Attribute.Encode;
    if rest == [] {
      attributes := [];
      NothingFresh(read.Keys);
    } else {
      var a := Head(rest);
      var tail := rest[Aligned(U16(rest, 0))..];
      HeadWasEncoded(rest);
      var others := WasEncoded(tail, read[a.kind := a.payload]);
      assert read[a.kind := a.payload].Keys == read.Keys + {a.kind};
      FreshCons(a, others, read.Keys);
      attributes := [a] + others;
      assert attributes[1..] == others;
    }
  }

  lemma NothingFresh(read: set<nat>)
    ensures Fresh([], read)
  {
  }

  // ----- the whole message -----

  /** What the caller asked about and how the reply arrived. */
  datatype Query = Query(sender: (int, int), msgFlags: int, sequence: int, port: int, inode: int,
                         low: int, high: int, name: Bytes, request: Bytes)

  datatype Listener = Listener(inode: int, low: int, high: int, name: Bytes, vfsInode: nat, vfsMajor: nat,
                               vfsMinor: nat, rqueue: nat, wqueue: nat, uid: nat, shutdown: nat)

  predicate Word(n: int) {
    0 <= n < 0x1_0000_0000
  }

  predicate Words(q: Query) {
    Word(q.sequence) && Word(q.port) && Word(q.inode) && Word(q.low) && Word(q.high)
  }

  /** A netlink message header. */
  function HeaderBytes(length: nat, kind: nat, flags: nat, sequence: nat, port: nat): (b: Bytes)
    ensures |b| == 16
  {
    Le32(length) + Le16(kind) + Le16(flags) + Le32(sequence) + Le32(port)
  }

  /** The request layout of the query. */
  function RequestBytes(q: Query): (b: Bytes)
    requires Words(q)
    ensures |b| == 40
  {
    HeaderBytes(40, 20, 1, q.sequence, q.port) +
    ([1, 0] + Le16(0) + Le32(1024) + Le32(q.inode) + Le32(83) + Le32(q.low) + Le32(q.high))
  }

  /** The fixed part of a data reply of the given length for the query's socket. */
  function FixedBytes(q: Query, length: nat): (b: Bytes)
    requires Words(q)
    ensures |b| == 32
  {
    HeaderBytes(length, 20, 0, q.sequence, q.port) + ([1, 1, 10, 0] + Le32(q.inode) + Le32(q.low) + Le32(q.high))
  }

  /** The five unpacked integers of a message header. */
  predicate HeaderIs(b: Bytes, length: int, kind: int, flags: int, sequence: int, port: int)
    requires |b| >= 16
  {
    U32(b, 0) == length && U16(b, 4) == kind && U16(b, 6) == flags && U32(b, 8) == sequence && U32(b, 12) == port
  }

  predicate QualifiedRequest(q: Query)
    requires |q.request| == 40
  {
    && HeaderIs(q.request, 40, 20, 1, q.sequence, q.port)
    && q.request[16] == 1 && q.request[17] == 0 && U16(q.request, 18) == 0 && U32(q.request, 20) == 1024
    && U32(q.request, 24) == q.inode && U32(q.request, 28) == 83 && U32(q.request, 32) == q.low
    && U32(q.request, 36) == q.high
    && 0 < q.inode <= 0xFFFF_FFFF
    && (q.low, q.high) != (0, 0) && (q.low, q.high) != (0xFFFF_FFFF, 0xFFFF_FFFF)
  }

  predicate SocketIs(data: Bytes, q: Query)
    requires |data| >= 32
  {
    && data[16] == 1 && data[17] == 1 && data[18] == 10 && data[19] == 0
    && U32(data, 20) == q.inode && U32(data, 24) == q.low && U32(data, 28) == q.high
  }

  predicate PathName(name: Bytes) {
    name != [] && 0 !in name && name[0] == 0x2F
  }

  predicate SizesFit(m: map<nat, Bytes>)
    requires m.Keys == KINDS
  {
    |m[1]| == 8 && |m[4]| == 8 && |m[6]| == 1 && |m[7]| == 4
  }

  function Describe(q: Query, m: map<nat, Bytes>): Listener
    requires m.Keys == KINDS && SizesFit(m)
  {
    var device := U32(m[1], 4);
    Listener(q.inode, q.low, q.high, q.name, U32(m[1], 0), device / 0x10_0000, device % 0x10_0000,
             U32(m[4], 0), U32(m[4], 4), U32(m[7], 0), m[6][0] as nat)
  }

  /** The split device number determines the device. */
  lemma DeviceRecombines(q: Query, m: map<nat, Bytes>)
    requires m.Keys == KINDS && SizesFit(m)
    ensures var d := Describe(q, m); d.vfsMinor < 0x10_0000 && d.vfsMajor * 0x10_0000 + d.vfsMinor == U32(m[1], 4)
  {
  }

  /** The signed 32-bit integer at `i`. */
  function I32(b: Bytes, i: nat): int
    requires i + 4 <= |b|
  {
    var n := U32(b, i);
    if n < 0x8000_0000 then n else n - 0x1_0000_0000
  }

  function DecodeError(data: Bytes, flags: nat, q: Query): Fault
    requires |data| >= 16 && |q.request| == 40
  {
    if (flags != 0 && flags != 0x100) || |data| < 36 then BadErrorReply
    else
      var error, echo := I32(data, 16), if flags == 0x100 then q.request[..16] else q.request;
      if data[20..] != echo || !(-4095 <= error < 0) then BadErrorReply else KernelError(-error)
  }

  function DecodeAttributes(data: Bytes, q: Query): Result<Listener, Fault>
    requires |data| >= 32
  {
    var m :- Attributes(data[32..], map[]);
    if m.Keys != KINDS then Err(MissingAttribute)
    else if m[0] != q.name + [0] || !PathName(q.name) then Err(WrongName)
    else if !SizesFit(m) then Err(WrongSize)
    else Ok(Describe(q, m))
  }

  function Decode(data: Bytes, q: Query): Result<Listener, Fault> {
    if q.sender != (0, 0) || q.msgFlags != 0 || !(16 <= |data| <= 65536) then Err(Boundary)
    else
      var kind, flags := U16(data, 4), U16(data, 6);
      if U32(data, 0) != |data| || U32(data, 8) != q.sequence || U32(data, 12) != q.port then Err(IdentityMismatch)
      else if |q.request| != 40 then Err(RequestLength)
      else if !QualifiedRequest(q) then Err(UnqualifiedRequest)
      else if kind == 2 then Err(DecodeError(data, flags, q))
      else if kind != 20 || flags != 0 || |data| < 32 then Err(UnexpectedMessage)
      else if !SocketIs(data, q) then Err(WrongSocket)
      else DecodeAttributes(data, q)
  }

  /** The decoder as written, with its attribute loop. */
  method DecodeSocketReply(data: Bytes, q: Query) returns (r: Result<Listener, Fault>)
    ensures r == Decode(data, q)
  {
    if q.sender != (0, 0) || q.msgFlags != 0 || !(16 <= |data| <= 65536) { return Err(Boundary); }
    var length, kind, flags := U32(data, 0), U16(data, 4), U16(data, 6);
    if length != |data| || U32(data, 8) != q.sequence || U32(data, 12) != q.port { return Err(IdentityMismatch); }
    if |q.request| != 40 { return Err(RequestLength); }
    if !QualifiedRequest(q) { return Err(UnqualifiedRequest); }
    if kind == 2 { return Err(DecodeError(data, flags, q)); }
    if kind != 20 || flags != 0 || |data| < 32 { return Err(UnexpectedMessage); }
    if !SocketIs(data, q) { return Err(WrongSocket); }
    r := ReadAttributes(data, q);
  }

  method ReadAttributes(data: Bytes, q: Query) returns (r: Result<Listener, Fault>)
    requires |data| >= 32
    ensures r == DecodeAttributes(data, q)
  {
    hide U16, SizesFit, Describe;
    var attributes: map<nat, Bytes> := map[];
    var offset := 32;
    while offset < |data|
      invariant 32 <= offset <= |data|
      invariant Attributes(data[offset..], attributes) == Attributes(data[32..], map[])
      decreases |data| - offset
    {
      ghost var rest := data[offset..];
      if |data| - offset < 4 { return Err(TruncatedHeader); }
      var size, kind := U16(data, offset), U16(data, offset + 2);
      SameIntegers(data, offset);
      if size < 4 || offset + Aligned(size) > |data| { return Err(TruncatedPayload); }
      if kind !in KINDS || kind in attributes { return Err(UnknownAttribute); }
      assert rest[4..size] == data[offset + 4..offset + size];
      assert rest[Aligned(size)..] == data[offset + Aligned(size)..];
      attributes := attributes[kind := data[offset + 4..offset + size]];
      offset := offset + Aligned(size);
    }
    assert data[offset..] == [];
    if attributes.Keys != KINDS { return Err(MissingAttribute); }
    if attributes[0] != q.name + [0] || !PathName(q.name) { return Err(WrongName); }
    var fits := SizesFit(attributes);
    if !fits { return Err(WrongSize); }
    return Ok(Describe(q, attributes));
  }

  lemma SameIntegers(data: Bytes, offset: nat)
    requires offset + 4 <= |data|
    ensures U16(data[offset..], 0) == U16(data, offset) && U16(data[offset..], 2) == U16(data, offset + 2)
  {
  }

  // ----- what is accepted -----

  lemma HeaderExact(b: Bytes, length: int, kind: int, flags: int, sequence: int, port: int)
    requires |b| >= 16 && Word(length) && 0 <= kind < 0x10000 && 0 <= flags < 0x10000 && Word(sequence) && Word(port)
    ensures HeaderIs(b, length, kind, flags, sequence, port) <==>
      b[..16] == HeaderBytes(length, kind, flags, sequence, port)
  {
    hide U16, U32, Le16, Le32;
    Le32Exact(b, 0, length);
    Le16Exact(b, 4, kind);
    Le16Exact(b, 6, flags);
    Le32Exact(b, 8, sequence);
    Le32Exact(b, 12, port);
    var h := HeaderBytes(length, kind, flags, sequence, port);
    assert h[0..4] == Le32(length) && h[4..6] == Le16(kind) && h[6..8] == Le16(flags)
        && h[8..12] == Le32(sequence) && h[12..16] == Le32(port);
    Parts16(b, h);
  }

  lemma Parts16(b: Bytes, h: Bytes)
    requires |b| >= 16 && |h| == 16
    ensures b[..16] == h <==>
      b[0..4] == h[0..4] && b[4..6] == h[4..6] && b[6..8] == h[6..8] && b[8..12] == h[8..12] && b[12..16] == h[12..16]
  {
    assert b[..16] == b[0..4] + b[4..6] + b[6..8] + b[8..12] + b[12..16];
    assert h == h[0..4] + h[4..6] + h[6..8] + h[8..12] + h[12..16];
    if b[..16] == h {
      assert b[0..4] == b[..16][0..4] && b[4..6] == b[..16][4..6] && b[6..8] == b[..16][6..8];
      assert b[8..12] == b[..16][8..12] && b[12..16] == b[..16][12..16];
    }
  }

  lemma SocketExact(data: Bytes, q: Query)
    requires |data| >= 32 && Words(q)
    ensures SocketIs(data, q) <==> data[16..32] == [1, 1, 10, 0] + Le32(q.inode) + Le32(q.low) + Le32(q.high)
  {
    hide U32, Le32;
    var d := data[16..32];
    var e := [1, 1, 10, 0] + Le32(q.inode) + Le32(q.low) + Le32(q.high);
    Le32Exact(data, 20, q.inode);
    Le32Exact(data, 24, q.low);
    Le32Exact(data, 28, q.high);
    assert data[20..24] == d[4..8] && data[24..28] == d[8..12] && data[28..32] == d[12..16];
    assert e[..4] == [1, 1, 10, 0] && e[4..8] == Le32(q.inode) && e[8..12] == Le32(q.low) && e[12..16] == Le32(q.high);
    assert d[..4] == [data[16], data[17], data[18], data[19]];
    Quarters(d, e);
  }

  lemma Quarters(d: Bytes, e: Bytes)
    requires |d| == |e| == 16
    ensures d == e <==> d[..4] == e[..4] && d[4..8] == e[4..8] && d[8..12] == e[8..12] && d[12..16] == e[12..16]
  {
    assert d == d[..4] + d[4..8] + d[8..12] + d[12..16];
    assert e == e[..4] + e[4..8] + e[8..12] + e[12..16];
  }

  /** A data reply's fixed part is accepted exactly when it is the encoded one. */
  lemma FixedExact(data: Bytes, q: Query)
    requires 32 <= |data| <= 65536 && Words(q)
    ensures HeaderIs(data, |data|, 20, 0, q.sequence, q.port) && SocketIs(data, q) <==>
      data[..32] == FixedBytes(q, |data|)
  {
    hide HeaderIs, SocketIs, HeaderBytes, Le32;
    HeaderExact(data, |data|, 20, 0, q.sequence, q.port);
    SocketExact(data, q);
    var f := FixedBytes(q, |data|);
    assert data[..32][..16] == data[..16] && data[..32][16..] == data[16..32];
    assert f[..16] == HeaderBytes(|data|, 20, 0, q.sequence, q.port);
    assert data[..32] == data[..16] + data[16..32] && f == f[..16] + f[16..];
  }

  lemma DropThenSlice(b: Bytes, start: nat, i: nat, j: nat)
    requires i <= j && start + j <= |b|
    ensures b[start..][i..j] == b[start + i..start + j]
  {
  }

  lemma RequestBodyExact(q: Query)
    requires |q.request| == 40 && Words(q)
    ensures var b := q.request;
      (b[16] == 1 && b[17] == 0 && U16(b, 18) == 0 && U32(b, 20) == 1024 && U32(b, 24) == q.inode && U32(b, 28) == 83
       && U32(b, 32) == q.low && U32(b, 36) == q.high)
      <==> b[16..] == [1, 0] + Le16(0) + Le32(1024) + Le32(q.inode) + Le32(83) + Le32(q.low) + Le32(q.high)
  {
    hide U16, U32, Le16, Le32;
    var b := q.request;
    var d := b[16..];
    var e := [1, 0] + Le16(0) + Le32(1024) + Le32(q.inode) + Le32(83) + Le32(q.low) + Le32(q.high);
    Le16Exact(b, 18, 0);
    Le32Exact(b, 20, 1024);
    Le32Exact(b, 24, q.inode);
    Le32Exact(b, 28, 83);
    Le32Exact(b, 32, q.low);
    Le32Exact(b, 36, q.high);
    DropThenSlice(b, 16, 2, 4);
    DropThenSlice(b, 16, 4, 8);
    DropThenSlice(b, 16, 8, 12);
    DropThenSlice(b, 16, 12, 16);
    DropThenSlice(b, 16, 16, 20);
    DropThenSlice(b, 16, 20, 24);
    Slices24([1, 0], Le16(0), Le32(1024), Le32(q.inode), Le32(83), Le32(q.low), Le32(q.high));
    assert d[..2] == [b[16], b[17]];
    Parts24(d, e);
  }

  lemma Slices24(a: Bytes, b: Bytes, c: Bytes, d: Bytes, f: Bytes, g: Bytes, h: Bytes)
    requires |a| == |b| == 2 && |c| == |d| == |f| == |g| == |h| == 4
    ensures var e := a + b + c + d + f + g + h;
      && |e| == 24 && e[..2] == a && e[2..4] == b && e[4..8] == c && e[8..12] == d
      && e[12..16] == f && e[16..20] == g && e[20..24] == h
  {
    var x := a + b;
    var y := x + c;
    var z := y + d;
    var u := z + f;
    var v := u + g;
    var e := v + h;
    assert e[..20] == v && e[20..] == h;
    assert v[..16] == u && v[16..] == g;
    assert u[..12] == z && u[12..] == f;
    assert z[..8] == y && z[8..] == d;
    assert y[..4] == x && y[4..] == c;
  }

  lemma Parts24(d: Bytes, e: Bytes)
    requires |d| == |e| == 24
    ensures d == e <==>
      && d[..2] == e[..2] && d[2..4] == e[2..4] && d[4..8] == e[4..8] && d[8..12] == e[8..12]
      && d[12..16] == e[12..16] && d[16..20] == e[16..20] && d[20..24] == e[20..24]
  {
    assert d == d[..2] + d[2..4] + d[4..8] + d[8..12] + d[12..16] + d[16..20] + d[20..24];
    assert e == e[..2] + e[2..4] + e[4..8] + e[8..12] + e[12..16] + e[16..20] + e[20..24];
  }

  /** The request check accepts exactly the bytes the query would send, for a usable cookie. */
  lemma RequestExact(q: Query)
    requires |q.request| == 40
    ensures QualifiedRequest(q) <==>
      && Words(q) && q.request == RequestBytes(q) && q.inode > 0
      && (q.low, q.high) != (0, 0) && (q.low, q.high) != (0xFFFF_FFFF, 0xFFFF_FFFF)
  {
    if Words(q) {
      hide HeaderIs, HeaderBytes, Le16, Le32, U16, U32;
      HeaderExact(q.request, 40, 20, 1, q.sequence, q.port);
      RequestBodyExact(q);
      var r := RequestBytes(q);
      assert r[..16] == HeaderBytes(40, 20, 1, q.sequence, q.port);
      assert q.request == q.request[..16] + q.request[16..] && r == r[..16] + r[16..];
    }
  }

  /** The message a kernel would send: the fixed part and the encoded attributes. */
  function Message(q: Query, attributes: seq<Attribute>): Bytes
    requires Words(q)
  {
    FixedBytes(q, 32 + |EncodeAll(attributes)|) + EncodeAll(attributes)
  }

  /** A received query that can be answered at all. */
  ghost predicate Answerable(q: Query) {
    q.sender == (0, 0) && q.msgFlags == 0 && |q.request| == 40 && QualifiedRequest(q)
  }

  /** Each required kind once, with the queried path name and the required sizes. */
  ghost predicate Complete(q: Query, m: map<nat, Bytes>) {
    m.Keys == KINDS && m[0] == q.name + [0] && PathName(q.name) && SizesFit(m)
  }

  ghost predicate DescribedBy(data: Bytes, q: Query, r: Listener, attributes: seq<Attribute>)
    requires Words(q)
  {
    && data == Message(q, attributes) && Fresh(attributes, {})
    && Complete(q, Payloads(attributes, map[])) && r == Describe(q, Payloads(attributes, map[]))
  }

  lemma DecodeData(data: Bytes, q: Query)
    requires Answerable(q) && 32 <= |data| <= 65536 && Words(q) && data[..32] == FixedBytes(q, |data|)
    ensures Decode(data, q) == DecodeAttributes(data, q)
  {
    hide DecodeAttributes, FixedBytes, QualifiedRequest, U16, U32, SocketIs;
    FixedExact(data, q);
  }

  lemma DecodeOkFixed(data: Bytes, q: Query)
    requires Decode(data, q).Ok?
    ensures Answerable(q) && Words(q) && 32 <= |data| <= 65536 && data[..32] == FixedBytes(q, |data|)
    ensures Decode(data, q) == DecodeAttributes(data, q)
  {
    hide DecodeAttributes, FixedBytes, QualifiedRequest, U16, U32, SocketIs;
    RequestExact(q);
    FixedExact(data, q);
  }

  /**
   A data reply decodes to `r` exactly when it is the encoding, with any padding and in any
   order, of one attribute of each required kind that `r` describes.
   */
  lemma DecodesExactly(data: Bytes, q: Query, r: Listener)
    ensures Decode(data, q) == Ok(r) <==>
      && Answerable(q) && Words(q) && |data| <= 65536
      && exists attributes :: DescribedBy(data, q, r, attributes)
  {
    hide Decode, FixedBytes, Attributes, Fresh, Payloads, SizesFit, Describe, QualifiedRequest, PathName, EncodeAll;
    var none: map<nat, Bytes> := map[];
    assert none.Keys == {};
    if Decode(data, q) == Ok(r) {
      DecodeOkFixed(data, q);
      var attributes := WasEncoded(data[32..], map[]);
      assert data == data[..32] + data[32..];
      assert DescribedBy(data, q, r, attributes);
    }
    if Answerable(q) && Words(q) && |data| <= 65536 && exists attributes :: DescribedBy(data, q, r, attributes) {
      var attributes :| DescribedBy(data, q, r, attributes);
      assert data[..32] == FixedBytes(q, |data|) && data[32..] == EncodeAll(attributes);
      DecodeData(data, q);
      ReadEncoded(attributes, map[]);
    }
  }

  ghost function Pairs(attributes: seq<Attribute>): set<(nat, Bytes)> {
    set k | 0 <= k < |attributes| :: (attributes[k].kind, attributes[k].payload)
  }

  lemma {:induction false} PayloadsArePairs(attributes: seq<Attribute>, read: map<nat, Bytes>)
    requires Fresh(attributes, read.Keys)
    ensures forall kind, payload ::
      (kind in Payloads(attributes, read) && Payloads(attributes, read)[kind] == payload)
      <==> ((kind, payload) in Pairs(attributes) || (kind in read && read[kind] == payload))
    decreases |attributes|
  {
    hide Attribute.Valid;
    if attributes != [] {
      var a, rest := attributes[0], attributes[1..];
      PayloadsArePairs(rest, read[a.kind := a.payload]);
      assert Pairs(attributes) == {(a.kind, a.payload)} + Pairs(rest) by {
        assert forall k :: 0 <= k < |rest| ==> rest[k] == attributes[k + 1];
        assert forall k :: 1 <= k < |attributes| ==> attributes[k] == rest[k - 1];
      }
    }
  }

  /** Neither the order of the attributes nor their padding bytes change what is decoded. */
  lemma OrderAndPaddingIrrelevant(q: Query, a: seq<Attribute>, b: seq<Attribute>)
    requires Answerable(q) && Words(q) && Fresh(a, {}) && Fresh(b, {}) && Pairs(a) == Pairs(b)
    requires |Message(q, a)| <= 65536 && |Message(q, b)| <= 65536
    ensures Decode(Message(q, a), q) == Decode(Message(q, b), q)
  {
    hide Decode, FixedBytes, Attributes, Fresh, Payloads, QualifiedRequest, EncodeAll, Pairs;
    var none: map<nat, Bytes> := map[];
    assert none.Keys == {};
    PayloadsArePairs(a, map[]);
    PayloadsArePairs(b, map[]);
    assert Payloads(a, map[]) == Payloads(b, map[]) by {
      var m, n := Payloads(a, map[]), Payloads(b, map[]);
      forall kind ensures kind in m <==> kind in n {
        if kind in m { assert (kind, m[kind]) in Pairs(a); }
        if kind in n { assert (kind, n[kind]) in Pairs(b); }
      }
      forall kind | kind in m ensures m[kind] == n[kind] { assert (kind, m[kind]) in Pairs(b); }
    }
    MessageDecodes(q, a);
    MessageDecodes(q, b);
  }

  lemma MessageDecodes(q: Query, a: seq<Attribute>)
    requires Answerable(q) && Words(q) && Fresh(a, {}) && |Message(q, a)| <= 65536
    ensures var m := Payloads(a, map[]);
      Decode(Message(q, a), q) ==
        if m.Keys != KINDS then Err(MissingAttribute)
        else if m[0] != q.name + [0] || !PathName(q.name) then Err(WrongName)
        else if !SizesFit(m) then Err(WrongSize)
        else Ok(Describe(q, m))
  {
    hide Decode, FixedBytes, Attributes, Fresh, Payloads, QualifiedRequest, EncodeAll, SizesFit, Describe, PathName;
    var none: map<nat, Bytes> := map[];
    assert none.Keys == {};
    var data := Message(q, a);
    assert data[..32] == FixedBytes(q, |data|) && data[32..] == EncodeAll(a);
    DecodeData(data, q);
    ReadEncoded(a, map[]);
  }
}
