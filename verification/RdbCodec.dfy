/** The RDB snapshot format: what the encoder writes and how it is read back. */
module RdbCodec {
  import opened Basics

  const TWO_31: int := 0x8000_0000
  const TWO_32: int := 0x1_0000_0000
  const TWO_63: int := 0x8000_0000_0000_0000
  const TWO_64: int := 0x1_0000_0000_0000_0000

  /** What a reader gets from the front of the buffer, and what it leaves. */
  datatype Got<+T> = Bad | Got(value: T, rest: Bytes)

  // ------------------------------------------------------------- fixed-width numbers

  /** `k` little-endian bytes. */
  function ToLE(n: nat, k: nat): Bytes {
    if k == 0 then [] else [(n % 256) as byte] + ToLE(n / 256, k - 1)
  }

  function FromLE(s: Bytes): nat {
    if |s| == 0 then 0 else s[0] as int + 256 * FromLE(s[1..])
  }

  function Pow256(k: nat): nat { if k == 0 then 1 else 256 * Pow256(k - 1) }

  lemma {:induction false} LERoundTrip(n: nat, k: nat)
    requires n < Pow256(k)
    ensures |ToLE(n, k)| == k && FromLE(ToLE(n, k)) == n
    decreases k
  {
    if k > 0 { LERoundTrip(n / 256, k - 1); }
  }

  lemma Widths()
    ensures Pow256(4) == TWO_32 && Pow256(8) == TWO_64
  {
    assert Pow256(1) == 256 && Pow256(2) == 65536;
    assert Pow256(3) == 0x100_0000 && Pow256(4) == TWO_32;
    assert Pow256(5) == 0x100_0000_0000 && Pow256(6) == 0x1_0000_0000_0000;
    assert Pow256(7) == 0x100_0000_0000_0000;
  }

  function ReadLE(s: Bytes, k: nat): Got<nat> {
    if |s| < k then Bad else Got(FromLE(s[..k]), s[k..])
  }

  lemma ReadLEBack(n: nat, k: nat, rest: Bytes)
    requires n < Pow256(k)
    ensures ReadLE(ToLE(n, k) + rest, k) == Got(n, rest)
  {
    LERoundTrip(n, k);
    DropHead(ToLE(n, k), rest);
  }

  function EncInt64(x: int): Bytes { ToLE(x % TWO_64, 8) }

  function ReadInt64(s: Bytes): Got<int> {
    match ReadLE(s, 8)
    case Bad => Bad
    case Got(u, rest) => Got(if u < TWO_63 then u else u - TWO_64, rest)
  }

  lemma Int64Back(x: int, rest: Bytes)
    requires -TWO_63 <= x < TWO_63
    ensures ReadInt64(EncInt64(x) + rest) == Got(x, rest)
  {
    Widths();
    ReadLEBack(x % TWO_64, 8, rest);
  }

  // -------------------------------------------------------------------- lengths

  /** 6 bits, 14 bits, or a marker and 32 bits; a longer length is cut to 32 bits. */
  function EncLength(n: nat): Bytes {
    if n < 0x40 then [n as byte]
    else if n < 0x4000 then [(0x40 + n / 256) as byte, (n % 256) as byte]
    else [0x80] + ToLE(n % TWO_32, 4)
  }

  function ReadLength(s: Bytes): Got<nat> {
    if |s| == 0 then Bad
    else if s[0] < 0x40 then Got(s[0] as int, s[1..])
    else if s[0] < 0x80 then
      if |s| < 2 then Bad else Got((s[0] as int - 0x40) * 256 + s[1] as int, s[2..])
    else ReadLE(s[1..], 4)
  }

  lemma ShortLengthBack(n: nat, rest: Bytes)
    requires n < 0x4000
    ensures ReadLength(EncLength(n) + rest) == Got(n, rest)
  {
    var s := EncLength(n) + rest;
    if n < 0x40 {
      assert s[1..] == rest;
    } else {
      assert s[2..] == rest;
    }
  }

  lemma LongLengthBack(n: nat, rest: Bytes)
    requires n >= 0x4000
    ensures ReadLength(EncLength(n) + rest) == Got(n % TWO_32, rest)
  {
    var body := ToLE(n % TWO_32, 4);
    assert (EncLength(n) + rest)[1..] == body + rest;
    Widths();
    ReadLEBack(n % TWO_32, 4, rest);
  }

  /** A length comes back exactly when it fits 32 bits; nothing after it is touched in any case. */
  lemma LengthExact(n: nat, rest: Bytes)
    ensures ReadLength(EncLength(n) + rest).Got? && ReadLength(EncLength(n) + rest).rest == rest
    ensures ReadLength(EncLength(n) + rest).value == n <==> n < TWO_32
  {
    if n < 0x4000 { ShortLengthBack(n, rest); } else { LongLengthBack(n, rest); }
  }

  // -------------------------------------------------------------------- strings

  function EncString(s: Bytes): Bytes { EncLength(|s|) + s }

  function ReadString(s: Bytes): Got<Bytes> {
    match ReadLength(s)
    case Bad => Bad
    case Got(n, rest) => if |rest| < n then Bad else Got(rest[..n], rest[n..])
  }

  lemma StringBack(x: Bytes, rest: Bytes)
    requires |x| < TWO_32
    ensures ReadString(EncString(x) + rest) == Got(x, rest)
  {
    hide ReadLength, EncLength;
    Assoc(EncLength(|x|), x, rest);
    LengthExact(|x|, x + rest);
    DropHead(x, rest);
  }

  // ---------------------------------------------------------------------- lists

  function EncAll<T>(enc: T -> Bytes, xs: seq<T>): Bytes {
    if |xs| == 0 then [] else EncAll(enc, xs[..|xs| - 1]) + enc(xs[|xs| - 1])
  }

  function ReadAll<T>(read: Bytes -> Got<T>, n: nat, s: Bytes): Got<seq<T>> {
    if n == 0 then Got([], s)
    else match read(s)
      case Bad => Bad
      case Got(x, rest) =>
        match ReadAll(read, n - 1, rest)
        case Bad => Bad
        case Got(xs, left) => Got([x] + xs, left)
  }

  /** Whatever follows, the reader takes back exactly `x`. */
  ghost predicate TakesBack<T>(enc: T -> Bytes, read: Bytes -> Got<T>, x: T) {
    forall rest: Bytes :: read(enc(x) + rest) == Got(x, rest)
  }

  lemma {:induction false} EncAllHead<T>(enc: T -> Bytes, xs: seq<T>)
    requires |xs| > 0
    ensures EncAll(enc, xs) == enc(xs[0]) + EncAll(enc, xs[1..])
    decreases |xs|
  {
    var n := |xs| - 1;
    if n == 0 {
      assert xs[..0] == [] && xs[1..] == [];
      assert EncAll(enc, xs) == [] + enc(xs[0]);
    } else {
      EncAllHead(enc, xs[..n]);
      assert xs[1..][..n - 1] == xs[..n][1..];
      Assoc(enc(xs[0]), EncAll(enc, xs[1..n]), enc(xs[n]));
      assert xs[..n][1..] == xs[1..n];
    }
  }

  /** A sequence written element by element is read back element by element. */
  lemma {:induction false} AllBack<T>(enc: T -> Bytes, read: Bytes -> Got<T>, xs: seq<T>, rest: Bytes)
    requires forall i :: 0 <= i < |xs| ==> TakesBack(enc, read, xs[i])
    ensures ReadAll(read, |xs|, EncAll(enc, xs) + rest) == Got(xs, rest)
    decreases |xs|
  {
    if |xs| > 0 {
      EncAllHead(enc, xs);
      var tail := EncAll(enc, xs[1..]);
      Assoc(enc(xs[0]), tail, rest);
      AllBack(enc, read, xs[1..], rest);
      assert TakesBack(enc, read, xs[0]);
      assert [xs[0]] + xs[1..] == xs;
    } else {
      assert EncAll(enc, xs) + rest == rest;
    }
  }

  /** A counted sequence. */
  function EncSeq<T>(enc: T -> Bytes, xs: seq<T>): Bytes { EncLength(|xs|) + EncAll(enc, xs) }

  function ReadSeq<T>(read: Bytes -> Got<T>, s: Bytes): Got<seq<T>> {
    match ReadLength(s)
    case Bad => Bad
    case Got(n, rest) => ReadAll(read, n, rest)
  }

  lemma SeqBack<T>(enc: T -> Bytes, read: Bytes -> Got<T>, xs: seq<T>, rest: Bytes)
    requires |xs| < TWO_32 && forall i :: 0 <= i < |xs| ==> TakesBack(enc, read, xs[i])
    ensures ReadSeq(read, EncSeq(enc, xs) + rest) == Got(xs, rest)
  {
    hide ReadLength, EncLength, EncAll, ReadAll;
    Assoc(EncLength(|xs|), EncAll(enc, xs), rest);
    LengthExact(|xs|, EncAll(enc, xs) + rest);
    AllBack(enc, read, xs, rest);
  }

  // --------------------------------------------------------------------- values

  type Pair = (Bytes, Bytes)

  datatype StreamEntry = StreamEntry(id: Bytes, fields: seq<Pair>)

  datatype Consumer = Consumer(name: Bytes, lastSeen: int)

  datatype Pending = Pending(id: Bytes, consumer: Bytes, deliveries: int, lastDelivery: int)

  datatype Group = Group(name: Bytes, lastId: Bytes, consumers: seq<Consumer>, pending: seq<Pending>)

  /** A collection is the sequence its iteration gives. */
  datatype Value =
    | Str(text: Bytes)
    | List(items: seq<Bytes>)
    | Members(members: seq<Bytes>)
    | Hash(fields: seq<Pair>)
    | Stream(entries: seq<StreamEntry>, groups: seq<Group>)

  predicate Short(s: Bytes) { |s| < TWO_32 }

  predicate Is64(x: int) { -TWO_63 <= x < TWO_63 }

  predicate ShortPair(p: Pair) { Short(p.0) && Short(p.1) }

  function EncPair(p: Pair): Bytes { EncString(p.0) + EncString(p.1) }

  function ReadPair(s: Bytes): Got<Pair> {
    match ReadString(s)
    case Bad => Bad
    case Got(a, t) =>
      match ReadString(t)
      case Bad => Bad
      case Got(b, u) => Got((a, b), u)
  }

  lemma StringTaken(x: Bytes)
    requires Short(x)
    ensures TakesBack(EncString, ReadString, x)
  {
    forall rest: Bytes ensures ReadString(EncString(x) + rest) == Got(x, rest) { StringBack(x, rest); }
  }

  lemma PairTaken(p: Pair)
    requires ShortPair(p)
    ensures TakesBack(EncPair, ReadPair, p)
  {
    hide EncString, ReadString;
    forall rest: Bytes ensures ReadPair(EncPair(p) + rest) == Got(p, rest) {
      Assoc(EncString(p.0), EncString(p.1), rest);
      StringBack(p.0, EncString(p.1) + rest);
      StringBack(p.1, rest);
    }
  }

  predicate FitsStreamEntry(e: StreamEntry) {
    Short(e.id) && |e.fields| < TWO_32 && forall i :: 0 <= i < |e.fields| ==> ShortPair(e.fields[i])
  }

  function EncStreamEntry(e: StreamEntry): Bytes { EncString(e.id) + EncSeq(EncPair, e.fields) }

  function ReadStreamEntry(s: Bytes): Got<StreamEntry> {
    match ReadString(s)
    case Bad => Bad
    case Got(id, t) =>
      match ReadSeq(ReadPair, t)
      case Bad => Bad
      case Got(fields, u) => Got(StreamEntry(id, fields), u)
  }

  lemma StreamEntryTaken(e: StreamEntry)
    requires FitsStreamEntry(e)
    ensures TakesBack(EncStreamEntry, ReadStreamEntry, e)
  {
    hide EncString, ReadString, EncSeq, ReadSeq;
    forall i | 0 <= i < |e.fields| ensures TakesBack(EncPair, ReadPair, e.fields[i]) { PairTaken(e.fields[i]); }
    forall rest: Bytes ensures ReadStreamEntry(EncStreamEntry(e) + rest) == Got(e, rest) {
      Assoc(EncString(e.id), EncSeq(EncPair, e.fields), rest);
      StringBack(e.id, EncSeq(EncPair, e.fields) + rest);
      SeqBack(EncPair, ReadPair, e.fields, rest);
    }
  }

  function EncConsumer(c: Consumer): Bytes { EncString(c.name) + EncInt64(c.lastSeen) }

  function ReadConsumer(s: Bytes): Got<Consumer> {
    match ReadString(s)
    case Bad => Bad
    case Got(name, t) =>
      match ReadInt64(t)
      case Bad => Bad
      case Got(seen, u) => Got(Consumer(name, seen), u)
  }

  lemma ConsumerTaken(c: Consumer)
    requires Short(c.name) && Is64(c.lastSeen)
    ensures TakesBack(EncConsumer, ReadConsumer, c)
  {
    hide EncString, ReadString, EncInt64, ReadInt64;
    forall rest: Bytes ensures ReadConsumer(EncConsumer(c) + rest) == Got(c, rest) {
      Assoc(EncString(c.name), EncInt64(c.lastSeen), rest);
      StringBack(c.name, EncInt64(c.lastSeen) + rest);
      Int64Back(c.lastSeen, rest);
    }
  }

  function EncPending(p: Pending): Bytes {
    EncPair((p.id, p.consumer)) + (EncInt64(p.deliveries) + EncInt64(p.lastDelivery))
  }

  function ReadPending(s: Bytes): Got<Pending> {
    match ReadPair(s)
    case Bad => Bad
    case Got(ids, t) =>
      match ReadInt64(t)
      case Bad => Bad
      case Got(count, u) =>
        match ReadInt64(u)
        case Bad => Bad
        case Got(last, v) => Got(Pending(ids.0, ids.1, count, last), v)
  }

  lemma PendingTaken(p: Pending)
    requires Short(p.id) && Short(p.consumer) && Is64(p.deliveries) && Is64(p.lastDelivery)
    ensures TakesBack(EncPending, ReadPending, p)
  {
    hide EncPair, ReadPair, EncInt64, ReadInt64;
    var ids: Pair := (p.id, p.consumer);
    var a, b := EncInt64(p.deliveries), EncInt64(p.lastDelivery);
    PairTaken(ids);
    forall rest: Bytes ensures ReadPending(EncPending(p) + rest) == Got(p, rest) {
      Assoc(EncPair(ids), a + b, rest);
      Assoc(a, b, rest);
      assert ReadPair(EncPair(ids) + (a + b + rest)) == Got(ids, a + b + rest);
      Int64Back(p.deliveries, b + rest);
      Int64Back(p.lastDelivery, rest);
    }
  }

  predicate FitsGroup(g: Group) {
    Short(g.name) && Short(g.lastId) && |g.consumers| < TWO_32 && |g.pending| < TWO_32 &&
    (forall i :: 0 <= i < |g.consumers| ==> Short(g.consumers[i].name) && Is64(g.consumers[i].lastSeen)) &&
    (forall i :: 0 <= i < |g.pending| ==>
      Short(g.pending[i].id) && Short(g.pending[i].consumer) && Is64(g.pending[i].deliveries) && Is64(g.pending[i].lastDelivery))
  }

  function EncGroup(g: Group): Bytes {
    EncPair((g.name, g.lastId)) + (EncSeq(EncConsumer, g.consumers) + EncSeq(EncPending, g.pending))
  }

  function ReadGroup(s: Bytes): Got<Group> {
    match ReadPair(s)
    case Bad => Bad
    case Got(names, t) =>
      match ReadSeq(ReadConsumer, t)
      case Bad => Bad
      case Got(consumers, u) =>
        match ReadSeq(ReadPending, u)
        case Bad => Bad
        case Got(pending, v) => Got(Group(names.0, names.1, consumers, pending), v)
  }

  lemma GroupPartsBack(g: Group, rest: Bytes)
    requires FitsGroup(g)
    ensures ReadSeq(ReadConsumer, EncSeq(EncConsumer, g.consumers) + rest) == Got(g.consumers, rest)
    ensures ReadSeq(ReadPending, EncSeq(EncPending, g.pending) + rest) == Got(g.pending, rest)
  {
    forall i | 0 <= i < |g.consumers| ensures TakesBack(EncConsumer, ReadConsumer, g.consumers[i]) { ConsumerTaken(g.consumers[i]); }
    forall i | 0 <= i < |g.pending| ensures TakesBack(EncPending, ReadPending, g.pending[i]) { PendingTaken(g.pending[i]); }
    SeqBack(EncConsumer, ReadConsumer, g.consumers, rest);
    SeqBack(EncPending, ReadPending, g.pending, rest);
  }

  lemma GroupTaken(g: Group)
    requires FitsGroup(g)
    ensures TakesBack(EncGroup, ReadGroup, g)
  {
    hide EncPair, ReadPair, EncSeq, ReadSeq;
    var names: Pair := (g.name, g.lastId);
    var a, b := EncSeq(EncConsumer, g.consumers), EncSeq(EncPending, g.pending);
    PairTaken(names);
    forall rest: Bytes ensures ReadGroup(EncGroup(g) + rest) == Got(g, rest) {
      Assoc(EncPair(names), a + b, rest);
      Assoc(a, b, rest);
      assert ReadPair(EncPair(names) + (a + b + rest)) == Got(names, a + b + rest);
      GroupPartsBack(g, b + rest);
      GroupPartsBack(g, rest);
    }
  }
}
