/** A whole snapshot: entries with their types and expiry, framed by a header and a checksum. */
module RdbFile {
  import opened Basics
  import opened RdbCodec

  /** `expire` is Unix seconds, 0 for none. */
  datatype Entry = Entry(key: Bytes, value: Value, expire: nat)

  /** What one turn of the loading loop finds: an entry, or the database selector. */
  datatype Item = Loaded(entry: Entry) | Selector

  const EXPIRE_MS: byte := 0xFC
  const EXPIRE_S: byte := 0xFD
  const SELECT_DB: byte := 0xFE
  const END: byte := 0xFF
  const NO_ID: Bytes := [48, 45, 48]
  const HEADER: Bytes := [82, 69, 68, 73, 83, 48, 48, 48, 57]
  const MAGIC: Bytes := [82, 69, 68, 73, 83]

  // --------------------------------------------------------------------- expiry

  /** Seconds as 32 bits, written only when positive. */
  function EncExpire(e: nat): Bytes { if e > 0 then [EXPIRE_S] + ToLE(e % TWO_32, 4) else [] }

  /** Seconds are read as a signed number. A byte that starts no expiry is left in place. */
  function ReadExpire(s: Bytes): Got<int> {
    if |s| == 0 then Bad
    else if s[0] == EXPIRE_MS then ReadInt64(s[1..])
    else if s[0] == EXPIRE_S then
      match ReadLE(s[1..], 4)
      case Bad => Bad
      case Got(u, rest) => Got(if u < TWO_31 then u else u - TWO_32, rest)
    else Got(0, s)
  }

  /** The loader keeps a positive time and drops any other. */
  function Kept(expire: int): nat { if expire > 0 then expire else 0 }

  /** The 32 bits written, taken as a signed number. */
  function Signed(e: nat): int { if e % TWO_32 < TWO_31 then e % TWO_32 else e % TWO_32 - TWO_32 }

  lemma ExpireRead(e: nat, rest: Bytes)
    requires 0 < e
    ensures ReadExpire(EncExpire(e) + rest) == Got(Signed(e), rest)
  {
    hide ToLE, ReadLE, Pow256;
    Widths();
    var bits := ToLE(e % TWO_32, 4);
    DropHead([EXPIRE_S], bits + rest);
    Assoc([EXPIRE_S], bits, rest);
    ReadLEBack(e % TWO_32, 4, rest);
  }

  /** What is left of a time once it has been written and read. */
  function Reread(e: nat): nat { Kept(Signed(e)) }

  lemma RereadExact(e: nat)
    ensures Reread(e) == (if e % TWO_32 < TWO_31 then e % TWO_32 else 0)
    ensures Reread(e) == e <==> e < TWO_31
  {
    if e < TWO_32 { assert e % TWO_32 == e; }
  }

  /**
    Any expiry is read, whatever follows it. It survives exactly when it is below 2^31; above, its low
    32 bits are read, and read as no expiry when they reach 2^31.
   */
  lemma ExpiryExact(e: nat, rest: Bytes)
    requires 0 < e
    ensures ReadExpire(EncExpire(e) + rest).Got? && ReadExpire(EncExpire(e) + rest).rest == rest
    ensures Kept(ReadExpire(EncExpire(e) + rest).value) == (if e % TWO_32 < TWO_31 then e % TWO_32 else 0)
    ensures Kept(ReadExpire(EncExpire(e) + rest).value) == e <==> e < TWO_31
  {
    hide ReadExpire, EncExpire, Signed;
    ExpireRead(e, rest);
    RereadExact(e);
  }

  /** An expiry in milliseconds is read as it stands. */
  lemma MillisRead(n: int, rest: Bytes)
    requires -TWO_63 <= n < TWO_63
    ensures ReadExpire([EXPIRE_MS] + EncInt64(n) + rest) == Got(n, rest)
  {
    hide EncInt64, ReadInt64;
    Assoc([EXPIRE_MS], EncInt64(n), rest);
    DropHead([EXPIRE_MS], EncInt64(n) + rest);
    Int64Back(n, rest);
  }

  // -------------------------------------------------------------------- entries

  function TypeByte(v: Value): byte {
    match v
    case Str(_) => 0
    case List(_) => 1
    case Members(_) => 2
    case Hash(_) => 3
    case Stream(_, _) => 15
  }

  function FirstId(es: seq<StreamEntry>): Bytes { if |es| > 0 then es[0].id else NO_ID }

  function LastId(es: seq<StreamEntry>): Bytes { if |es| > 0 then es[|es| - 1].id else NO_ID }

  function EncStream(es: seq<StreamEntry>, gs: seq<Group>): Bytes {
    EncLength(|es|) + (EncPair((FirstId(es), LastId(es))) + (EncSeq(EncStreamEntry, es) + EncSeq(EncGroup, gs)))
  }

  /** The count and the two ids in front are passed over; type 5 has no groups. */
  function ReadStream(s: Bytes, groups: bool): Got<Value> {
    match ReadLength(s)
    case Bad => Bad
    case Got(_, t) =>
      match ReadPair(t)
      case Bad => Bad
      case Got(_, u) =>
        match ReadSeq(ReadStreamEntry, u)
        case Bad => Bad
        case Got(es, v) =>
          if !groups then Got(Stream(es, []), v)
          else match ReadSeq(ReadGroup, v)
            case Bad => Bad
            case Got(gs, w) => Got(Stream(es, gs), w)
  }

  predicate FitsStream(es: seq<StreamEntry>, gs: seq<Group>) {
    |es| < TWO_32 && |gs| < TWO_32 &&
    (forall i :: 0 <= i < |es| ==> FitsStreamEntry(es[i])) && (forall i :: 0 <= i < |gs| ==> FitsGroup(gs[i]))
  }

  lemma StreamBack(es: seq<StreamEntry>, gs: seq<Group>, rest: Bytes)
    requires FitsStream(es, gs)
    ensures ReadStream(EncStream(es, gs) + rest, true) == Got(Stream(es, gs), rest)
  {
    hide EncLength, ReadLength, EncPair, ReadPair, EncSeq, ReadSeq;
    var ids: Pair := (FirstId(es), LastId(es));
    var a, b := EncSeq(EncStreamEntry, es), EncSeq(EncGroup, gs);
    Assoc(EncLength(|es|), EncPair(ids) + (a + b), rest);
    Assoc(EncPair(ids), a + b, rest);
    Assoc(a, b, rest);
    LengthExact(|es|, EncPair(ids) + (a + b) + rest);
    PairTaken(ids);
    assert ReadPair(EncPair(ids) + (a + b + rest)) == Got(ids, a + b + rest);
    StreamPartsBack(es, gs, b + rest, rest);
  }

  /** The old stream type, without groups, is read as well. */
  lemma OldStreamRead(es: seq<StreamEntry>, rest: Bytes)
    requires FitsStream(es, [])
    ensures var ids: Pair := (FirstId(es), LastId(es));
            ReadValue(5, EncLength(|es|) + (EncPair(ids) + (EncSeq(EncStreamEntry, es) + rest))) == Got(Stream(es, []), rest)
  {
    hide EncLength, ReadLength, EncPair, ReadPair, EncSeq, ReadSeq;
    var ids: Pair := (FirstId(es), LastId(es));
    var a := EncSeq(EncStreamEntry, es);
    LengthExact(|es|, EncPair(ids) + (a + rest));
    PairTaken(ids);
    assert ReadPair(EncPair(ids) + (a + rest)) == Got(ids, a + rest);
    StreamPartsBack(es, [], rest, rest);
  }

  lemma StreamPartsBack(es: seq<StreamEntry>, gs: seq<Group>, s: Bytes, t: Bytes)
    requires FitsStream(es, gs)
    ensures ReadSeq(ReadStreamEntry, EncSeq(EncStreamEntry, es) + s) == Got(es, s)
    ensures ReadSeq(ReadGroup, EncSeq(EncGroup, gs) + t) == Got(gs, t)
  {
    forall i | 0 <= i < |es| ensures TakesBack(EncStreamEntry, ReadStreamEntry, es[i]) { StreamEntryTaken(es[i]); }
    forall i | 0 <= i < |gs| ensures TakesBack(EncGroup, ReadGroup, gs[i]) { GroupTaken(gs[i]); }
    SeqBack(EncStreamEntry, ReadStreamEntry, es, s);
    SeqBack(EncGroup, ReadGroup, gs, t);
  }

  function EncValue(v: Value): Bytes {
    match v
    case Str(text) => EncString(text)
    case List(items) => EncSeq(EncString, items)
    case Members(members) => EncSeq(EncString, members)
    case Hash(fields) => EncSeq(EncPair, fields)
    case Stream(es, gs) => EncStream(es, gs)
  }

  function ReadStr(s: Bytes): Got<Value> {
    match ReadString(s)
    case Bad => Bad
    case Got(text, rest) => Got(Str(text), rest)
  }

  function ReadList(s: Bytes, isList: bool): Got<Value> {
    match ReadSeq(ReadString, s)
    case Bad => Bad
    case Got(xs, rest) => Got(if isList then List(xs) else Members(xs), rest)
  }

  function ReadHash(s: Bytes): Got<Value> {
    match ReadSeq(ReadPair, s)
    case Bad => Bad
    case Got(fields, rest) => Got(Hash(fields), rest)
  }

  /** The value, by the type byte; a type the model has no value for is refused. */
  function ReadValue(t: byte, s: Bytes): Got<Value> {
    if t == 0 then ReadStr(s)
    else if t == 1 then ReadList(s, true)
    else if t == 2 then ReadList(s, false)
    else if t == 3 then ReadHash(s)
    else if t == 5 then ReadStream(s, false)
    else if t == 15 then ReadStream(s, true)
    else Bad
  }

  predicate FitsValue(v: Value) {
    match v
    case Str(text) => Short(text)
    case List(items) => |items| < TWO_32 && forall i :: 0 <= i < |items| ==> Short(items[i])
    case Members(members) => |members| < TWO_32 && forall i :: 0 <= i < |members| ==> Short(members[i])
    case Hash(fields) => |fields| < TWO_32 && forall i :: 0 <= i < |fields| ==> ShortPair(fields[i])
    case Stream(es, gs) => FitsStream(es, gs)
  }

  lemma StringsBack(xs: seq<Bytes>, rest: Bytes)
    requires |xs| < TWO_32 && forall i :: 0 <= i < |xs| ==> Short(xs[i])
    ensures ReadSeq(ReadString, EncSeq(EncString, xs) + rest) == Got(xs, rest)
  {
    forall i | 0 <= i < |xs| ensures TakesBack(EncString, ReadString, xs[i]) { StringTaken(xs[i]); }
    SeqBack(EncString, ReadString, xs, rest);
  }

  lemma PairsBack(xs: seq<Pair>, rest: Bytes)
    requires |xs| < TWO_32 && forall i :: 0 <= i < |xs| ==> ShortPair(xs[i])
    ensures ReadSeq(ReadPair, EncSeq(EncPair, xs) + rest) == Got(xs, rest)
  {
    forall i | 0 <= i < |xs| ensures TakesBack(EncPair, ReadPair, xs[i]) { PairTaken(xs[i]); }
    SeqBack(EncPair, ReadPair, xs, rest);
  }

  lemma ValueBack(v: Value, rest: Bytes)
    requires FitsValue(v)
    ensures ReadValue(TypeByte(v), EncValue(v) + rest) == Got(v, rest)
  {
    hide EncString, ReadString, EncSeq, ReadSeq, EncStream, ReadStream;
    match v
    case Str(text) => StringBack(text, rest);
    case List(items) => StringsBack(items, rest);
    case Members(members) => StringsBack(members, rest);
    case Hash(fields) => PairsBack(fields, rest);
    case Stream(es, gs) => StreamBack(es, gs, rest);
  }

  function EncEntry(e: Entry): Bytes {
    EncExpire(e.expire) + ([TypeByte(e.value)] + (EncString(e.key) + EncValue(e.value)))
  }

  /** After the expiry: the type, the key, the value. The selector's number is read as an empty key. */
  function ReadBody(s: Bytes, expire: int): Got<Item> {
    if |s| == 0 then Bad
    else match ReadString(s[1..])
      case Bad => Bad
      case Got(key, rest) =>
        if s[0] == SELECT_DB then Got(Selector, rest)
        else match ReadValue(s[0], rest)
          case Bad => Bad
          case Got(v, left) => Got(Loaded(Entry(key, v, Kept(expire))), left)
  }

  function ReadItem(s: Bytes): Got<Item> {
    match ReadExpire(s)
    case Bad => Bad
    case Got(expire, rest) => ReadBody(rest, expire)
  }

  predicate Fits(e: Entry) { Short(e.key) && FitsValue(e.value) }

  /** The entry as it is read back: whole, but for an expiry of 2^31 or more. */
  function AsRead(e: Entry): Entry { Entry(e.key, e.value, Reread(e.expire)) }

  function AllRead(es: seq<Entry>): seq<Entry> { seq(|es|, i requires 0 <= i < |es| => AsRead(es[i])) }

  lemma BodyBack(e: Entry, rest: Bytes)
    requires Fits(e)
    ensures ReadBody([TypeByte(e.value)] + (EncString(e.key) + EncValue(e.value)) + rest, Signed(e.expire)) ==
            Got(Loaded(AsRead(e)), rest)
  {
    hide EncString, ReadString, EncValue, ReadValue, FitsValue, Signed;
    var t, k, v := [TypeByte(e.value)], EncString(e.key), EncValue(e.value);
    Assoc(t, k + v, rest);
    Assoc(k, v, rest);
    DropHead(t, k + (v + rest));
    StringBack(e.key, v + rest);
    ValueBack(e.value, rest);
  }

  lemma NoExpire(t: byte, s: Bytes)
    requires t != EXPIRE_MS && t != EXPIRE_S
    ensures ReadExpire([t] + s) == Got(0, [t] + s)
  {}

  /** Every entry comes back with its type, key and value, whatever follows it; its expiry as AsRead says. */
  lemma EntryBack(e: Entry, rest: Bytes)
    requires Fits(e)
    ensures ReadItem(EncEntry(e) + rest) == Got(Loaded(AsRead(e)), rest)
  {
    hide EncString, EncValue, FitsValue, ReadBody, ReadExpire, EncExpire, AsRead;
    var t, body := TypeByte(e.value), EncString(e.key) + EncValue(e.value);
    BodyBack(e, rest);
    Assoc(EncExpire(e.expire), [t] + body, rest);
    if e.expire > 0 {
      ExpireRead(e.expire, [t] + body + rest);
    } else {
      assert EncExpire(0) == [] by { NoExpiryWritten(); }
      assert [] + ([t] + body + rest) == [t] + body + rest;
      Assoc([t], body, rest);
      NoExpire(t, body + rest);
    }
  }

  lemma NoExpiryWritten()
    ensures EncExpire(0) == []
  {}

  // ------------------------------------------------------ no reader adds to the buffer

  ghost predicate Shrinks<T>(read: Bytes -> Got<T>) {
    forall s: Bytes :: read(s).Got? ==> |read(s).rest| <= |s|
  }

  lemma {:induction false} AllShrinks<T>(read: Bytes -> Got<T>, n: nat, s: Bytes)
    requires Shrinks(read)
    ensures ReadAll(read, n, s).Got? ==> |ReadAll(read, n, s).rest| <= |s|
    decreases n
  {
    if n > 0 && read(s).Got? { AllShrinks(read, n - 1, read(s).rest); }
  }

  lemma SeqShrinks<T>(read: Bytes -> Got<T>)
    requires Shrinks(read)
    ensures forall s: Bytes :: ReadSeq(read, s).Got? ==> |ReadSeq(read, s).rest| <= |s|
  {
    forall s: Bytes ensures ReadSeq(read, s).Got? ==> |ReadSeq(read, s).rest| <= |s| {
      if ReadLength(s).Got? { AllShrinks(read, ReadLength(s).value, ReadLength(s).rest); }
    }
  }

  lemma StringShrinks()
    ensures Shrinks(ReadString) && Shrinks(ReadPair) && Shrinks(ReadInt64)
  {}

  lemma GroupsShrink()
    ensures Shrinks(ReadStreamEntry) && Shrinks(ReadConsumer) && Shrinks(ReadPending) && Shrinks(ReadGroup)
  {
    StringShrinks();
    hide ReadString, ReadPair, ReadInt64, ReadSeq;
    SeqShrinks(ReadPair);
    assert Shrinks(ReadStreamEntry);
    assert Shrinks(ReadConsumer);
    assert Shrinks(ReadPending);
    SeqShrinks(ReadConsumer);
    SeqShrinks(ReadPending);
  }

  lemma ValueShrinks(t: byte, s: Bytes)
    ensures ReadValue(t, s).Got? ==> |ReadValue(t, s).rest| <= |s|
  {
    StringShrinks();
    GroupsShrink();
    hide ReadString, ReadPair, ReadSeq, ReadStreamEntry, ReadGroup;
    SeqShrinks(ReadString);
    SeqShrinks(ReadPair);
    SeqShrinks(ReadStreamEntry);
    SeqShrinks(ReadGroup);
  }

  lemma BodyShrinks(s: Bytes, expire: int)
    ensures ReadBody(s, expire).Got? ==> |ReadBody(s, expire).rest| < |s|
  {
    StringShrinks();
    hide ReadString, ReadValue;
    if |s| > 0 && ReadString(s[1..]).Got? { ValueShrinks(s[0], ReadString(s[1..]).rest); }
  }

  lemma ItemShrinks(s: Bytes)
    ensures ReadItem(s).Got? ==> |ReadItem(s).rest| < |s|
  {
    hide ReadBody;
    if ReadExpire(s).Got? { BodyShrinks(ReadExpire(s).rest, ReadExpire(s).value); }
  }

  // ------------------------------------------------------------------ the whole file

  /** The items up to the end marker. */
  function ReadItems(s: Bytes): Got<seq<Item>>
    decreases |s|
  {
    if |s| == 0 || s[0] == END then Got([], s)
    else match ReadItem(s)
      case Bad => Bad
      case Got(item, rest) =>
        ItemShrinks(s);
        match ReadItems(rest)
        case Bad => Bad
        case Got(items, left) => Got([item] + items, left)
  }

  /** The body the encoder builds, and the file with its checksum. */
  function EncBody(es: seq<Entry>): Bytes {
    HEADER + ([SELECT_DB, 0] + (EncAll(EncEntry, es) + [END]))
  }

  function EncFile(es: seq<Entry>, crc: Bytes -> Bytes): Bytes { EncBody(es) + crc(EncBody(es)) }

  /** The snapshot's items, or None when the loader reports an error. */
  function Parse(data: Bytes, crc: Bytes -> Bytes): Option<seq<Item>> {
    if |data| < 9 || data[..5] != MAGIC then None
    else match ReadItems(data[9..])
      case Bad => None
      case Got(items, rest) =>
        if |rest| < 9 || rest[0] != END || rest[1..9] != crc(data[..|data| - 8]) then None else Some(items)
  }

  function AsItems(es: seq<Entry>): seq<Item> { seq(|es|, i requires 0 <= i < |es| => Loaded(es[i])) }

  lemma EntryStart(e: Entry)
    ensures |EncEntry(e)| > 0 && EncEntry(e)[0] != END
  {}

  lemma {:induction false} EntriesBack(es: seq<Entry>, tail: Bytes)
    requires forall i :: 0 <= i < |es| ==> Fits(es[i])
    requires |tail| > 0 && tail[0] == END
    ensures ReadItems(EncAll(EncEntry, es) + tail) == Got(AsItems(AllRead(es)), tail)
    decreases |es|
  {
    hide ReadItem, EncEntry, Fits, AsRead;
    if |es| == 0 {
      assert EncAll(EncEntry, es) + tail == tail;
    } else {
      EncAllHead(EncEntry, es);
      var head, more := EncEntry(es[0]), EncAll(EncEntry, es[1..]);
      Assoc(head, more, tail);
      EntryBack(es[0], more + tail);
      EntryStart(es[0]);
      FirstByte(head, more + tail);
      EntriesBack(es[1..], tail);
      assert AsItems(AllRead(es)) == [Loaded(AsRead(es[0]))] + AsItems(AllRead(es[1..]));
    }
  }

  lemma FirstByte(head: Bytes, tail: Bytes)
    requires |head| > 0
    ensures |head + tail| > 0 && (head + tail)[0] == head[0]
  {}

  /** The selector in front is one item of its own, with an empty key. */
  lemma SelectorRead(rest: Bytes)
    ensures ReadItem([SELECT_DB, 0] + rest) == Got(Selector, rest)
  {
    var s := [SELECT_DB, 0] + rest;
    assert s[1..] == [0] + rest;
    assert ([0] + rest)[1..] == rest;
    assert ReadString([0] + rest) == Got([], rest);
  }

  /** Every entry is read as it was written exactly when no expiry reaches 2^31. */
  lemma ReadAsWritten(es: seq<Entry>)
    ensures AllRead(es) == es <==> forall i :: 0 <= i < |es| ==> es[i].expire < TWO_31
  {
    hide Reread;
    forall i | 0 <= i < |es| ensures AllRead(es)[i] == es[i] <==> es[i].expire < TWO_31 { RereadExact(es[i].expire); }
  }

  /** Loading an encoded snapshot finds the selector and then the entries written, in order, each as AsRead says. */
  lemma FileRoundTrip(es: seq<Entry>, crc: Bytes -> Bytes)
    requires forall i :: 0 <= i < |es| ==> Fits(es[i])
    requires |crc(EncBody(es))| == 8
    ensures Parse(EncFile(es, crc), crc) == Some([Selector] + AsItems(AllRead(es)))
  {
    hide ReadItem, EncAll, Fits, AsRead;
    var sum, all := crc(EncBody(es)), EncAll(EncEntry, es);
    var data := EncFile(es, crc);
    var tail := [END] + sum;
    FileParts(HEADER, [SELECT_DB, 0], all, [END], sum);
    assert data[9..] == [SELECT_DB, 0] + (all + tail);
    EntriesBack(es, tail);
    SelectorRead(all + tail);
    assert ReadItems(data[9..]) == Got([Selector] + AsItems(AllRead(es)), tail);
    assert data[..|data| - 8] == EncBody(es) by { DropHead(EncBody(es), sum); }
  }

  /** A snapshot with another checksum than its own, or with none that is whole, is refused. */
  lemma WrongChecksumRefused(es: seq<Entry>, sum: Bytes, crc: Bytes -> Bytes)
    requires (forall i :: 0 <= i < |es| ==> Fits(es[i])) && |sum| <= 8 && sum != crc(EncBody(es))
    ensures Parse(EncBody(es) + sum, crc) == None
  {
    hide ReadItem, EncAll, Fits, AsRead;
    var all := EncAll(EncEntry, es);
    var data := EncBody(es) + sum;
    var tail := [END] + sum;
    FileParts(HEADER, [SELECT_DB, 0], all, [END], sum);
    assert data[9..] == [SELECT_DB, 0] + (all + tail);
    EntriesBack(es, tail);
    SelectorRead(all + tail);
    assert ReadItems(data[9..]) == Got([Selector] + AsItems(AllRead(es)), tail);
    if |sum| == 8 {
      assert data[..|data| - 8] == EncBody(es) by { DropHead(EncBody(es), sum); }
      assert tail[1..9] == sum;
    }
  }

  /** So is one that does not start as a snapshot does. */
  lemma NoSnapshotRefused(data: Bytes, crc: Bytes -> Bytes)
    requires |data| < 9 || data[..5] != [82, 69, 68, 73, 83]
    ensures Parse(data, crc) == None
  {}

  lemma FileParts(h: Bytes, a: Bytes, b: Bytes, c: Bytes, d: Bytes)
    ensures (h + (a + (b + c)) + d)[|h|..] == a + (b + (c + d))
    ensures (h + (a + (b + c)) + d)[..|h|] == h
  {}
}
