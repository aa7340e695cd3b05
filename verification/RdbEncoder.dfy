/** The encoder as it runs, appending to its buffer. */
module RdbEncoder {
  import opened Basics
  import opened RdbCodec
  import opened RdbFile

  lemma EncAllSnoc<T>(enc: T -> Bytes, xs: seq<T>, i: nat)
    requires i < |xs|
    ensures EncAll(enc, xs[..i + 1]) == EncAll(enc, xs[..i]) + enc(xs[i])
  {
    assert xs[..i + 1][..i] == xs[..i];
  }

  lemma Whole<T>(xs: seq<T>)
    ensures xs[..|xs|] == xs
  {}

  class RDBEncoder {
    var buf: Bytes

    constructor ()
      ensures buf == HEADER
    {
      buf := HEADER;
    }

    method WriteDatabaseSelector()
      modifies this
      ensures buf == old(buf) + [SELECT_DB, 0]
    {
      buf := buf + [SELECT_DB];
      WriteLength(0);
      assert [SELECT_DB] + [0] == [SELECT_DB, 0];
    }

    method WriteLength(n: nat)
      modifies this
      ensures buf == old(buf) + EncLength(n)
    {
      if n < 0x40 {
        buf := buf + [n as byte];
      } else if n < 0x4000 {
        buf := buf + [(0x40 + n / 256) as byte];
        buf := buf + [(n % 256) as byte];
      } else {
        buf := buf + [0x80];
        buf := buf + ToLE(n % TWO_32, 4);
      }
    }

    method WriteString(s: Bytes)
      modifies this
      ensures buf == old(buf) + EncString(s)
    {
      WriteLength(|s|);
      buf := buf + s;
      Assoc(old(buf), EncLength(|s|), s);
    }

    method WriteExpire(e: nat)
      modifies this
      ensures buf == old(buf) + EncExpire(e)
    {
      if e > 0 {
        buf := buf + [EXPIRE_S];
        buf := buf + ToLE(e % TWO_32, 4);
      }
    }

    /** The common front of every entry. */
    method WriteFront(key: Bytes, t: byte, e: nat)
      modifies this
      ensures buf == old(buf) + (EncExpire(e) + ([t] + EncString(key)))
    {
      hide EncExpire, EncString;
      WriteExpire(e);
      buf := buf + [t];
      WriteString(key);
      Assoc(old(buf) + EncExpire(e), [t], EncString(key));
      Assoc(old(buf), EncExpire(e), [t] + EncString(key));
    }

    method WriteStringKeyValue(key: Bytes, value: Bytes, e: nat)
      modifies this
      ensures buf == old(buf) + EncEntry(Entry(key, Str(value), e))
    {
      hide EncExpire, EncString;
      WriteFront(key, 0, e);
      WriteString(value);
      Front(old(buf), EncExpire(e), [0], EncString(key), EncString(value));
    }

    /** The loop over the items of a list or the members of a set. */
    method WriteStrings(xs: seq<Bytes>)
      modifies this
      ensures buf == old(buf) + EncSeq(EncString, xs)
    {
      hide EncLength, EncString, EncAll;
      WriteLength(|xs|);
      ghost var start := buf;
      var i := 0;
      EmptyAll(EncString, xs, start);
      while i < |xs|
        invariant 0 <= i <= |xs| && buf == start + EncAll(EncString, xs[..i])
      {
        WriteString(xs[i]);
        EncAllSnoc(EncString, xs, i);
        Assoc(start, EncAll(EncString, xs[..i]), EncString(xs[i]));
        i := i + 1;
      }
      Whole(xs);
      Assoc(old(buf), EncLength(|xs|), EncAll(EncString, xs));
    }

    method WriteListKeyValue(key: Bytes, values: seq<Bytes>, e: nat)
      modifies this
      ensures buf == old(buf) + EncEntry(Entry(key, List(values), e))
    {
      hide EncExpire, EncString, EncSeq;
      WriteFront(key, 1, e);
      WriteStrings(values);
      Front(old(buf), EncExpire(e), [1], EncString(key), EncSeq(EncString, values));
    }

    method WriteSetKeyValue(key: Bytes, members: seq<Bytes>, e: nat)
      modifies this
      ensures buf == old(buf) + EncEntry(Entry(key, Members(members), e))
    {
      hide EncExpire, EncString, EncSeq;
      WriteFront(key, 2, e);
      WriteStrings(members);
      Front(old(buf), EncExpire(e), [2], EncString(key), EncSeq(EncString, members));
    }

    method WritePairs(xs: seq<Pair>)
      modifies this
      ensures buf == old(buf) + EncSeq(EncPair, xs)
    {
      hide EncLength, EncString, EncAll;
      WriteLength(|xs|);
      ghost var start := buf;
      var i := 0;
      EmptyAll(EncPair, xs, start);
      while i < |xs|
        invariant 0 <= i <= |xs| && buf == start + EncAll(EncPair, xs[..i])
      {
        WriteString(xs[i].0);
        WriteString(xs[i].1);
        EncAllSnoc(EncPair, xs, i);
        Assoc(start + EncAll(EncPair, xs[..i]), EncString(xs[i].0), EncString(xs[i].1));
        Assoc(start, EncAll(EncPair, xs[..i]), EncPair(xs[i]));
        i := i + 1;
      }
      Whole(xs);
      Assoc(old(buf), EncLength(|xs|), EncAll(EncPair, xs));
    }

    method WriteHashKeyValue(key: Bytes, fields: seq<Pair>, e: nat)
      modifies this
      ensures buf == old(buf) + EncEntry(Entry(key, Hash(fields), e))
    {
      hide EncExpire, EncString, EncSeq;
      WriteFront(key, 3, e);
      WritePairs(fields);
      Front(old(buf), EncExpire(e), [3], EncString(key), EncSeq(EncPair, fields));
    }

    method WriteInt64(x: int)
      modifies this
      ensures buf == old(buf) + EncInt64(x)
    {
      buf := buf + ToLE(x % TWO_64, 8);
    }

    method WriteStreamEntry(e: StreamEntry)
      modifies this
      ensures buf == old(buf) + EncStreamEntry(e)
    {
      hide EncString, EncSeq;
      WriteString(e.id);
      WritePairs(e.fields);
      Assoc(old(buf), EncString(e.id), EncSeq(EncPair, e.fields));
    }

    method WriteConsumer(c: Consumer)
      modifies this
      ensures buf == old(buf) + EncConsumer(c)
    {
      hide EncString, EncInt64;
      WriteString(c.name);
      WriteInt64(c.lastSeen);
      Assoc(old(buf), EncString(c.name), EncInt64(c.lastSeen));
    }

    method WritePair(a: Bytes, b: Bytes)
      modifies this
      ensures buf == old(buf) + EncPair((a, b))
    {
      hide EncString;
      WriteString(a);
      WriteString(b);
      Assoc(old(buf), EncString(a), EncString(b));
    }

    method WritePending(p: Pending)
      modifies this
      ensures buf == old(buf) + EncPending(p)
    {
      hide EncPair, EncInt64;
      WritePair(p.id, p.consumer);
      WriteInt64(p.deliveries);
      WriteInt64(p.lastDelivery);
      Three(old(buf), EncPair((p.id, p.consumer)), EncInt64(p.deliveries), EncInt64(p.lastDelivery));
    }

    method WriteStreamEntries(xs: seq<StreamEntry>)
      modifies this
      ensures buf == old(buf) + EncSeq(EncStreamEntry, xs)
    {
      hide EncLength, EncAll, EncStreamEntry;
      WriteLength(|xs|);
      ghost var start := buf;
      var i := 0;
      EmptyAll(EncStreamEntry, xs, start);
      while i < |xs|
        invariant 0 <= i <= |xs| && buf == start + EncAll(EncStreamEntry, xs[..i])
      {
        WriteStreamEntry(xs[i]);
        EncAllSnoc(EncStreamEntry, xs, i);
        Assoc(start, EncAll(EncStreamEntry, xs[..i]), EncStreamEntry(xs[i]));
        i := i + 1;
      }
      Whole(xs);
      Assoc(old(buf), EncLength(|xs|), EncAll(EncStreamEntry, xs));
    }

    method WriteConsumers(xs: seq<Consumer>)
      modifies this
      ensures buf == old(buf) + EncSeq(EncConsumer, xs)
    {
      hide EncLength, EncAll, EncConsumer;
      WriteLength(|xs|);
      ghost var start := buf;
      var i := 0;
      EmptyAll(EncConsumer, xs, start);
      while i < |xs|
        invariant 0 <= i <= |xs| && buf == start + EncAll(EncConsumer, xs[..i])
      {
        WriteConsumer(xs[i]);
        EncAllSnoc(EncConsumer, xs, i);
        Assoc(start, EncAll(EncConsumer, xs[..i]), EncConsumer(xs[i]));
        i := i + 1;
      }
      Whole(xs);
      Assoc(old(buf), EncLength(|xs|), EncAll(EncConsumer, xs));
    }

    method WritePendings(xs: seq<Pending>)
      modifies this
      ensures buf == old(buf) + EncSeq(EncPending, xs)
    {
      hide EncLength, EncAll, EncPending;
      WriteLength(|xs|);
      ghost var start := buf;
      var i := 0;
      EmptyAll(EncPending, xs, start);
      while i < |xs|
        invariant 0 <= i <= |xs| && buf == start + EncAll(EncPending, xs[..i])
      {
        WritePending(xs[i]);
        EncAllSnoc(EncPending, xs, i);
        Assoc(start, EncAll(EncPending, xs[..i]), EncPending(xs[i]));
        i := i + 1;
      }
      Whole(xs);
      Assoc(old(buf), EncLength(|xs|), EncAll(EncPending, xs));
    }

    method WriteGroup(g: Group)
      modifies this
      ensures buf == old(buf) + EncGroup(g)
    {
      hide EncPair, EncSeq;
      WritePair(g.name, g.lastId);
      WriteConsumers(g.consumers);
      WritePendings(g.pending);
      Three(old(buf), EncPair((g.name, g.lastId)), EncSeq(EncConsumer, g.consumers), EncSeq(EncPending, g.pending));
    }

    method WriteGroups(xs: seq<Group>)
      modifies this
      ensures buf == old(buf) + EncSeq(EncGroup, xs)
    {
      hide EncLength, EncAll, EncGroup;
      WriteLength(|xs|);
      ghost var start := buf;
      var i := 0;
      EmptyAll(EncGroup, xs, start);
      while i < |xs|
        invariant 0 <= i <= |xs| && buf == start + EncAll(EncGroup, xs[..i])
      {
        WriteGroup(xs[i]);
        EncAllSnoc(EncGroup, xs, i);
        Assoc(start, EncAll(EncGroup, xs[..i]), EncGroup(xs[i]));
        i := i + 1;
      }
      Whole(xs);
      Assoc(old(buf), EncLength(|xs|), EncAll(EncGroup, xs));
    }

    method WriteStreamKeyValue(key: Bytes, es: seq<StreamEntry>, gs: seq<Group>, e: nat)
      modifies this
      ensures buf == old(buf) + EncEntry(Entry(key, Stream(es, gs), e))
    {
      hide EncExpire, EncString, EncStream;
      WriteFront(key, 15, e);
      WriteStream(es, gs);
      Front(old(buf), EncExpire(e), [15], EncString(key), EncStream(es, gs));
    }

    method WriteStream(es: seq<StreamEntry>, gs: seq<Group>)
      modifies this
      ensures buf == old(buf) + EncStream(es, gs)
    {
      hide EncLength, EncPair, EncSeq;
      WriteLength(|es|);
      if |es| > 0 {
        WritePair(es[0].id, es[|es| - 1].id);
      } else {
        WritePair(NO_ID, NO_ID);
      }
      WriteStreamEntries(es);
      WriteGroups(gs);
      var ids: Pair := (FirstId(es), LastId(es));
      Four(old(buf), EncLength(|es|), EncPair(ids), EncSeq(EncStreamEntry, es), EncSeq(EncGroup, gs));
    }

    method WriteEntry(e: Entry)
      modifies this
      ensures buf == old(buf) + EncEntry(e)
    {
      hide EncEntry;
      match e.value
      case Str(text) => WriteStringKeyValue(e.key, text, e.expire);
      case List(items) => WriteListKeyValue(e.key, items, e.expire);
      case Members(members) => WriteSetKeyValue(e.key, members, e.expire);
      case Hash(fields) => WriteHashKeyValue(e.key, fields, e.expire);
      case Stream(es, gs) => WriteStreamKeyValue(e.key, es, gs, e.expire);
    }

    /** The end marker and the checksum of everything before it. */
    method WriteFooter(crc: Bytes -> Bytes)
      modifies this
      ensures buf == old(buf) + [END] + crc(old(buf) + [END])
    {
      buf := buf + [END];
      buf := buf + crc(buf);
    }
  }

  lemma EmptyAll<T>(enc: T -> Bytes, xs: seq<T>, start: Bytes)
    ensures start == start + EncAll(enc, xs[..0])
  {}

  lemma Front(was: Bytes, e: Bytes, t: Bytes, k: Bytes, v: Bytes)
    ensures was + (e + (t + k)) + v == was + (e + (t + (k + v)))
  {}

  lemma Three(was: Bytes, a: Bytes, b: Bytes, c: Bytes)
    ensures was + a + b + c == was + (a + (b + c))
  {}

  lemma Four(was: Bytes, a: Bytes, b: Bytes, c: Bytes, d: Bytes)
    ensures was + a + b + c + d == was + (a + (b + (c + d)))
  {}

  /** GenerateRDB over the keys a snapshot lists. */
  method GenerateRDB(es: seq<Entry>, crc: Bytes -> Bytes) returns (data: Bytes)
    ensures data == EncFile(es, crc)
  {
    hide EncEntry, EncAll;
    var enc := new RDBEncoder();
    enc.WriteDatabaseSelector();
    ghost var start := enc.buf;
    var i := 0;
    EmptyAll(EncEntry, es, start);
    while i < |es|
      invariant 0 <= i <= |es| && enc.buf == start + EncAll(EncEntry, es[..i])
    {
      enc.WriteEntry(es[i]);
      EncAllSnoc(EncEntry, es, i);
      Assoc(start, EncAll(EncEntry, es[..i]), EncEntry(es[i]));
      i := i + 1;
    }
    Whole(es);
    enc.WriteFooter(crc);
    Three(HEADER, [SELECT_DB, 0], EncAll(EncEntry, es), [END]);
    data := enc.buf;
  }
}
