/** The decoder as it runs, taking values off the front of its buffer. */
module RdbDecoder {
  import opened Basics
  import opened RdbCodec
  import opened RdbFile

  /** The outcome of a read, as the buffer's owner sees it. */
  ghost predicate Took<T>(g: Got<T>, r: Option<T>, buf: Bytes) {
    if g.Bad? then r.None? else r == Some(g.value) && buf == g.rest
  }

  /** The reading of a sequence when `xs` have been read and `more` is still to come. */
  function Resume<T>(xs: seq<T>, more: Got<seq<T>>): Got<seq<T>> {
    match more
    case Bad => Bad
    case Got(ys, rest) => Got(xs + ys, rest)
  }

  lemma ResumeStarts<T>(more: Got<seq<T>>)
    ensures Resume([], more) == more
  {
    if more.Got? { assert [] + more.value == more.value; }
  }

  lemma ResumeStep<T>(read: Bytes -> Got<T>, xs: seq<T>, n: nat, s: Bytes)
    requires n > 0
    ensures read(s).Bad? ==> Resume(xs, ReadAll(read, n, s)) == Bad
    ensures read(s).Got? ==>
              Resume(xs, ReadAll(read, n, s)) == Resume(xs + [read(s).value], ReadAll(read, n - 1, read(s).rest))
  {
    if read(s).Got? {
      var more := ReadAll(read, n - 1, read(s).rest);
      if more.Got? { assert xs + ([read(s).value] + more.value) == xs + [read(s).value] + more.value; }
    }
  }

  lemma ResumeEnds<T>(read: Bytes -> Got<T>, xs: seq<T>, s: Bytes)
    ensures Resume(xs, ReadAll(read, 0, s)) == Got(xs, s)
  {
    assert xs + [] == xs;
  }

  class RDBDecoder {
    var buf: Bytes

    constructor (data: Bytes)
      ensures buf == data
    {
      buf := data;
    }

    method TakeLE(k: nat) returns (r: Option<nat>)
      modifies this
      ensures Took(ReadLE(old(buf), k), r, buf)
    {
      if |buf| < k { return None; }
      r, buf := Some(FromLE(buf[..k])), buf[k..];
    }

    method TakeInt64() returns (r: Option<int>)
      modifies this
      ensures Took(ReadInt64(old(buf)), r, buf)
    {
      hide ReadLE;
      var u := TakeLE(8);
      if u.None? { return None; }
      r := Some(if u.value < TWO_63 then u.value else u.value - TWO_64);
    }

    method TakeLength() returns (r: Option<nat>)
      modifies this
      ensures Took(ReadLength(old(buf)), r, buf)
    {
      hide ReadLE;
      if |buf| == 0 { return None; }
      var b := buf[0];
      buf := buf[1..];
      if b < 0x40 { return Some(b as int); }
      if b < 0x80 {
        if |buf| < 1 { return None; }
        r := Some((b as int - 0x40) * 256 + buf[0] as int);
        buf := buf[1..];
        return;
      }
      r := TakeLE(4);
    }

    method TakeString() returns (r: Option<Bytes>)
      modifies this
      ensures Took(ReadString(old(buf)), r, buf)
    {
      hide ReadLength;
      var n := TakeLength();
      if n.None? || |buf| < n.value { return None; }
      r, buf := Some(buf[..n.value]), buf[n.value..];
    }

    /** A byte that starts no expiry is put back. */
    method TakeExpire() returns (r: Option<int>)
      modifies this
      ensures Took(ReadExpire(old(buf)), r, buf)
    {
      hide ReadLE, ReadInt64;
      if |buf| == 0 { return None; }
      if buf[0] == EXPIRE_MS {
        buf := buf[1..];
        r := TakeInt64();
      } else if buf[0] == EXPIRE_S {
        buf := buf[1..];
        var u := TakeLE(4);
        if u.None? { return None; }
        r := Some(if u.value < TWO_31 then u.value else u.value - TWO_32);
      } else {
        r := Some(0);
      }
    }

    method TakePair() returns (r: Option<Pair>)
      modifies this
      ensures Took(ReadPair(old(buf)), r, buf)
    {
      hide ReadString;
      var a := TakeString();
      if a.None? { return None; }
      var b := TakeString();
      if b.None? { return None; }
      r := Some((a.value, b.value));
    }

    method TakeStreamEntry() returns (r: Option<StreamEntry>)
      modifies this
      ensures Took(ReadStreamEntry(old(buf)), r, buf)
    {
      hide ReadString, ReadSeq;
      var id := TakeString();
      if id.None? { return None; }
      var fields := TakePairs();
      if fields.None? { return None; }
      r := Some(StreamEntry(id.value, fields.value));
    }

    method TakeConsumer() returns (r: Option<Consumer>)
      modifies this
      ensures Took(ReadConsumer(old(buf)), r, buf)
    {
      hide ReadString, ReadInt64;
      var name := TakeString();
      if name.None? { return None; }
      var seen := TakeInt64();
      if seen.None? { return None; }
      r := Some(Consumer(name.value, seen.value));
    }

    method TakePending() returns (r: Option<Pending>)
      modifies this
      ensures Took(ReadPending(old(buf)), r, buf)
    {
      hide ReadPair, ReadInt64;
      var ids := TakePair();
      if ids.None? { return None; }
      var count := TakeInt64();
      if count.None? { return None; }
      var last := TakeInt64();
      if last.None? { return None; }
      r := Some(Pending(ids.value.0, ids.value.1, count.value, last.value));
    }

    method TakeGroup() returns (r: Option<Group>)
      modifies this
      ensures Took(ReadGroup(old(buf)), r, buf)
    {
      hide ReadPair, ReadSeq;
      var names := TakePair();
      if names.None? { return None; }
      var consumers := TakeConsumers();
      if consumers.None? { return None; }
      var pending := TakePendings();
      if pending.None? { return None; }
      r := Some(Group(names.value.0, names.value.1, consumers.value, pending.value));
    }

    /** The items of a list, or the members of a set. */
    method TakeStrings() returns (r: Option<seq<Bytes>>)
      modifies this
      ensures Took(ReadSeq(ReadString, old(buf)), r, buf)
    {
      hide ReadLength, ReadString, ReadAll, Resume;
      var n := TakeLength();
      if n.None? { return None; }
      ghost var all := ReadAll(ReadString, n.value, buf);
      var xs: seq<Bytes> := [];
      ResumeStarts(all);
      var i := 0;
      while i < n.value
        invariant 0 <= i <= n.value && Resume(xs, ReadAll(ReadString, n.value - i, buf)) == all
      {
        ResumeStep(ReadString, xs, n.value - i, buf);
        var x := TakeString();
        if x.None? { return None; }
        xs := xs + [x.value];
        i := i + 1;
      }
      ResumeEnds(ReadString, xs, buf);
      r := Some(xs);
    }

    /** The fields of a hash, or of a stream entry. */
    method TakePairs() returns (r: Option<seq<Pair>>)
      modifies this
      ensures Took(ReadSeq(ReadPair, old(buf)), r, buf)
    {
      hide ReadLength, ReadPair, ReadAll, Resume;
      var n := TakeLength();
      if n.None? { return None; }
      ghost var all := ReadAll(ReadPair, n.value, buf);
      var xs: seq<Pair> := [];
      ResumeStarts(all);
      var i := 0;
      while i < n.value
        invariant 0 <= i <= n.value && Resume(xs, ReadAll(ReadPair, n.value - i, buf)) == all
      {
        ResumeStep(ReadPair, xs, n.value - i, buf);
        var x := TakePair();
        if x.None? { return None; }
        xs := xs + [x.value];
        i := i + 1;
      }
      ResumeEnds(ReadPair, xs, buf);
      r := Some(xs);
    }

    /** The entries of a stream. */
    method TakeStreamEntries() returns (r: Option<seq<StreamEntry>>)
      modifies this
      ensures Took(ReadSeq(ReadStreamEntry, old(buf)), r, buf)
    {
      hide ReadLength, ReadStreamEntry, ReadAll, Resume;
      var n := TakeLength();
      if n.None? { return None; }
      ghost var all := ReadAll(ReadStreamEntry, n.value, buf);
      var xs: seq<StreamEntry> := [];
      ResumeStarts(all);
      var i := 0;
      while i < n.value
        invariant 0 <= i <= n.value && Resume(xs, ReadAll(ReadStreamEntry, n.value - i, buf)) == all
      {
        ResumeStep(ReadStreamEntry, xs, n.value - i, buf);
        var x := TakeStreamEntry();
        if x.None? { return None; }
        xs := xs + [x.value];
        i := i + 1;
      }
      ResumeEnds(ReadStreamEntry, xs, buf);
      r := Some(xs);
    }

    /** The consumers of a group. */
    method TakeConsumers() returns (r: Option<seq<Consumer>>)
      modifies this
      ensures Took(ReadSeq(ReadConsumer, old(buf)), r, buf)
    {
      hide ReadLength, ReadConsumer, ReadAll, Resume;
      var n := TakeLength();
      if n.None? { return None; }
      ghost var all := ReadAll(ReadConsumer, n.value, buf);
      var xs: seq<Consumer> := [];
      ResumeStarts(all);
      var i := 0;
      while i < n.value
        invariant 0 <= i <= n.value && Resume(xs, ReadAll(ReadConsumer, n.value - i, buf)) == all
      {
        ResumeStep(ReadConsumer, xs, n.value - i, buf);
        var x := TakeConsumer();
        if x.None? { return None; }
        xs := xs + [x.value];
        i := i + 1;
      }
      ResumeEnds(ReadConsumer, xs, buf);
      r := Some(xs);
    }

    /** The pending entries of a group. */
    method TakePendings() returns (r: Option<seq<Pending>>)
      modifies this
      ensures Took(ReadSeq(ReadPending, old(buf)), r, buf)
    {
      hide ReadLength, ReadPending, ReadAll, Resume;
      var n := TakeLength();
      if n.None? { return None; }
      ghost var all := ReadAll(ReadPending, n.value, buf);
      var xs: seq<Pending> := [];
      ResumeStarts(all);
      var i := 0;
      while i < n.value
        invariant 0 <= i <= n.value && Resume(xs, ReadAll(ReadPending, n.value - i, buf)) == all
      {
        ResumeStep(ReadPending, xs, n.value - i, buf);
        var x := TakePending();
        if x.None? { return None; }
        xs := xs + [x.value];
        i := i + 1;
      }
      ResumeEnds(ReadPending, xs, buf);
      r := Some(xs);
    }

    /** The consumer groups of a stream. */
    method TakeGroups() returns (r: Option<seq<Group>>)
      modifies this
      ensures Took(ReadSeq(ReadGroup, old(buf)), r, buf)
    {
      hide ReadLength, ReadGroup, ReadAll, Resume;
      var n := TakeLength();
      if n.None? { return None; }
      ghost var all := ReadAll(ReadGroup, n.value, buf);
      var xs: seq<Group> := [];
      ResumeStarts(all);
      var i := 0;
      while i < n.value
        invariant 0 <= i <= n.value && Resume(xs, ReadAll(ReadGroup, n.value - i, buf)) == all
      {
        ResumeStep(ReadGroup, xs, n.value - i, buf);
        var x := TakeGroup();
        if x.None? { return None; }
        xs := xs + [x.value];
        i := i + 1;
      }
      ResumeEnds(ReadGroup, xs, buf);
      r := Some(xs);
    }

    /** The count and the two ids in front are read and dropped. */
    method TakeStream(groups: bool) returns (r: Option<Value>)
      modifies this
      ensures Took(ReadStream(old(buf), groups), r, buf)
    {
      hide ReadLength, ReadPair, ReadSeq;
      var n := TakeLength();
      if n.None? { return None; }
      var ids := TakePair();
      if ids.None? { return None; }
      var es := TakeStreamEntries();
      if es.None? { return None; }
      if !groups { return Some(Stream(es.value, [])); }
      var gs := TakeGroups();
      if gs.None? { return None; }
      r := Some(Stream(es.value, gs.value));
    }

    /** The switch on the type byte. */
    method TakeValue(t: byte) returns (r: Option<Value>)
      modifies this
      ensures Took(ReadValue(t, old(buf)), r, buf)
    {
      hide ReadString, ReadSeq, ReadStream;
      if t == 0 {
        var s := TakeString();
        r := if s.None? then None else Some(Str(s.value));
      } else if t == 1 || t == 2 {
        var xs := TakeStrings();
        r := if xs.None? then None else Some(if t == 1 then List(xs.value) else Members(xs.value));
      } else if t == 3 {
        var fs := TakePairs();
        r := if fs.None? then None else Some(Hash(fs.value));
      } else if t == 5 || t == 15 {
        r := TakeStream(t == 15);
      } else {
        r := None;
      }
    }

    /** One turn of the loading loop, up to the point where the item is stored. */
    method TakeItem() returns (r: Option<Item>)
      modifies this
      ensures Took(ReadItem(old(buf)), r, buf)
    {
      hide ReadString, ReadValue, ReadExpire;
      var expire := TakeExpire();
      if expire.None? || |buf| == 0 { return None; }
      var t := buf[0];
      buf := buf[1..];
      var key := TakeString();
      if key.None? { return None; }
      if t == SELECT_DB { return Some(Selector); }
      var v := TakeValue(t);
      if v.None? { return None; }
      r := Some(Loaded(Entry(key.value, v.value, Kept(expire.value))));
    }
  }
}
