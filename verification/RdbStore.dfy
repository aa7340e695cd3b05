/** The store a snapshot describes is the store its loading builds. */
module RdbStore {
  import opened Basics
  import opened RdbCodec
  import opened RdbFile
  import opened RdbLoader

  datatype Stored =
    | SStr(text: Bytes)
    | SList(items: seq<Bytes>)
    | SSet(members: set<Bytes>)
    | SHash(fields: map<Bytes, Bytes>)
    | SStream(entries: seq<(Bytes, map<Bytes, Bytes>)>, groups: seq<Group>)

  datatype Cell = Cell(value: Stored, expire: nat)

  type Db = map<Bytes, Cell>

  /** One write, as the store is specified to carry it out; a write of the wrong kind changes nothing. */
  function Apply(db: Db, op: Op): Db {
    match op
    case SetString(k, text, expire) => db[k := Cell(SStr(text), expire)]
    case RPush(k, x) => Put(db, k, if k in db then AddItem(db[k].value, x) else SList([x]))
    case SAdd(k, x) => Put(db, k, if k in db then AddMember(db[k].value, x) else SSet({x}))
    case HSet(k, f, x) => Put(db, k, if k in db then AddField(db[k].value, f, x) else SHash(map[f := x]))
    case XAdd(k, id, fs) => Put(db, k, if k in db then AddEntry(db[k].value, id, fs) else SStream([(id, fs)], []))
    case XGroup(k, g) => Put(db, k, if k in db then AddGroup(db[k].value, g) else SStream([], [g]))
    case PExpire(k, expire) => if k in db then db[k := Cell(db[k].value, expire)] else db
  }

  function Put(db: Db, k: Bytes, v: Stored): Db { db[k := Cell(v, if k in db then db[k].expire else 0)] }

  function AddItem(v: Stored, x: Bytes): Stored { if v.SList? then SList(v.items + [x]) else v }

  function AddMember(v: Stored, x: Bytes): Stored { if v.SSet? then SSet(v.members + {x}) else v }

  function AddField(v: Stored, f: Bytes, x: Bytes): Stored { if v.SHash? then SHash(v.fields[f := x]) else v }

  function AddEntry(v: Stored, id: Bytes, fs: map<Bytes, Bytes>): Stored {
    if v.SStream? then SStream(v.entries + [(id, fs)], v.groups) else v
  }

  function AddGroup(v: Stored, g: Group): Stored {
    if v.SStream? then SStream(v.entries, v.groups + [g]) else v
  }

  function ApplyAll(db: Db, ops: seq<Op>): Db {
    if |ops| == 0 then db else Apply(ApplyAll(db, ops[..|ops| - 1]), ops[|ops| - 1])
  }

  lemma {:induction false} ApplyConcat(db: Db, a: seq<Op>, b: seq<Op>)
    ensures ApplyAll(db, a + b) == ApplyAll(ApplyAll(db, a), b)
    decreases |b|
  {
    if |b| == 0 {
      assert a + b == a;
    } else {
      var n := |b| - 1;
      assert (a + b)[..|a + b| - 1] == a + b[..n];
      ApplyConcat(db, a, b[..n]);
    }
  }

  // ------------------------------------------------------------ one entry at a time

  function AsSet(ms: seq<Bytes>): set<Bytes> { set m | m in ms }

  function Ids(es: seq<StreamEntry>): seq<(Bytes, map<Bytes, Bytes>)> {
    seq(|es|, i requires 0 <= i < |es| => (es[i].id, FieldMap(es[i].fields)))
  }

  /** The stored form of a value, and what it stands for. */
  function Build(v: Value): Stored {
    match v
    case Str(text) => SStr(text)
    case List(items) => SList(items)
    case Members(ms) => SSet(AsSet(ms))
    case Hash(fs) => SHash(FieldMap(fs))
    case Stream(es, gs) => SStream(Ids(es), gs)
  }

  /** A collection without elements leaves no trace. */
  predicate NonEmpty(v: Value) {
    match v
    case Str(_) => true
    case List(items) => |items| > 0
    case Members(ms) => |ms| > 0
    case Hash(fs) => |fs| > 0
    case Stream(es, gs) => |es| + |gs| > 0
  }

  /** The first `n` writes of a value, as the value they build. */
  function Part(v: Value, n: nat): Value
    requires n <= |Writes([], v)|
  {
    match v
    case Str(_) => v
    case List(items) => List(items[..n])
    case Members(ms) => Members(ms[..n])
    case Hash(fs) => Hash(fs[..n])
    case Stream(es, gs) => if n <= |es| then Stream(es[..n], []) else Stream(es, gs[..n - |es|])
  }

  lemma PutFresh(db: Db, k: Bytes, v: Stored)
    requires k !in db
    ensures Put(db, k, v) == db[k := Cell(v, 0)]
  {}

  lemma PutAgain(db: Db, k: Bytes, was: Stored, v: Stored)
    requires k !in db
    ensures Put(db[k := Cell(was, 0)], k, v) == db[k := Cell(v, 0)]
  {}

  /** The database once `n` writes of a value have been made. */
  function After(db: Db, k: Bytes, v: Value, n: nat): Db
    requires n <= |Writes([], v)|
  {
    if n == 0 then db else db[k := Cell(Build(Part(v, n)), 0)]
  }

  lemma ListGrows(db: Db, k: Bytes, items: seq<Bytes>, n: nat)
    requires k !in db && n < |items|
    ensures Apply(After(db, k, List(items), n), RPush(k, items[n])) == After(db, k, List(items), n + 1)
  {
    hide Put;
    assert items[..n + 1] == items[..n] + [items[n]];
    if n == 0 {
      assert items[..1] == [items[0]];
      PutFresh(db, k, SList([items[0]]));
    } else {
      PutAgain(db, k, SList(items[..n]), SList(items[..n + 1]));
    }
  }

  lemma SetGrows(db: Db, k: Bytes, ms: seq<Bytes>, n: nat)
    requires k !in db && n < |ms|
    ensures Apply(After(db, k, Members(ms), n), SAdd(k, ms[n])) == After(db, k, Members(ms), n + 1)
  {
    hide Put;
    assert ms[..n + 1] == ms[..n] + [ms[n]];
    assert AsSet(ms[..n + 1]) == AsSet(ms[..n]) + {ms[n]};
    if n == 0 {
      assert AsSet(ms[..1]) == {ms[0]};
      PutFresh(db, k, SSet({ms[0]}));
    } else {
      PutAgain(db, k, SSet(AsSet(ms[..n])), SSet(AsSet(ms[..n + 1])));
    }
  }

  lemma HashGrows(db: Db, k: Bytes, fs: seq<Pair>, n: nat)
    requires k !in db && n < |fs|
    ensures Apply(After(db, k, Hash(fs), n), HSet(k, fs[n].0, fs[n].1)) == After(db, k, Hash(fs), n + 1)
  {
    hide Put;
    assert fs[..n + 1][..n] == fs[..n];
    assert FieldMap(fs[..n + 1]) == FieldMap(fs[..n])[fs[n].0 := fs[n].1];
    if n == 0 {
      assert FieldMap(fs[..1]) == map[fs[0].0 := fs[0].1];
      PutFresh(db, k, SHash(map[fs[0].0 := fs[0].1]));
    } else {
      PutAgain(db, k, SHash(FieldMap(fs[..n])), SHash(FieldMap(fs[..n + 1])));
    }
  }

  lemma StreamGrows(db: Db, k: Bytes, es: seq<StreamEntry>, gs: seq<Group>, n: nat)
    requires k !in db && n < |es|
    ensures Apply(After(db, k, Stream(es, gs), n), XAdd(k, es[n].id, FieldMap(es[n].fields))) ==
            After(db, k, Stream(es, gs), n + 1)
  {
    hide Put, FieldMap;
    assert Ids(es[..n + 1]) == Ids(es[..n]) + [(es[n].id, FieldMap(es[n].fields))];
    if n == 0 {
      assert Ids(es[..1]) == [(es[0].id, FieldMap(es[0].fields))];
      PutFresh(db, k, SStream([(es[0].id, FieldMap(es[0].fields))], []));
    } else {
      PutAgain(db, k, SStream(Ids(es[..n]), []), SStream(Ids(es[..n + 1]), []));
    }
  }

  lemma GroupsGrow(db: Db, k: Bytes, es: seq<StreamEntry>, gs: seq<Group>, j: nat)
    requires k !in db && j < |gs|
    ensures Apply(After(db, k, Stream(es, gs), |es| + j), XGroup(k, gs[j])) == After(db, k, Stream(es, gs), |es| + j + 1)
  {
    hide Put, FieldMap;
    assert gs[..j + 1] == gs[..j] + [gs[j]];
    assert es[..|es|] == es && gs[..0] == [];
    if |es| + j == 0 {
      assert Ids(es) == [] && gs[..1] == [gs[0]];
      PutFresh(db, k, SStream([], [gs[0]]));
    } else {
      assert Part(Stream(es, gs), |es| + j) == Stream(es, gs[..j]);
      PutAgain(db, k, SStream(Ids(es), gs[..j]), SStream(Ids(es), gs[..j + 1]));
    }
  }

  /** One more write builds one element more. */
  lemma PartGrows(db: Db, k: Bytes, v: Value, n: nat)
    requires k !in db && !v.Str? && n < |Writes([], v)|
    ensures n < |Writes(k, v)|
    ensures Apply(After(db, k, v, n), Writes(k, v)[n]) == After(db, k, v, n + 1)
  {
    hide After, Apply, FieldMap;
    match v
    case List(items) => ListGrows(db, k, items, n);
    case Members(ms) => SetGrows(db, k, ms, n);
    case Hash(fs) => HashGrows(db, k, fs, n);
    case Stream(es, gs) =>
      if n < |es| {
        StreamGrows(db, k, es, gs, n);
      } else {
        GroupsGrow(db, k, es, gs, n - |es|);
      }
  }

  lemma {:induction false} WritesBuild(db: Db, k: Bytes, v: Value, n: nat)
    requires k !in db && !v.Str? && n <= |Writes([], v)|
    ensures n <= |Writes(k, v)|
    ensures ApplyAll(db, Writes(k, v)[..n]) == After(db, k, v, n)
    decreases n
  {
    if n > 0 {
      WritesBuild(db, k, v, n - 1);
      PartGrows(db, k, v, n - 1);
      assert Writes(k, v)[..n][..n - 1] == Writes(k, v)[..n - 1];
    }
  }

  lemma PartWhole(k: Bytes, v: Value)
    requires !v.Str?
    ensures |Writes(k, v)| == |Writes([], v)| && Part(v, |Writes([], v)|) == v
    ensures NonEmpty(v) <==> |Writes(k, v)| > 0
  {
    match v
    case List(items) => assert items[..|items|] == items;
    case Members(ms) => assert ms[..|ms|] == ms;
    case Hash(fs) => assert fs[..|fs|] == fs;
    case Stream(es, gs) =>
      assert es[..|es|] == es && gs[..|gs|] == gs;
      if |gs| == 0 { assert gs == []; }
  }

  lemma WritesStore(db: Db, k: Bytes, v: Value)
    requires k !in db && !v.Str?
    ensures ApplyAll(db, Writes(k, v)) == if NonEmpty(v) then db[k := Cell(Build(v), 0)] else db
  {
    PartWhole(k, v);
    WritesBuild(db, k, v, |Writes([], v)|);
    assert Writes(k, v)[..|Writes(k, v)|] == Writes(k, v);
  }

  /** A new key appears with its whole value and expiry exactly when its value has any element. */
  lemma EntryStoredExactly(db: Db, e: Entry)
    requires e.key !in db
    ensures ApplyAll(db, OpsOf(e)) == if NonEmpty(e.value) then db[e.key := Cell(Build(e.value), e.expire)] else db
  {
    hide Writes, Build;
    var ops := OpsOf(e);
    if e.value.Str? {
      assert ops == ops[..0] + [ops[0]];
      assert ApplyAll(db, ops[..0]) == db;
      assert Build(e.value) == SStr(e.value.text) by { BuildStr(e.value); }
    } else {
      var w, x := Writes(e.key, e.value), Expiry(e.key, e.expire);
      WritesStore(db, e.key, e.value);
      ApplyConcat(db, w, x);
      if e.expire > 0 {
        assert x[..0] == [] && ApplyAll(ApplyAll(db, w), x) == Apply(ApplyAll(db, w), x[0]);
      }
    }
  }

  lemma BuildStr(v: Value)
    requires v.Str?
    ensures Build(v) == SStr(v.text)
  {}

  // -------------------------------------------------------------- whole snapshots

  /** The database the entries stand for. */
  function DbOf(es: seq<Entry>): Db {
    if |es| == 0 then map[]
    else DbOf(es[..|es| - 1])[es[|es| - 1].key := Cell(Build(es[|es| - 1].value), es[|es| - 1].expire)]
  }

  /** A snapshot has each key once, and no empty collection. */
  predicate Proper(es: seq<Entry>) {
    (forall i, j :: 0 <= i < j < |es| ==> es[i].key != es[j].key) && (forall i :: 0 <= i < |es| ==> NonEmpty(es[i].value))
  }

  lemma {:induction false} DbKeys(es: seq<Entry>, k: Bytes)
    ensures k in DbOf(es) ==> exists i :: 0 <= i < |es| && es[i].key == k
  {
    if |es| > 0 && k in DbOf(es) {
      var n := |es| - 1;
      if es[n].key != k {
        DbKeys(es[..n], k);
        var i :| 0 <= i < n && es[..n][i].key == k;
        assert es[i].key == k;
      }
    }
  }

  /** A key that stands once is looked up at its entry. */
  lemma {:induction false} DbLookup(es: seq<Entry>, i: nat)
    requires i < |es| && Proper(es)
    ensures es[i].key in DbOf(es) && DbOf(es)[es[i].key] == Cell(Build(es[i].value), es[i].expire)
    decreases |es|
  {
    hide Build, NonEmpty;
    var n := |es| - 1;
    if i < n {
      DbLookup(es[..n], i);
      assert es[..n][i] == es[i] && es[i].key != es[n].key;
    }
  }

  /** The entries as they are loaded; the first turn goes to the selector. */
  function AllAged(es: seq<Entry>, clock: Clock): seq<Entry> {
    seq(|es|, i requires 0 <= i < |es| => Aged(es[i], clock(i + 1)))
  }

  /** The last entry's writes add its key, and nothing else. */
  lemma LastStored(aged: seq<Entry>)
    requires |aged| > 0 && Proper(aged)
    ensures ApplyAll(DbOf(aged[..|aged| - 1]), OpsOf(aged[|aged| - 1])) == DbOf(aged)
  {
    hide OpsOf, Build, ApplyAll;
    var n := |aged| - 1;
    DbKeys(aged[..n], aged[n].key);
    assert forall i :: 0 <= i < n ==> aged[..n][i] == aged[i];
    EntryStoredExactly(DbOf(aged[..n]), aged[n]);
  }

  lemma AgedParts(es: seq<Entry>, clock: Clock)
    requires |es| > 0 && Proper(es)
    ensures var n, aged := |es| - 1, AllAged(es, clock);
            |aged| == n + 1 && Proper(aged) && aged[..n] == AllAged(es[..n], clock) && aged[n] == Aged(es[n], clock(n + 1))
  {
    hide Ahead, NonEmpty;
    assert AllAged(es, clock)[..|es| - 1] == AllAged(es[..|es| - 1], clock);
  }

  /** Loading the entries one after the other builds the database they stand for by then. */
  lemma {:induction false} EntriesReproduced(es: seq<Entry>, clock: Clock)
    requires Proper(es)
    ensures ApplyAll(map[], AllOps([Selector] + AsItems(es), clock)) == DbOf(AllAged(es, clock))
    decreases |es|
  {
    hide OpsOf, Build, NonEmpty, Ahead, ApplyAll, DbOf, AllAged, Aged, AllOps;
    var items := [Selector] + AsItems(es);
    if |es| == 0 {
      assert items == [] + [Selector];
      AllOpsSnoc([], Selector, clock);
      NothingStored(clock);
    } else {
      var n := |es| - 1;
      var before := [Selector] + AsItems(es[..n]);
      EntriesReproduced(es[..n], clock);
      assert items == before + [Loaded(es[n])];
      AllOpsSnoc(before, Loaded(es[n]), clock);
      AgedParts(es, clock);
      ApplyConcat(map[], AllOps(before, clock), OpsOf(Aged(es[n], clock(n + 1))));
      LastStored(AllAged(es, clock));
    }
  }

  lemma NothingStored(clock: Clock)
    ensures ApplyAll(map[], AllOps([], clock) + []) == DbOf(AllAged([], clock))
  {}

  /** Two lists that differ in their expiries only stand for one database exactly when those agree. */
  lemma SameDb(es: seq<Entry>, fs: seq<Entry>)
    requires Proper(es) && |fs| == |es|
    requires forall i :: 0 <= i < |es| ==> fs[i].key == es[i].key && fs[i].value == es[i].value
    ensures DbOf(fs) == DbOf(es) <==> forall i :: 0 <= i < |es| ==> fs[i].expire == es[i].expire
  {
    hide DbOf, Build, NonEmpty;
    if forall i :: 0 <= i < |es| ==> fs[i].expire == es[i].expire { assert fs == es; }
    if DbOf(fs) == DbOf(es) {
      forall i | 0 <= i < |es| ensures fs[i].expire == es[i].expire {
        DbLookup(es, i);
        DbLookup(fs, i);
      }
    }
  }

  /** The entry has no expiry, or one the file can hold that is still to come. */
  predicate Lasting(e: Entry, now: nat) { e.expire == 0 || (e.expire < TWO_31 && now < e.expire * SECOND) }

  lemma LastingExact(e: Entry, now: nat)
    ensures Aged(AsRead(e), now).expire == e.expire <==> Lasting(e, now)
  {
    hide Reread;
    RereadExact(e.expire);
  }

  lemma AsReadParts(es: seq<Entry>, clock: Clock)
    requires Proper(es)
    ensures Proper(AllRead(es))
    ensures var fs := AllAged(AllRead(es), clock);
            |fs| == |es| && forall i :: 0 <= i < |es| ==>
              fs[i].key == es[i].key && fs[i].value == es[i].value && (fs[i].expire == es[i].expire <==> Lasting(es[i], clock(i + 1)))
  {
    hide Lasting, Reread, Ahead, NonEmpty;
    forall i | 0 <= i < |es|
      ensures AllAged(AllRead(es), clock)[i].expire == es[i].expire <==> Lasting(es[i], clock(i + 1))
    {
      LastingExact(es[i], clock(i + 1));
    }
  }

  /**
    Encode, load, apply: the load succeeds, every key comes back with its whole value, and the replica's
    store is the master's exactly when every expiry is below 2^31 and still to come when its entry is loaded.
   */
  lemma SnapshotReproduced(es: seq<Entry>, crc: Bytes -> Bytes, clock: Clock)
    requires Proper(es) && (forall i :: 0 <= i < |es| ==> Fits(es[i])) && |crc(EncBody(es))| == 8
    ensures LoadOneByOne(EncFile(es, crc), crc, clock).Some?
    ensures var db := ApplyAll(map[], LoadOneByOne(EncFile(es, crc), crc, clock).value);
            db == DbOf(AllAged(AllRead(es), clock)) &&
            (db == DbOf(es) <==> forall i :: 0 <= i < |es| ==> Lasting(es[i], clock(i + 1)))
  {
    hide Parse, EncFile, AllOps, ApplyAll, DbOf, Fits, AllRead, AllAged, Lasting, AsItems;
    FileRoundTrip(es, crc);
    AsReadParts(es, clock);
    EntriesReproduced(AllRead(es), clock);
    SameDb(es, AllAged(AllRead(es), clock));
  }
}
