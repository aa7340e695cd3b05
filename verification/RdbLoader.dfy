/** Loading a snapshot into a store, with strings written in batches. */
module RdbLoader {
  import opened Basics
  import opened RdbCodec
  import opened RdbFile
  import opened RdbDecoder

  const BATCH: nat := 1000
  const SECOND: nat := 1_000_000_000
  const MILLISECOND: nat := 1_000_000
  const LARGEST_SECONDS: nat := 0xFFFF_FFFF

  /** The time of each turn of the loading loop, in nanoseconds. */
  type Clock = nat -> nat

  /** A write to the store. Expiry is absolute, in the unit of the file. */
  datatype Op =
    | SetString(key: Bytes, text: Bytes, expire: nat)
    | RPush(key: Bytes, item: Bytes)
    | SAdd(key: Bytes, member: Bytes)
    | HSet(key: Bytes, field: Bytes, text: Bytes)
    | XAdd(key: Bytes, id: Bytes, fields: map<Bytes, Bytes>)
    | XGroup(key: Bytes, group: Group)
    | PExpire(key: Bytes, expire: nat)

  /** The fields of one stream entry as a map, later ones winning. */
  function FieldMap(fields: seq<Pair>): map<Bytes, Bytes> {
    if |fields| == 0 then map[] else FieldMap(fields[..|fields| - 1])[fields[|fields| - 1].0 := fields[|fields| - 1].1]
  }

  function Writes(key: Bytes, v: Value): seq<Op> {
    match v
    case Str(_) => []
    case List(items) => seq(|items|, i requires 0 <= i < |items| => RPush(key, items[i]))
    case Members(ms) => seq(|ms|, i requires 0 <= i < |ms| => SAdd(key, ms[i]))
    case Hash(fs) => seq(|fs|, i requires 0 <= i < |fs| => HSet(key, fs[i].0, fs[i].1))
    case Stream(es, gs) =>
      seq(|es|, i requires 0 <= i < |es| => XAdd(key, es[i].id, FieldMap(es[i].fields))) +
      seq(|gs|, i requires 0 <= i < |gs| => XGroup(key, gs[i]))
  }

  function Expiry(key: Bytes, e: nat): seq<Op> { if e > 0 then [PExpire(key, e)] else [] }

  /** What one entry does to the store. */
  function OpsOf(e: Entry): seq<Op> {
    if e.value.Str? then [SetString(e.key, e.value.text, e.expire)] else Writes(e.key, e.value) + Expiry(e.key, e.expire)
  }

  /** A time still to come; a number over 32 bits is taken as milliseconds. */
  predicate Ahead(expire: nat, now: nat) {
    if expire > LARGEST_SECONDS then expire > now / MILLISECOND else expire * SECOND > now
  }

  /** The entry with the expiry it is loaded with: none, once its time has passed. */
  function Aged(e: Entry, now: nat): Entry { Entry(e.key, e.value, if Ahead(e.expire, now) then e.expire else 0) }

  function ItemOps(item: Item, now: nat): seq<Op> { if item.Loaded? then OpsOf(Aged(item.entry, now)) else [] }

  /** Items loaded one at a time. */
  function AllOps(items: seq<Item>, clock: Clock): seq<Op> {
    if |items| == 0 then []
    else AllOps(items[..|items| - 1], clock) + ItemOps(items[|items| - 1], clock(|items| - 1))
  }

  /** Loading one item at a time, with no batch: the reference the batched loader is compared with. */
  function LoadOneByOne(data: Bytes, crc: Bytes -> Bytes, clock: Clock): Option<seq<Op>> {
    match Parse(data, crc)
    case None => None
    case Some(items) => Some(AllOps(items, clock))
  }

  lemma AllOpsSnoc(items: seq<Item>, item: Item, clock: Clock)
    ensures AllOps(items + [item], clock) == AllOps(items, clock) + ItemOps(item, clock(|items|))
  {
    assert (items + [item])[..|items|] == items;
  }

  /** `items` have been read and `left` is still to come. */
  ghost predicate Reading(start: Bytes, items: seq<Item>, left: Bytes) {
    match ReadItems(left)
    case Bad => ReadItems(start) == Bad
    case Got(more, rest) => ReadItems(start) == Got(items + more, rest)
  }

  lemma ReadingStarts(s: Bytes)
    ensures Reading(s, [], s)
  {
    hide ReadItem;
    if ReadItems(s).Got? { assert [] + ReadItems(s).value == ReadItems(s).value; }
  }

  lemma ReadingStep(start: Bytes, items: seq<Item>, left: Bytes)
    requires Reading(start, items, left) && |left| > 0 && left[0] != END
    ensures ReadItem(left) == Bad ==> ReadItems(start) == Bad
    ensures ReadItem(left).Got? ==> Reading(start, items + [ReadItem(left).value], ReadItem(left).rest)
  {
    hide ReadItem;
    if ReadItem(left).Got? {
      var item, rest := ReadItem(left).value, ReadItem(left).rest;
      ItemShrinks(left);
      if ReadItems(rest).Got? {
        assert items + ([item] + ReadItems(rest).value) == items + [item] + ReadItems(rest).value;
      }
    }
  }

  lemma ReadingEnds(start: Bytes, items: seq<Item>, left: Bytes)
    requires Reading(start, items, left) && (|left| == 0 || left[0] == END)
    ensures ReadItems(start) == Got(items, left)
  {
    assert items + [] == items;
  }

  /** The decoder, the pending strings and the writes made so far. */
  class RdbLoading {
    const dec: RDBDecoder
    var batch: seq<Op>
    var ops: seq<Op>

    constructor (data: Bytes)
      ensures fresh(dec) && dec.buf == data && batch == [] && ops == []
    {
      dec := new RDBDecoder(data);
      batch, ops := [], [];
    }

    /** Writes made and writes pending, in order. */
    ghost function Done(): seq<Op>
      reads this
    {
      ops + batch
    }

    method FlushStrings()
      modifies this`batch, this`ops
      ensures batch == [] && ops == old(Done())
    {
      if |batch| == 0 {
        assert ops + batch == ops;
        return;
      }
      ops, batch := ops + batch, [];
    }

    /** A string joins the batch; anything else waits for the batch to be written first. */
    method Store(item: Item, now: nat)
      modifies this`batch, this`ops
      ensures Done() == old(Done()) + ItemOps(item, now)
    {
      hide Ahead;
      if item.Loaded? && item.entry.value.Str? {
        ghost var was := Done();
        batch := batch + [SetString(item.entry.key, item.entry.value.text, if Ahead(item.entry.expire, now) then item.entry.expire else 0)];
        assert Done() == was + ItemOps(item, now);
        if |batch| >= BATCH {
          FlushStrings();
          assert Done() == ops;
        }
        return;
      }
      if |batch| > 0 { FlushStrings(); }
      ops := ops + ItemOps(item, now);
      assert batch == [];
    }

    /** One turn of the loop. */
    method LoadItem(now: nat) returns (ok: bool)
      modifies this, dec
      ensures ok <==> ReadItem(old(dec.buf)).Got?
      ensures ok ==> dec.buf == ReadItem(old(dec.buf)).rest
      ensures ok ==> Done() == old(Done()) + ItemOps(ReadItem(old(dec.buf)).value, now)
    {
      hide ReadItem, ItemOps;
      var item := dec.TakeItem();
      ok := item.Some?;
      if ok { Store(item.value, now); }
    }
  }

  /**
    loadRDBEntries: it succeeds on exactly the snapshots the one-by-one loader accepts, and
    makes exactly the same writes in the same order.
   */
  method LoadRDB(data: Bytes, crc: Bytes -> Bytes, clock: Clock) returns (result: Option<seq<Op>>)
    ensures result == LoadOneByOne(data, crc, clock)
  {
    if |data| < 9 || data[..5] != MAGIC { return None; }
    var load := new RdbLoading(data[9..]);
    ghost var items: seq<Item> := [];
    var turn := 0;
    ReadingStarts(data[9..]);
    hide ReadItem, Reading, ReadItems;
    while |load.dec.buf| > 0 && load.dec.buf[0] != END
      invariant Reading(data[9..], items, load.dec.buf)
      invariant load.Done() == AllOps(items, clock) && turn == |items|
      decreases |load.dec.buf|
    {
      ghost var left := load.dec.buf;
      ReadingStep(data[9..], items, left);
      ItemShrinks(left);
      var ok := load.LoadItem(clock(turn));
      if !ok { return None; }
      AllOpsSnoc(items, ReadItem(left).value, clock);
      items := items + [ReadItem(left).value];
      turn := turn + 1;
    }
    ReadingEnds(data[9..], items, load.dec.buf);
    load.FlushStrings();
    var tail := load.dec.buf;
    if |tail| < 9 || tail[0] != END || tail[1..9] != crc(data[..|data| - 8]) { return None; }
    result := Some(load.ops);
  }
}
