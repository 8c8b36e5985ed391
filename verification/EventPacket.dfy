// The packets that carry a radio event table to its viewers.

module EventPacket {
  import opened Basics
  import opened RetEntries

  const ACTIVE_COM: Byte := 0
  const FINISHED_COM: Byte := 1
  const PACKET_END: Byte := 2

  datatype Record = Record(kind: Byte, entry: RetEntry)

  function RecordBytes(r: Record): (bytes: seq<Byte>)
    ensures |bytes| == 1 + STRING_SIZE
  {
    [r.kind] + EntryBytes(r.entry)
  }

  function Serialize(records: seq<Record>): seq<Byte> {
    if records == [] then [] else RecordBytes(records[0]) + Serialize(records[1..])
  }

  lemma {:induction false} SerializeConcat(a: seq<Record>, b: seq<Record>)
    ensures Serialize(a + b) == Serialize(a) + Serialize(b)
  {
    if a == [] {
      assert a + b == b;
    } else {
      assert (a + b)[1..] == a[1..] + b;
      SerializeConcat(a[1..], b);
    }
  }

  lemma SerializeSnoc(a: seq<Record>, r: Record)
    ensures Serialize(a + [r]) == Serialize(a) + RecordBytes(r)
  {
    SerializeConcat(a, [r]);
    assert [r][1..] == [];
  }

  /** What a packet does to the table that receives it. */
  datatype Update = Update(active: seq<RetEntry>, finished: seq<RetEntry>, ok: bool)

  /** Reading stops at the end of the packet, at an end mark, or at an entry that is
      cut short. The kind is a signed character: a negative one is followed by an
      entry, which is dropped. */
  function Parse(bytes: seq<Byte>): Update
    decreases |bytes|
  {
    if bytes == [] then Update([], [], true)
    else if Signed(bytes[0]) < PACKET_END then
      match ParseEntry(bytes[1..])
      case None => Update([], [], false)
      case Some(e) => Received(bytes[0], e, Parse(bytes[1 + STRING_SIZE..]))
    else if bytes[0] == PACKET_END then Update([], [], true)
    else Parse(bytes[1..])
  }

  function Received(kind: Byte, e: RetEntry, later: Update): Update {
    if kind == ACTIVE_COM then later.(active := [e] + later.active)
    else if kind == FINISHED_COM then later.(finished := [e] + later.finished)
    else later
  }

  /** The entries of a kind, as they arrive: always dirty. */
  function Arriving(records: seq<Record>, kind: Byte): seq<RetEntry> {
    if records == [] then []
    else (if records[0].kind == kind then [records[0].entry.(dirty := true)] else []) + Arriving(records[1..], kind)
  }

  /** Parsing a packet gives back its entries, kind by kind and in order. */
  lemma {:induction false} ParseOfSerialize(records: seq<Record>)
    requires forall i :: 0 <= i < |records| ==> records[i].kind == ACTIVE_COM || records[i].kind == FINISHED_COM
    ensures Parse(Serialize(records)) ==
            Update(Arriving(records, ACTIVE_COM), Arriving(records, FINISHED_COM), true)
  {
    hide RecordBytes, Parse;
    if records == [] {
      assert Serialize(records) == [];
      ParseNothing();
    } else {
      ParseOfSerialize(records[1..]);
      ParseRecord(records[0], Serialize(records[1..]));
    }
  }

  lemma ParseNothing()
    ensures Parse([]) == Update([], [], true)
  {
  }

  lemma ParseRecord(r: Record, rest: seq<Byte>)
    requires r.kind == ACTIVE_COM || r.kind == FINISHED_COM
    ensures Parse(RecordBytes(r) + rest) == Received(r.kind, r.entry.(dirty := true), Parse(rest))
  {
    hide EntryBytes, ParseEntry, Received;
    var bytes := RecordBytes(r) + rest;
    EntryRoundTrip(r.entry, rest);
    assert bytes[1..] == EntryBytes(r.entry) + rest;
    assert bytes[1 + STRING_SIZE..] == rest;
  }

  // ---------------------------------------------------------------- any packet

  /** What can stand in a packet: a record, an entry of a kind below zero, or a byte of a
      kind above the end mark. */
  datatype Item = Known(record: Record) | Dropped(record: Record) | Junk(b: Byte)

  predicate ValidItem(item: Item) {
    if item.Junk? then 2 < item.b < 128
    else if item.Dropped? then 128 <= item.record.kind
    else item.record.kind == 0 || item.record.kind == 1
  }

  function ItemBytes(item: Item): seq<Byte> {
    if item.Junk? then [item.b] else RecordBytes(item.record)
  }

  function PacketBytes(items: seq<Item>): seq<Byte> {
    if items == [] then [] else ItemBytes(items[0]) + PacketBytes(items[1..])
  }

  function Records(items: seq<Item>): (records: seq<Record>) {
    if items == [] then []
    else (if items[0].Known? then [items[0].record] else []) + Records(items[1..])
  }

  /** What ends a packet: its end, an end mark with anything behind it, or an entry that is
      cut short. */
  predicate Ends(tail: seq<Byte>, ok: bool) {
    || (ok && (tail == [] || tail[0] == 2))
    || (!ok && tail != [] && (tail[0] < 2 || 128 <= tail[0]) && |tail| < 1 + 41)
  }

  /** Whatever stands in a packet, the known entries in front of its end arrive, kind by kind
      and in order, and an entry that is cut short is the only failure. */
  lemma {:induction false} ParseOfItems(items: seq<Item>, tail: seq<Byte>, ok: bool)
    requires (forall i :: 0 <= i < |items| ==> ValidItem(items[i])) && Ends(tail, ok)
    ensures Parse(PacketBytes(items) + tail) ==
            Update(Arriving(Records(items), ACTIVE_COM), Arriving(Records(items), FINISHED_COM), ok)
  {
    hide RecordBytes, Parse, ItemBytes;
    if items == [] {
      assert PacketBytes(items) + tail == tail;
      ParseEnd(tail, ok);
    } else {
      var rest := PacketBytes(items[1..]) + tail;
      ParseOfItems(items[1..], tail, ok);
      assert ValidItem(items[0]);
      ParseItem(items[0], rest);
      assert PacketBytes(items) + tail == ItemBytes(items[0]) + rest;
      if items[0].Known? {
        assert Records(items)[0] == items[0].record && Records(items)[1..] == Records(items[1..]);
      } else {
        assert Records(items) == Records(items[1..]);
      }
    }
  }

  lemma ParseEnd(tail: seq<Byte>, ok: bool)
    requires Ends(tail, ok)
    ensures Parse(tail) == Update([], [], ok)
  {
    hide ParseEntry;
  }

  lemma ParseItem(item: Item, rest: seq<Byte>)
    requires ValidItem(item)
    ensures Parse(ItemBytes(item) + rest) ==
            if item.Known? then Received(item.record.kind, item.record.entry.(dirty := true), Parse(rest))
            else Parse(rest)
  {
    hide EntryBytes, ParseEntry, Received;
    var bytes := ItemBytes(item) + rest;
    if item.Junk? {
      assert bytes[1..] == rest;
    } else {
      EntryRoundTrip(item.record.entry, rest);
      assert bytes[1..] == EntryBytes(item.record.entry) + rest;
      assert bytes[1 + STRING_SIZE..] == rest;
      if item.Dropped? {
        DroppedKind(item.record.kind, item.record.entry.(dirty := true), Parse(rest));
      }
    }
  }

  lemma DroppedKind(kind: Byte, e: RetEntry, later: Update)
    requires 128 <= kind
    ensures Received(kind, e, later) == later && Signed(kind) < PACKET_END
  {
  }

  // ------------------------------------------------------------ what a packet holds

  /** Ongoing communications seen only once are not sent. */
  function ActiveRecords(active: seq<RetEntry>): (records: seq<Record>)
    ensures forall i :: 0 <= i < |records| ==> records[i].kind == ACTIVE_COM
    ensures |records| <= |active|
    decreases |active|
  {
    if active == [] then []
    else
      var last := active[|active| - 1];
      ActiveRecords(active[..|active| - 1]) +
      if last.timeEnd != last.timeStart then [Record(ACTIVE_COM, last)] else []
  }

  function FinishedRecords(finished: seq<RetEntry>): (records: seq<Record>)
    ensures |records| == |finished|
    ensures forall i :: 0 <= i < |records| ==> records[i] == Record(FINISHED_COM, finished[i])
  {
    seq(|finished|, i requires 0 <= i < |finished| => Record(FINISHED_COM, finished[i]))
  }

  function PacketRecords(active: seq<RetEntry>, finished: seq<RetEntry>): seq<Record> {
    ActiveRecords(active) + FinishedRecords(finished)
  }

  /** The communications a viewer gets to see. */
  function Visible(active: seq<RetEntry>): seq<RetEntry>
    decreases |active|
  {
    if active == [] then []
    else
      var last := active[|active| - 1];
      Visible(active[..|active| - 1]) + if last.timeEnd != last.timeStart then [last.(dirty := true)] else []
  }

  lemma ArrivingCons(r: Record, rest: seq<Record>, kind: Byte)
    ensures Arriving([r] + rest, kind) ==
            (if r.kind == kind then [r.entry.(dirty := true)] else []) + Arriving(rest, kind)
  {
    assert ([r] + rest)[1..] == rest;
  }

  lemma {:induction false} ArrivingConcat(a: seq<Record>, b: seq<Record>, kind: Byte)
    ensures Arriving(a + b, kind) == Arriving(a, kind) + Arriving(b, kind)
  {
    hide Arriving;
    if a == [] {
      assert a + b == b;
      assert Arriving(a, kind) == [] by { ArrivingNothing(kind); }
    } else {
      ArrivingConcat(a[1..], b, kind);
      ArrivingCons(a[0], a[1..], kind);
      ArrivingCons(a[0], a[1..] + b, kind);
      assert [a[0]] + a[1..] == a && [a[0]] + (a[1..] + b) == a + b;
    }
  }

  lemma ArrivingNothing(kind: Byte)
    ensures Arriving([], kind) == []
  {
  }

  lemma {:induction false} ArrivingActive(active: seq<RetEntry>)
    ensures Arriving(ActiveRecords(active), ACTIVE_COM) == Visible(active)
    ensures Arriving(ActiveRecords(active), FINISHED_COM) == []
    decreases |active|
  {
    if active == [] {
    } else {
      var front, last := active[..|active| - 1], active[|active| - 1];
      ArrivingActive(front);
      if last.timeEnd != last.timeStart {
        var record := [Record(ACTIVE_COM, last)];
        ArrivingConcat(ActiveRecords(front), record, ACTIVE_COM);
        ArrivingConcat(ActiveRecords(front), record, FINISHED_COM);
        assert record[1..] == [];
      } else {
        assert ActiveRecords(active) == ActiveRecords(front) + [] == ActiveRecords(front);
      }
    }
  }

  lemma {:induction false} ArrivingFinished(finished: seq<RetEntry>)
    requires forall i :: 0 <= i < |finished| ==> finished[i].dirty
    ensures Arriving(FinishedRecords(finished), FINISHED_COM) == finished
    ensures Arriving(FinishedRecords(finished), ACTIVE_COM) == []
  {
    if finished == [] {
    } else {
      ArrivingFinished(finished[1..]);
      assert FinishedRecords(finished)[1..] == FinishedRecords(finished[1..]);
      assert finished[0].(dirty := true) == finished[0];
    }
  }

  /** A packet rebuilds the list of ongoing communications and carries the finished
      ones over, in order. */
  lemma PacketTransfers(active: seq<RetEntry>, finished: seq<RetEntry>)
    requires forall i :: 0 <= i < |finished| ==> finished[i].dirty
    ensures Parse(Serialize(PacketRecords(active, finished))) == Update(Visible(active), finished, true)
  {
    hide Parse, Serialize;
    var a, f := ActiveRecords(active), FinishedRecords(finished);
    ParseOfSerialize(PacketRecords(active, finished));
    ArrivingConcat(a, f, ACTIVE_COM);
    ArrivingConcat(a, f, FINISHED_COM);
    ArrivingActive(active);
    ArrivingFinished(finished);
  }
}
