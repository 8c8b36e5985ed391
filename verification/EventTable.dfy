// The radio event table: ongoing communications, a ring of finished ones, and the
// buffer its packets are written to.

module EventTable {
  import opened Basics
  import opened Slots
  import opened RetEntries
  import opened EventPacket
  import opened AbsoluteRing
  import Replication

  class RadioEventTable {
    const finishedComs: AbsoluteRingBuffer<RetEntry>
    const buffer: array<Byte>
    var activeComs: seq<RetEntry>

    /** Every finished communication, as it was when it finished. */
    ghost var pushed: seq<RetEntry>
    /** How many of them the packets so far have covered. */
    ghost var sent: nat

    /** A finished entry is dirty exactly until a packet has covered it. */
    ghost predicate Valid()
      reads this, finishedComs, finishedComs.ring
    {
      && finishedComs.Valid()
      && sent <= |pushed| == finishedComs.head
      && (forall p :: 0 <= p < |pushed| ==> pushed[p].dirty)
      && forall p :: finishedComs.tail <= p < finishedComs.head ==>
           finishedComs.log[p] == pushed[p].(dirty := sent <= p)
    }

    constructor (ringSize: nat, bufferSize: nat)
      requires 0 < ringSize
      ensures Valid() && activeComs == [] && pushed == [] && sent == 0
      ensures finishedComs.ringSize == ringSize && buffer.Length == bufferSize
      ensures fresh(finishedComs) && fresh(finishedComs.ring) && fresh(buffer)
    {
      finishedComs := new AbsoluteRingBuffer<RetEntry>(ringSize);
      buffer := new Byte[bufferSize];
      activeComs, pushed, sent := [], [], 0;
    }

    /** A communication ends: it is pushed as it was updated last, dirty. */
    method Finish(entry: RetEntry)
      requires Valid() && entry.dirty
      modifies this`pushed, finishedComs, finishedComs.ring
      ensures Valid() && pushed == old(pushed) + [entry]
    {
      var _ := finishedComs.PushBack(entry);
      pushed := pushed + [entry];
    }

    /** The finished communications the next packet carries. */
    ghost function Unsent(): seq<RetEntry>
      requires Valid()
      reads this, finishedComs, finishedComs.ring
    {
      pushed[Replication.FirstSent(|pushed|, sent, finishedComs.ringSize)..]
    }

    /** Appends a record behind the packet so far. */
    method AddRecord(kind: Byte, entry: RetEntry, offset: nat, ghost records: seq<Record>) returns (next: nat)
      requires offset + 1 + STRING_SIZE <= buffer.Length
      requires buffer[..offset] == Serialize(records)
      modifies buffer
      ensures next == offset + 1 + STRING_SIZE
      ensures buffer[..next] == Serialize(records + [Record(kind, entry)])
    {
      buffer[offset] := kind;
      assert buffer[..offset] == Serialize(records);
      var ok, length := EntryToString(entry, buffer, offset + 1);
      next := offset + 1 + length;
      SerializeSnoc(records, Record(kind, entry));
      assert buffer[..offset] == buffer[..offset + 1][..offset];
      assert buffer[..next] == buffer[..offset] + [buffer[..offset + 1][offset]] + buffer[offset + 1..next];
    }

    method WriteActive() returns (offset: nat)
      requires (1 + STRING_SIZE) * |activeComs| <= buffer.Length
      modifies buffer
      ensures offset == (1 + STRING_SIZE) * |ActiveRecords(activeComs)|
      ensures buffer[..offset] == Serialize(ActiveRecords(activeComs))
    {
      offset := 0;
      for i := 0 to |activeComs|
        invariant offset == (1 + STRING_SIZE) * |ActiveRecords(activeComs[..i])| <= (1 + STRING_SIZE) * i
        invariant buffer[..offset] == Serialize(ActiveRecords(activeComs[..i]))
      {
        var entry := activeComs[i];
        assert activeComs[..i + 1][..i] == activeComs[..i];
        if entry.timeEnd != entry.timeStart {
          offset := AddRecord(ACTIVE_COM, entry, offset, ActiveRecords(activeComs[..i]));
        } else {
          assert ActiveRecords(activeComs[..i]) + [] == ActiveRecords(activeComs[..i]);
        }
      }
      assert activeComs[..|activeComs|] == activeComs;
    }

    /** The packet so far, with the finished communications below `i` looked at: those
        from `first` on are in it, and all of them are clean. */
    ghost predicate Written(records: seq<Record>, was: nat, first: nat, i: nat, offset: nat)
      reads this, finishedComs, finishedComs.ring, buffer
    {
      && finishedComs.Valid() && finishedComs.tail <= i <= finishedComs.head == |pushed|
      && was <= |pushed| && first == Max(was, finishedComs.tail)
      && (forall p :: 0 <= p < |pushed| ==> pushed[p].dirty)
      && (forall p :: finishedComs.tail <= p < finishedComs.head ==>
            finishedComs.log[p] == pushed[p].(dirty := was <= p && i <= p))
      && records == PacketRecords(activeComs, if first <= i then pushed[first..i] else [])
      && offset == (1 + STRING_SIZE) * |records| && |records| <= |activeComs| + (i - finishedComs.tail)
      && offset <= buffer.Length && buffer[..offset] == Serialize(records)
    }

    /** One finished communication: written and marked clean if it is dirty. */
    method WriteFinished(i: nat, offset: nat, ghost records: seq<Record>, ghost was: nat, ghost first: nat)
      returns (next: nat, ghost more: seq<Record>)
      requires Written(records, was, first, i, offset) && i < finishedComs.head
      requires (1 + STRING_SIZE) * (|activeComs| + (finishedComs.head - finishedComs.tail)) <= buffer.Length
      modifies buffer, finishedComs`log, finishedComs.ring
      ensures Written(more, was, first, i + 1, next)
    {
      hide Serialize, PacketRecords, ActiveRecords, FinishedRecords;
      next, more := offset, records;
      var entry := finishedComs.ring[i % finishedComs.ringSize].value;
      assert entry == finishedComs.log[i];
      if entry.dirty {
        assert entry == pushed[i];
        PacketSnoc(activeComs, pushed, first, i);
        next := AddRecord(FINISHED_COM, entry, offset, records);
        more := records + [Record(FINISHED_COM, entry)];
        finishedComs.Update(i, entry.(dirty := false));
      } else {
        assert first == i + 1 ==> pushed[first..i + 1] == [];
      }
    }

    method WriteAllFinished(offset: nat, ghost records: seq<Record>, ghost was: nat, ghost first: nat)
      returns (next: nat, ghost all: seq<Record>)
      requires finishedComs.tail <= finishedComs.head && Written(records, was, first, finishedComs.tail, offset)
      requires (1 + STRING_SIZE) * (|activeComs| + (finishedComs.head - finishedComs.tail)) <= buffer.Length
      modifies buffer, finishedComs`log, finishedComs.ring
      ensures Written(all, was, first, finishedComs.head, next)
    {
      hide Written;
      next, all := offset, records;
      var i := finishedComs.tail;
      while i < finishedComs.head
        invariant i <= finishedComs.head && Written(all, was, first, i, next)
      {
        next, all := WriteFinished(i, next, all, was, first);
        i := i + 1;
      }
    }

    /** Serialises the table: the ongoing communications, then every finished one that
        is still dirty, which is clean afterwards. */
    method ToString() returns (length: nat)
      requires Valid()
      requires (1 + STRING_SIZE) * (|activeComs| + (finishedComs.head - finishedComs.tail)) <= buffer.Length
      modifies buffer, this`sent, finishedComs`log, finishedComs.ring
      ensures Valid() && sent == |pushed|
      ensures length <= buffer.Length
      ensures buffer[..length] == Serialize(PacketRecords(activeComs, old(Unsent())))
    {
      hide Serialize, ActiveRecords;
      ghost var was, first := sent, Max(sent, finishedComs.tail);
      length := WriteActive();
      ghost var records := PacketRecords(activeComs, []);
      assert records == ActiveRecords(activeComs);
      length, records := WriteAllFinished(length, records, was, first);
      assert pushed[first..|pushed|] == pushed[first..];
      sent := |pushed|;
    }

    /** Reads a packet: the ongoing communications are replaced, finished ones are
        added. Reading stops, with what was read kept, at an entry that is cut short. */
    method UpdateFromString(bytes: array<Byte>, length: nat) returns (ok: bool)
      requires Valid() && length <= bytes.Length
      modifies this`activeComs, this`pushed, finishedComs, finishedComs.ring
      ensures Valid() && sent == old(sent)
      ensures var u := Parse(old(bytes[..length]));
              ok == u.ok && activeComs == u.active && pushed == old(pushed) + u.finished
    {
      hide Parse;
      activeComs := [];
      ghost var whole := bytes[..length];
      assert whole[0..] == whole;
      ParseNothing();
      ok := ReadRecords(bytes, length, whole, pushed);
    }

    method ReadRecords(bytes: array<Byte>, length: nat, ghost whole: seq<Byte>, ghost before: seq<RetEntry>)
      returns (ok: bool)
      requires Valid() && length <= bytes.Length && bytes[..length] == whole && before == pushed
      requires Left(whole, before, 0, ACTIVE_COM, true)
      modifies this`activeComs, this`pushed, finishedComs, finishedComs.ring
      ensures Valid() && before <= pushed
      ensures Remaining(Parse(whole), before, Update([], [], ok))
    {
      hide Remaining, Parse, Valid;
      ok := true;
      var comType: Byte := ACTIVE_COM;
      var offset: nat := 0;
      while ok && offset < length && comType != PACKET_END
        invariant offset <= length && Valid() && before <= pushed
        invariant Left(whole, before, offset, comType, ok)
        decreases length - offset
        modifies this`activeComs, this`pushed, finishedComs, finishedComs.ring
      {
        comType, offset, ok := ReadRecord(bytes, length, offset, whole, before);
      }
      assert whole[length..] == [];
      ParseNothing();
    }

    /** The rest of the packet, after what has been read. */
    ghost predicate Left(whole: seq<Byte>, before: seq<RetEntry>, offset: nat, comType: Byte, ok: bool)
      requires before <= pushed && offset <= |whole|
      reads this
    {
      Remaining(Parse(whole), before,
                if !ok then Update([], [], false)
                else if comType == PACKET_END then Update([], [], true)
                else Parse(whole[offset..]))
    }

    /** Reads one record, or one byte that starts none. */
    method ReadRecord(bytes: array<Byte>, length: nat, offset: nat, ghost whole: seq<Byte>, ghost before: seq<RetEntry>)
      returns (comType: Byte, next: nat, ok: bool)
      requires Valid() && offset < length <= bytes.Length && bytes[..length] == whole && before <= pushed
      requires Remaining(Parse(whole), before, Parse(whole[offset..]))
      modifies this`activeComs, this`pushed, finishedComs, finishedComs.ring
      ensures Valid() && offset < next <= length && before <= pushed
      ensures Left(whole, before, next, comType, ok)
    {
      hide Parse, ParseEntry, Received;
      comType, next, ok := bytes[offset], offset + 1, true;
      assert comType == whole[offset] && bytes[next..length] == whole[next..];
      ParseAt(whole, offset);
      if Signed(comType) < PACKET_END {
        var parsed := ParseEntry(bytes[next..length]);
        if parsed == None {
          ok := false;
        } else {
          next := next + STRING_SIZE;
          Receive(comType, parsed.value, Parse(whole), before, Parse(whole[next..]));
        }
      }
    }

    /** What has been read and what is left make up the whole packet. */
    ghost predicate Remaining(whole: Update, before: seq<RetEntry>, rest: Update)
      requires before <= pushed
      reads this
    {
      whole == Update(activeComs + rest.active, pushed[|before|..] + rest.finished, rest.ok)
    }

    /** Files a parsed entry under its kind. */
    method Receive(comType: Byte, entry: RetEntry,
                   ghost whole: Update, ghost before: seq<RetEntry>, ghost later: Update)
      requires Valid() && entry.dirty
      requires before <= pushed && Remaining(whole, before, Received(comType, entry, later))
      modifies this`activeComs, this`pushed, finishedComs, finishedComs.ring
      ensures Valid() && before <= pushed && Remaining(whole, before, later)
    {
      if comType == ACTIVE_COM {
        activeComs := activeComs + [entry];
      } else if comType == FINISHED_COM {
        Finish(entry);
      }
    }
  }

  lemma PacketSnoc(active: seq<RetEntry>, pushed: seq<RetEntry>, first: nat, i: nat)
    requires first <= i < |pushed|
    ensures PacketRecords(active, pushed[first..i + 1]) ==
            PacketRecords(active, pushed[first..i]) + [Record(FINISHED_COM, pushed[i])]
  {
    hide ActiveRecords;
    assert pushed[first..i + 1] == pushed[first..i] + [pushed[i]];
  }

  /** Reading one record, or one byte that starts none, at an offset. */
  lemma ParseAt(whole: seq<Byte>, offset: nat)
    requires offset < |whole|
    ensures var kind, rest := whole[offset], whole[offset + 1..];
            if Signed(kind) < PACKET_END then
              && (ParseEntry(rest).None? ==> Parse(whole[offset..]) == Update([], [], false))
              && (ParseEntry(rest).Some? ==>
                    && offset + 1 + STRING_SIZE <= |whole|
                    && Parse(whole[offset..]) ==
                       Received(kind, ParseEntry(rest).value, Parse(whole[offset + 1 + STRING_SIZE..])))
            else Parse(whole[offset..]) == if kind == PACKET_END then Update([], [], true) else Parse(rest)
  {
    hide Received;
    assert whole[offset..][1..] == whole[offset + 1..];
    assert |whole| >= offset + 1 + STRING_SIZE ==>
      whole[offset..][1 + STRING_SIZE..] == whole[offset + 1 + STRING_SIZE..];
  }

  /** The selected entries. */
  ghost function Select(entries: seq<RetEntry>, positions: seq<nat>): seq<RetEntry>
    requires forall i :: 0 <= i < |positions| ==> positions[i] < |entries|
  {
    seq(|positions|, i requires 0 <= i < |positions| => entries[positions[i]])
  }

  /** The state of a sender and of one viewer of it, in the terms of the replication
      protocol: the viewer has got the entries the protocol says, and no others. */
  ghost predicate Linked(sender: RadioEventTable, viewer: RadioEventTable, l: Replication.Link)
    reads sender, viewer
  {
    && |sender.pushed| == l.pushed && sender.sent == l.sent <= l.pushed
    && (forall i :: 0 <= i < |l.received| ==> l.received[i] < l.pushed)
    && viewer.pushed == Select(sender.pushed, l.received)
  }

  /** A communication ends at the sender. */
  method FinishStep(sender: RadioEventTable, viewer: RadioEventTable, entry: RetEntry, ghost l: Replication.Link)
    requires sender != viewer && sender.Valid() && entry.dirty && Linked(sender, viewer, l)
    modifies sender`pushed, sender.finishedComs, sender.finishedComs.ring
    ensures sender.Valid() && sender.pushed == old(sender.pushed) + [entry]
    ensures Linked(sender, viewer, Replication.Next(l, Replication.Push, sender.finishedComs.ringSize))
  {
    sender.Finish(entry);
  }

  /** A packet is written, sent, and read by the viewer: it sees the ongoing
      communications, and gets the finished ones that the packet carries. */
  method Transfer(sender: RadioEventTable, viewer: RadioEventTable) returns (ok: bool)
    requires sender != viewer && sender.finishedComs != viewer.finishedComs
    requires sender.finishedComs.ring != viewer.finishedComs.ring
    requires sender.Valid() && viewer.Valid()
    requires (1 + STRING_SIZE) * (|sender.activeComs| + (sender.finishedComs.head - sender.finishedComs.tail))
             <= sender.buffer.Length
    modifies sender.buffer, sender`sent, sender.finishedComs, sender.finishedComs.ring
    modifies viewer`activeComs, viewer`pushed, viewer.finishedComs, viewer.finishedComs.ring
    ensures ok && sender.Valid() && viewer.Valid() && sender.sent == |sender.pushed|
    ensures viewer.activeComs == Visible(sender.activeComs)
    ensures viewer.pushed == old(viewer.pushed) + old(sender.Unsent())
  {
    hide Serialize, Parse, PacketRecords, Visible;
    ghost var unsent := sender.Unsent();
    assert forall i :: 0 <= i < |unsent| ==> unsent[i].dirty;
    var length := sender.ToString();
    PacketTransfers(sender.activeComs, unsent);
    ok := viewer.UpdateFromString(sender.buffer, length);
  }

  /** The transfer is the protocol's step. */
  method PacketStep(sender: RadioEventTable, viewer: RadioEventTable, ghost l: Replication.Link) returns (ok: bool)
    requires sender != viewer && sender.finishedComs != viewer.finishedComs
    requires sender.finishedComs.ring != viewer.finishedComs.ring
    requires sender.Valid() && viewer.Valid() && Linked(sender, viewer, l)
    requires (1 + STRING_SIZE) * (|sender.activeComs| + (sender.finishedComs.head - sender.finishedComs.tail))
             <= sender.buffer.Length
    modifies sender.buffer, sender`sent, sender.finishedComs, sender.finishedComs.ring
    modifies viewer`activeComs, viewer`pushed, viewer.finishedComs, viewer.finishedComs.ring
    ensures ok && sender.Valid() && viewer.Valid()
    ensures viewer.activeComs == Visible(sender.activeComs)
    ensures Linked(sender, viewer, Replication.Next(l, Replication.Packet, sender.finishedComs.ringSize))
  {
    hide Visible;
    ok := Transfer(sender, viewer);
  }

  // ------------------------------------------------------------------ whole runs

  /** What happens to a table that has a viewer. */
  datatype TableEvent = Ends(entry: RetEntry) | Changes(active: seq<RetEntry>) | Sends

  /** The events in the terms of the replication protocol. */
  function Protocol(events: seq<TableEvent>): seq<Replication.Event>
    decreases |events|
  {
    if events == [] then []
    else
      Protocol(events[..|events| - 1]) +
      match events[|events| - 1]
      case Ends(_) => [Replication.Push]
      case Changes(_) => []
      case Sends => [Replication.Packet]
  }

  /** The communications that have ended. */
  function Ended(events: seq<TableEvent>): seq<RetEntry>
    decreases |events|
  {
    if events == [] then []
    else
      Ended(events[..|events| - 1]) +
      match events[|events| - 1]
      case Ends(entry) => [entry]
      case _ => []
  }

  /** An entry that ends has just been updated. */
  predicate Dirty(events: seq<TableEvent>) {
    forall k :: 0 <= k < |events| && events[k].Ends? ==> events[k].entry.dirty
  }

  /** The buffer has room for the ongoing communications and a full ring. */
  predicate HasRoom(active: seq<RetEntry>, ringSize: nat, bufferSize: nat) {
    (1 + STRING_SIZE) * (|active| + ringSize) <= bufferSize
  }

  predicate AllHaveRoom(events: seq<TableEvent>, ringSize: nat, bufferSize: nat) {
    forall k :: 0 <= k < |events| && events[k].Changes? ==> HasRoom(events[k].active, ringSize, bufferSize)
  }

  lemma EventsSnoc(events: seq<TableEvent>, i: nat, n: nat)
    requires i < |events|
    ensures Replication.Run(Protocol(events[..i + 1]), n) ==
            AfterEvent(Replication.Run(Protocol(events[..i]), n), events[i], n)
    ensures Ended(events[..i + 1]) == Ended(events[..i]) + if events[i].Ends? then [events[i].entry] else []
  {
    hide Replication.Next;
    assert events[..i + 1][..i] == events[..i] && events[..i + 1][i] == events[i];
    var before, after := Protocol(events[..i]), Protocol(events[..i + 1]);
    match events[i] {
      case Ends(_) =>
        assert after == before + [Replication.Push] && after[..|after| - 1] == before;
      case Changes(_) =>
        assert after == before + [] == before;
      case Sends =>
        assert after == before + [Replication.Packet] && after[..|after| - 1] == before;
    }
  }

  lemma SelectFirst(entries: seq<RetEntry>, n: nat)
    requires n <= |entries|
    ensures Select(entries, Replication.Interval(0, n)) == entries[..n]
  {
  }

  /** The two tables of a sender and its viewer do not share anything. */
  ghost predicate Separate(sender: RadioEventTable, viewer: RadioEventTable) {
    sender != viewer && sender.finishedComs != viewer.finishedComs
    && sender.finishedComs.ring != viewer.finishedComs.ring
  }

  /** The ongoing communications have changed. */
  method ChangeStep(sender: RadioEventTable, viewer: RadioEventTable, active: seq<RetEntry>, ghost l: Replication.Link)
    requires sender != viewer && sender.Valid() && Linked(sender, viewer, l)
    modifies sender`activeComs
    ensures sender.Valid() && Linked(sender, viewer, l) && sender.activeComs == active
  {
    sender.activeComs := active;
  }

  lemma BufferHasRoom(sender: RadioEventTable)
    requires sender.Valid() && HasRoom(sender.activeComs, sender.finishedComs.ringSize, sender.buffer.Length)
    ensures sender.finishedComs.tail <= sender.finishedComs.head
    ensures (1 + STRING_SIZE) * (|sender.activeComs| + (sender.finishedComs.head - sender.finishedComs.tail))
            <= sender.buffer.Length
  {
    MulMono(|sender.activeComs| + (sender.finishedComs.head - sender.finishedComs.tail),
            |sender.activeComs| + sender.finishedComs.ringSize, 1 + STRING_SIZE);
  }

  function AfterEvent(l: Replication.Link, e: TableEvent, ringSize: nat): Replication.Link
    requires l.sent <= l.pushed
  {
    match e
    case Ends(_) => Replication.Next(l, Replication.Push, ringSize)
    case Changes(_) => l
    case Sends => Replication.Next(l, Replication.Packet, ringSize)
  }

  /** One event. */
  method TableStep(sender: RadioEventTable, viewer: RadioEventTable, e: TableEvent, ghost l: Replication.Link)
    requires Separate(sender, viewer) && sender.Valid() && viewer.Valid() && Linked(sender, viewer, l)
    requires l.sent <= l.pushed && (e.Ends? ==> e.entry.dirty)
    requires HasRoom(sender.activeComs, sender.finishedComs.ringSize, sender.buffer.Length)
    requires e.Changes? ==> HasRoom(e.active, sender.finishedComs.ringSize, sender.buffer.Length)
    modifies sender.buffer, sender, sender.finishedComs, sender.finishedComs.ring
    modifies viewer`activeComs, viewer`pushed, viewer.finishedComs, viewer.finishedComs.ring
    ensures sender.Valid() && viewer.Valid()
    ensures HasRoom(sender.activeComs, sender.finishedComs.ringSize, sender.buffer.Length)
    ensures sender.pushed == old(sender.pushed) + if e.Ends? then [e.entry] else []
    ensures Linked(sender, viewer, AfterEvent(l, e, sender.finishedComs.ringSize))
  {
    hide Linked, HasRoom, Replication.Next;
    match e {
      case Ends(entry) =>
        FinishStep(sender, viewer, entry, l);
      case Changes(active) =>
        ChangeStep(sender, viewer, active, l);
      case Sends =>
        BufferHasRoom(sender);
        var _ := PacketStep(sender, viewer, l);
    }
  }

  /** Over any events, the viewer gets exactly the entries the replication protocol says:
      if no more end between two packets than the ring holds, all that a packet has covered,
      in order and once. */
  method Replicate(sender: RadioEventTable, viewer: RadioEventTable, events: seq<TableEvent>)
    requires Separate(sender, viewer) && sender.Valid() && viewer.Valid()
    requires sender.pushed == viewer.pushed == [] && sender.sent == 0 && Dirty(events)
    requires HasRoom(sender.activeComs, sender.finishedComs.ringSize, sender.buffer.Length)
    requires AllHaveRoom(events, sender.finishedComs.ringSize, sender.buffer.Length)
    modifies sender.buffer, sender, sender.finishedComs, sender.finishedComs.ring
    modifies viewer`activeComs, viewer`pushed, viewer.finishedComs, viewer.finishedComs.ring
    ensures sender.Valid() && viewer.Valid() && sender.pushed == Ended(events)
    ensures Linked(sender, viewer, Replication.Run(Protocol(events), sender.finishedComs.ringSize))
    ensures Replication.Quiet(Protocol(events), sender.finishedComs.ringSize).0 ==>
              viewer.pushed == sender.pushed[..sender.sent]
  {
    hide Protocol, Ended, Replication.Run, Replication.Quiet, AfterEvent, HasRoom, Linked;
    ghost var n := sender.finishedComs.ringSize;
    NothingYet(sender, viewer, n);
    assert events[..0] == [];
    for i := 0 to |events|
      invariant sender.Valid() && viewer.Valid() && sender.pushed == Ended(events[..i])
      invariant HasRoom(sender.activeComs, n, sender.buffer.Length)
      invariant Linked(sender, viewer, Replication.Run(Protocol(events[..i]), n))
    {
      EventsSnoc(events, i, n);
      TableStep(sender, viewer, events[i], Replication.Run(Protocol(events[..i]), n));
    }
    assert events[..|events|] == events;
    LinkedGives(sender, viewer, Replication.Run(Protocol(events), n));
    Replication.EverythingReceivedIffNoBurst(Protocol(events), n);
    SelectFirst(sender.pushed, sender.sent);
  }

  lemma LinkedGives(sender: RadioEventTable, viewer: RadioEventTable, l: Replication.Link)
    requires Linked(sender, viewer, l)
    ensures |sender.pushed| == l.pushed && sender.sent == l.sent <= l.pushed
    ensures (forall i :: 0 <= i < |l.received| ==> l.received[i] < l.pushed)
    ensures viewer.pushed == Select(sender.pushed, l.received)
  {
  }

  lemma NothingYet(sender: RadioEventTable, viewer: RadioEventTable, n: nat)
    requires sender.pushed == viewer.pushed == [] && sender.sent == 0
    ensures Ended([]) == [] && Linked(sender, viewer, Replication.Run(Protocol([]), n))
  {
  }
}
