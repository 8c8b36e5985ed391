// The sample ring between operations: a never-blocking producer stages samples
// in a ring array and publishes them; the ring stands for an unbounded stream.

module RingBuffers {
  import opened Slots
  import opened Markers

  /** The oldest position that `newHead` samples leave in a ring of `length` slots. */
  function TailFor(newHead: nat, length: nat): nat {
    if newHead < length then 0 else newHead - length
  }

  /** The public head: the last published position, unless staging has already
      overwritten it. */
  function HeadFor(published: nat, newHead: nat, length: nat): nat {
    Max(published, TailFor(newHead, length))
  }

  /** The length of the contiguous run of slots that starts at a position. */
  function Contiguous(pos: nat, wanted: nat, length: nat): (n: nat)
    requires 0 < length
  {
    Min(wanted, length - pos % length)
  }

  /** A chunk falls short only at the end of the ring, and after it any request
      of at most one ring length is served whole. */
  lemma ChunkStopsAtWrap(pos: nat, wanted: nat, length: nat)
    requires 0 < length
    ensures var n := Contiguous(pos, wanted, length);
            && n <= wanted && (0 < wanted ==> 0 < n)
            && (n < wanted ==> (pos + n) % length == 0)
            && (pos % length == 0 && wanted <= length ==> n == wanted)
  {
    var n := Contiguous(pos, wanted, length);
    if n < wanted {
      assert pos + n == pos - pos % length + length == (pos / length + 1) * length;
      DivModUnique(pos + n, pos / length + 1, 0, length);
    }
  }

  class RingBuffer<Sample(0), Marker> {
    const ringLength: nat
    const ring: array<Sample>
    var newHead: nat
    var head: nat
    var tail: nat
    var markers: seq<MarkerInternal<Marker>>

    /** Every sample ever staged, by absolute position. */
    ghost var stream: seq<Sample>
    /** The position up to which samples were last published. */
    ghost var published: nat

    ghost predicate Valid()
      reads this, ring
    {
      && 0 < ringLength == ring.Length
      && |stream| == newHead && published <= newHead
      && tail == TailFor(newHead, ringLength)
      && head == HeadFor(published, newHead, ringLength)
      && Holds(tail, newHead)
      && WellFormed(markers) && Between(markers, tail, newHead)
    }

    /** The slots of the positions [lo, hi) hold the samples of the stream. */
    ghost predicate Holds(lo: nat, hi: nat)
      reads this, ring
    {
      && 0 < ring.Length && hi <= |stream|
      && forall p :: lo <= p < hi ==> ring[p % ring.Length] == stream[p]
    }

    constructor (size: nat)
      requires 0 < size
      ensures Valid() && fresh(ring) && ringLength == size
      ensures stream == [] && published == 0 && markers == []
    {
      ringLength := size;
      ring := new Sample[size];
      newHead, head, tail := 0, 0, 0;
      markers, stream, published := [], [], 0;
    }

    predicate IsPositionValid(pos: nat)
      reads this
    {
      tail <= pos < head
    }

    /** A published contiguous run of slots holds the stream from that position. */
    lemma ChunkHoldsStream(pos: nat, n: nat)
      requires Valid() && tail <= pos && pos + n <= newHead
      requires pos % ringLength + n <= ringLength
      ensures ring[pos % ringLength..pos % ringLength + n] == stream[pos..pos + n]
    {
      var slot := pos % ringLength;
      var inRing, inStream := ring[slot..slot + n], stream[pos..pos + n];
      forall k | 0 <= k < n
        ensures inRing[k] == inStream[k]
      {
        ForwardSlot(pos, k, ringLength);
        assert ring[(pos + k) % ringLength] == stream[pos + k];
      }
    }

    method RequestRead(pos: nat, length: nat) returns (ok: bool, n: nat, slot: nat)
      requires Valid()
      ensures ok <==> tail <= pos < head
      ensures !ok ==> n == 0
      ensures ok ==> pos + n <= head && slot + n <= ringLength
      ensures ok ==> n == Contiguous(pos, Min(length, head - pos), ringLength)
      ensures ok ==> ring[slot..slot + n] == stream[pos..pos + n]
    {
      n, slot := length, 0;
      if !IsPositionValid(pos) {
        return false, 0, 0;
      }
      if pos + n > head {
        n := head - pos;
      }
      n, slot := RequestReadUnsafe(pos, n);
      ChunkHoldsStream(pos, n);
      ok := true;
    }

    method RequestReadUnsafe(pos: nat, length: nat) returns (n: nat, slot: nat)
      requires 0 < ringLength
      ensures n == Contiguous(pos, length, ringLength) && slot == pos % ringLength
      ensures slot + n <= ringLength && (0 < length ==> 0 < n)
    {
      n := length;
      if pos % ringLength + n >= ringLength {
        n := ringLength - pos % ringLength;
      }
      slot := pos % ringLength;
    }

    /** The reader of the class documentation: asks for contiguous chunks until
        the whole range has been copied. */
    method ReadSamples(pos: nat, length: nat) returns (samples: seq<Sample>, chunks: nat)
      requires Valid()
      requires tail <= pos && pos + length <= head
      ensures samples == stream[pos..pos + length]
      ensures chunks <= 2
    {
      samples, chunks := [], 0;
      var at, left := pos, length;
      while left > 0
        invariant 0 <= left && pos <= at && at + left == pos + length && head <= |stream|
        invariant samples == stream[pos..at]
        invariant chunks == 0 ==> at == pos
        invariant chunks == 1 && 0 < left ==> at % ringLength == 0
        invariant chunks == 2 ==> left == 0
        invariant chunks <= 2
        decreases left
      {
        ghost var at0 := at;
        var ok, n, slot := RequestRead(at, left);
        samples := samples + ring[slot..slot + n];
        at, left := at + n, left - n;
        chunks := chunks + 1;
        ChunkStopsAtWrap(at0, at - at0 + left, ringLength);
        assert stream[pos..at] == stream[pos..at0] + stream[at0..at];
      }
    }

    /** `startPos` and `restartPos` are the signed `wantedPos` of `requestReadLastN`: they are
        negative when more samples are asked for than were ever published. */
    method RequestReadLastN(n: nat) returns (packetSize: nat, startPos: int, restartPos: int, slot: nat)
      requires Valid()
      ensures startPos == head - n
      ensures head - tail < n ==> packetSize == 0 && restartPos == startPos
      ensures n <= head - tail ==>
                && packetSize == Contiguous(startPos, n, ringLength)
                && restartPos == startPos + packetSize
                && slot + packetSize <= ringLength
                && ring[slot..slot + packetSize] == stream[startPos..restartPos]
    {
      var wantedPos: int := head - n;
      packetSize, slot := n, 0;
      if head - tail < n {
        return 0, wantedPos, wantedPos, 0;
      }
      if wantedPos % ringLength + n >= ringLength {
        packetSize := ringLength - wantedPos % ringLength;
      }
      slot := wantedPos % ringLength;
      startPos, restartPos := wantedPos, wantedPos + packetSize;
      ChunkHoldsStream(startPos, packetSize);
    }

    lemma WindowBounds()
      requires Valid()
      ensures 0 < ringLength == ring.Length && tail <= head <= newHead == |stream| && head - tail <= ringLength
    {
    }

    /** Reading the last n samples, with one restart when the ring wraps around. */
    method ReadLastN(n: nat) returns (samples: seq<Sample>)
      requires Valid() && n <= head - tail
      ensures samples == stream[head - n..head]
    {
      hide Valid, Holds, Contiguous;
      WindowBounds();
      var packetSize, startPos, restartPos, slot := RequestReadLastN(n);
      samples := ring[slot..slot + packetSize];
      ChunkStopsAtWrap(startPos, n, ringLength);
      if packetSize < n {
        ChunkStopsAtWrap(restartPos, n - packetSize, ringLength);
        var ok, m, slot2 := RequestRead(restartPos, n - packetSize);
        samples := samples + ring[slot2..slot2 + m];
        assert stream[startPos..head] == stream[startPos..restartPos] + stream[restartPos..head];
      }
    }

    /** Stages `packetSize` positions and hands out their slots, still holding
        whatever was there before. A public position that the ring still has room for
        stays public, and keeps its sample. */
    method RequestWrite(length: nat) returns (packetSize: nat, slot: nat)
      requires Valid()
      modifies this
      ensures Valid() && published == old(published)
      ensures packetSize == Contiguous(old(newHead), length, ringLength)
      ensures slot == old(newHead) % ringLength && slot + packetSize <= ringLength
      ensures 0 < length ==> 0 < packetSize
      ensures newHead == old(newHead) + packetSize
      ensures tail == Max(0, newHead - ringLength) && head == Max(old(head), tail)
      ensures forall p :: old(tail) <= p < old(head) && tail <= p ==>
                p < head && ring[p % ringLength] == stream[p] == old(stream)[p]
      ensures stream[..old(newHead)] == old(stream)
      ensures forall p :: tail <= p < old(newHead) ==> !(slot <= p % ringLength < slot + packetSize)
      ensures MapOf(markers) == Retained(MapOf(old(markers)), tail)
    {
      ghost var oldHead := newHead;
      packetSize, slot := RequestReadUnsafe(newHead, length);
      var wantedNewHead := newHead + packetSize;
      Reserve(packetSize);
      newHead := wantedNewHead;
      stream := stream + ring[slot..slot + packetSize];
      GrantedSlotsHoldTheirPositions(oldHead, packetSize);
    }

    /** Makes room for a packet: the tail moves first, and takes the public head
        and the overwritten markers with it. */
    method Reserve(packetSize: nat)
      requires Valid() && packetSize <= ringLength
      modifies this`head, this`tail, this`markers
      ensures tail == TailFor(newHead + packetSize, ringLength)
      ensures head == HeadFor(published, newHead + packetSize, ringLength)
      ensures old(tail) <= tail <= newHead
      ensures WellFormed(markers) && Between(markers, tail, newHead)
      ensures MapOf(markers) == Retained(MapOf(old(markers)), tail)
    {
      var oldTail := tail;
      if newHead - tail + packetSize >= ringLength {
        var wantedTail := newHead + packetSize - ringLength;
        if wantedTail > head {
          head := wantedTail;
        }
        tail := wantedTail;
        EvictMarkers(oldTail, wantedTail);
        forall i | 0 <= i < |markers|
          ensures wantedTail <= markers[i].pos < newHead
        {
          assert markers[i] in markers;
        }
      } else {
        NothingBelow(markers, tail);
      }
    }

    /** Deletes the markers of overwritten positions from the front of the list. */
    method EvictMarkers(oldTail: nat, wantedTail: nat)
      requires WellFormed(markers)
      requires forall i :: 0 <= i < |markers| ==> oldTail <= markers[i].pos
      modifies this`markers
      ensures WellFormed(markers)
      ensures forall x :: x in markers ==> x in old(markers) && wantedTail <= x.pos
      ensures MapOf(markers) == Retained(MapOf(old(markers)), wantedTail)
    {
      ghost var before := markers;
      ghost var evicted := 0;
      while markers != [] && markers[0].pos >= oldTail && markers[0].pos < wantedTail
        invariant 0 <= evicted <= |before| && markers == before[evicted..]
        invariant forall i :: 0 <= i < evicted ==> before[i].pos < wantedTail
        decreases |markers|
      {
        evicted := evicted + 1;
        markers := markers[1..];
      }
      DropIsMapRestriction(before, evicted, wantedTail);
    }

    /** The granted slots belong to the granted positions and to no surviving one. */
    lemma GrantedSlotsHoldTheirPositions(at: nat, n: nat)
      requires 0 < ringLength == ring.Length && |stream| == newHead == at + n
      requires at % ringLength + n <= ringLength
      requires tail == TailFor(newHead, ringLength)
      requires Holds(tail, at)
      requires stream[at..] == ring[at % ringLength..at % ringLength + n]
      ensures Holds(tail, newHead)
      ensures forall p :: tail <= p < at ==> !(at % ringLength <= p % ringLength < at % ringLength + n)
    {
      forall p | at <= p < newHead
        ensures ring[p % ringLength] == stream[p]
      {
        ForwardSlot(at, p - at, ringLength);
        assert stream[at..][p - at] == stream[p];
      }
      forall p | tail <= p < at
        ensures !(at % ringLength <= p % ringLength < at % ringLength + n)
      {
        if at % ringLength <= p % ringLength < at % ringLength + n {
          var k := p % ringLength - at % ringLength;
          ForwardSlot(at, k, ringLength);
          DistinctSlots(p, at + k, ringLength);
        }
      }
    }

    /** The caller's copy into the granted slots. */
    method Fill(ghost at: nat, slot: nat, data: seq<Sample>)
      requires Valid() && tail <= at && at + |data| == newHead
      requires slot == at % ringLength && slot + |data| <= ringLength
      modifies this`stream, ring
      ensures Valid() && stream == old(stream)[..at] + data
    {
      forall i | 0 <= i < |data| {
        ring[slot + i] := data[i];
      }
      stream := stream[..at] + data;
      forall p | tail <= p < newHead
        ensures ring[p % ringLength] == stream[p]
      {
        if p < at {
          if slot <= p % ringLength < slot + |data| {
            ForwardSlot(at, p % ringLength - slot, ringLength);
            DistinctSlots(p, at + (p % ringLength - slot), ringLength);
          }
          assert ring[p % ringLength] == old(ring[p % ringLength]);
        } else {
          ForwardSlot(at, p - at, ringLength);
        }
      }
    }

    method ValidateWrite()
      requires Valid()
      modifies this`head, this`published
      ensures Valid() && published == newHead == head
    {
      head := newHead;
      published := newHead;
    }

    /** Appends to the stream, for any number of samples, and returns the public
        head it found: the position of the first sample it appends exactly when
        nothing was staged before. */
    method AddSamples(samples: seq<Sample>) returns (begin: nat)
      requires Valid()
      modifies this, ring
      ensures Valid() && published == old(published)
      ensures stream == old(stream) + samples
      ensures begin == old(head)
      ensures begin == |old(stream)| <==> old(head) == old(newHead)
      ensures newHead == old(newHead) + |samples|
      ensures tail == Max(0, newHead - ringLength) && head == Max(old(head), tail)
      ensures forall p :: old(tail) <= p < old(head) && tail <= p ==>
                p < head && ring[p % ringLength] == stream[p] == old(stream)[p]
      ensures MapOf(markers) == Retained(MapOf(old(markers)), tail)
      ensures forall p :: p in MapOf(old(markers)) && tail <= p ==>
                p in MapOf(markers) && MapOf(markers)[p] == MapOf(old(markers))[p]
    {
      begin := head;
      var done := 0;
      assert samples[..0] == [];
      NothingBelow(markers, tail);
      while done < |samples|
        invariant 0 <= done <= |samples|
        invariant Valid() && published == old(published)
        invariant old(tail) <= tail
        invariant stream == old(stream) + samples[..done]
        invariant MapOf(markers) == Retained(MapOf(old(markers)), tail)
        decreases |samples| - done
      {
        ghost var at, lo := newHead, tail;
        var packetSize, slot := RequestWrite(|samples| - done);
        Fill(at, slot, samples[done..done + packetSize]);
        RetainedTwice(MapOf(old(markers)), lo, tail);
        assert samples[..done + packetSize] == samples[..done] + samples[done..done + packetSize];
        done := done + packetSize;
      }
      assert samples[..done] == samples;
    }

    /** Map update at a staged position; refused everywhere else. */
    method AddMarker(marker: Marker, pos: nat) returns (ok: bool)
      requires Valid()
      modifies this`markers
      ensures Valid()
      ensures ok <==> head <= pos < newHead
      ensures ok ==> MapOf(markers) == MapOf(old(markers))[pos := marker]
      ensures !ok ==> markers == old(markers)
    {
      if !(pos >= head && pos < newHead) {
        return false;
      }
      InsertIsMapUpdate(markers, pos, marker);
      InsertWellFormed(markers, pos, marker);
      InsertElements(markers, pos, marker);
      InsertMarker(marker, pos);
      assert forall x :: 0 <= x < |markers| ==> markers[x] in markers;
      ok := true;
    }

    /** The walk from the back of the list. */
    method InsertMarker(marker: Marker, pos: nat)
      modifies this`markers
      ensures markers == Insert(old(markers), pos, marker)
    {
      ghost var before := markers;
      var m := MarkerInternal(pos, marker);
      var i := |markers|;
      assert before[..i] == before && markers[i..] == [];
      while i > 0
        invariant 0 <= i <= |before| == |markers|
        invariant markers[..i] == before[..i]
        invariant Insert(before, pos, marker) == Insert(before[..i], pos, marker) + markers[i..]
      {
        assert before[..i][..i - 1] == before[..i - 1];
        assert markers[i - 1] == markers[..i][i - 1] == before[i - 1];
        if markers[i - 1].pos == pos {
          markers := markers[i - 1 := m];
          assert markers[i - 1..] == [m] + markers[i..];
        } else if markers[i - 1].pos < pos {
          markers := markers[..i] + [m] + markers[i..];
          return;
        } else {
          assert markers[i - 1..] == [markers[i - 1]] + markers[i..];
        }
        i := i - 1;
      }
      markers := [m] + markers;
    }

    method GetMarker(markerPos: nat) returns (found: bool, marker: seq<Marker>)
      requires Valid()
      ensures found <==> markerPos in MapOf(markers)
      ensures marker == if found then [MapOf(markers)[markerPos]] else []
    {
      KeysOfMap(markers, markerPos);
      var i := |markers|;
      while i > 0
        invariant 0 <= i <= |markers|
        invariant forall k :: i <= k < |markers| ==> markers[k].pos != markerPos
      {
        if markers[i - 1].pos == markerPos {
          return true, [markers[i - 1].m];
        }
        i := i - 1;
      }
      return false, [];
    }

    /** The marker right before a public position. */
    method FindMarker(pos: nat) returns (found: seq<MarkerInternal<Marker>>)
      requires Valid()
      ensures |found| <= 1
      ensures found != [] <==> tail <= pos < head && exists p :: p in MapOf(markers) && p <= pos
      ensures found != [] ==>
                && found[0].pos <= pos && found[0].pos in MapOf(markers)
                && found[0].m == MapOf(markers)[found[0].pos]
                && forall p :: p in MapOf(markers) && p <= pos ==> p <= found[0].pos
    {
      if !IsPositionValid(pos) {
        return [];
      }
      var i := |markers|;
      while i > 0 && markers[i - 1].pos > pos
        invariant 0 <= i <= |markers|
        invariant forall k :: i <= k < |markers| ==> pos < markers[k].pos
      {
        i := i - 1;
      }
      forall p | p in MapOf(markers) && p <= pos
        ensures 0 < i && p <= markers[i - 1].pos
      {
        KeysOfMap(markers, p);
      }
      if i > 0 {
        assert markers[i - 1].pos in MapOf(markers);
        found := [markers[i - 1]];
      } else {
        found := [];
      }
    }

    /** The writer of the class documentation: data and marker become public
        together. The position returned by `AddSamples` is accepted exactly when
        it has not been overwritten by the same call. */
    method WriteSamples(samples: seq<Sample>, marker: Marker) returns (ok: bool)
      requires Valid()
      modifies this, ring
      ensures Valid() && stream == old(stream) + samples
      ensures head == published == newHead && tail == Max(0, head - ringLength)
      ensures ok <==> 0 < |old(stream)| - old(head) + |samples| <= ringLength
      ensures old(head) == old(newHead) ==> (ok <==> 0 < |samples| <= ringLength)
      ensures ok ==> old(head) in MapOf(markers) && MapOf(markers)[old(head)] == marker
    {
      var begin := AddSamples(samples);
      ok := AddMarker(marker, begin);
      ValidateWrite();
    }
  }

  /** Two calls with nothing published in between: the second returns position 0,
      although its first sample is at position 1. */
  method AddSamplesReturnsAnotherAddress<Sample(0), Marker>(sample: Sample)
    returns (rb: RingBuffer<Sample, Marker>, first: nat, second: nat)
    ensures rb.Valid() && rb.ringLength == 4 && rb.stream == [sample, sample]
    ensures first == 0 && second == 0
  {
    rb := new RingBuffer<Sample, Marker>(4);
    first := rb.AddSamples([sample]);
    second := rb.AddSamples([sample]);
  }
}
