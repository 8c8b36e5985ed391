// The entries of the radio event table and their 41-byte encoding.

module RetEntries {
  import opened Basics
  import opened Slots

  type U32 = x: int | 0 <= x < 0x1_0000_0000
  type U64 = x: int | 0 <= x < 0x1_0000_0000_0000_0000
  type I8 = x: int | -0x80 <= x < 0x80

  const TWO56: int := 0x100_0000_0000_0000

  /** `address` carries the primary/secondary user in its top byte. */
  datatype RetEntry = RetEntry(
    id: U64, timeStart: U64, timeEnd: U64, frequencyStart: U32, frequencyEnd: U32,
    pwr: I8, dirty: bool, address: U64)

  // --------------------------------------------------------- address packing

  function PsuOf(e: RetEntry): Byte {
    e.address / TWO56
  }

  function AddressOf(e: RetEntry): int {
    e.address % TWO56
  }

  /** Masks out the top byte and puts the user there. */
  function SetPsu(e: RetEntry, psu: Byte): RetEntry {
    e.(address := e.address % TWO56 + psu * TWO56)
  }

  /** Masks out the low 56 bits and puts the address there. */
  function SetAddress(e: RetEntry, address: U64): RetEntry {
    e.(address := e.address / TWO56 * TWO56 + address % TWO56)
  }

  /** The constructor, on memory that holds `garbage` where the address will be. */
  function Construct(garbage: U64, id: U32, timeStart: U64, timeEnd: U64, frequencyStart: U32,
                     frequencyEnd: U32, pwr: I8, psu: Byte, address: U64): RetEntry {
    var e := RetEntry(id, timeStart, timeEnd, frequencyStart, frequencyEnd, pwr, true, garbage);
    SetPsu(SetAddress(e, address), psu)
  }

  /** Although the two setters read the uninitialised field, nothing of it is left. */
  lemma ConstructorDeterminesAddress(
      g: U64, h: U64, id: U32, timeStart: U64, timeEnd: U64, frequencyStart: U32, frequencyEnd: U32,
      pwr: I8, psu: Byte, address: U64)
    ensures var e := Construct(g, id, timeStart, timeEnd, frequencyStart, frequencyEnd, pwr, psu, address);
            && e == Construct(h, id, timeStart, timeEnd, frequencyStart, frequencyEnd, pwr, psu, address)
            && PsuOf(e) == psu && AddressOf(e) == address % TWO56
            && e == RetEntry(id, timeStart, timeEnd, frequencyStart, frequencyEnd, pwr, true,
                             psu * TWO56 + address % TWO56)
  {
    DivModUnique(g / TWO56 * TWO56 + address % TWO56, g / TWO56, address % TWO56, TWO56);
    DivModUnique(h / TWO56 * TWO56 + address % TWO56, h / TWO56, address % TWO56, TWO56);
    DivModUnique(address % TWO56 + psu * TWO56, psu, address % TWO56, TWO56);
  }

  /** The two setters do not disturb each other. */
  lemma SettersAreIndependent(e: RetEntry, psu: Byte, address: U64)
    ensures PsuOf(SetPsu(e, psu)) == psu && AddressOf(SetPsu(e, psu)) == AddressOf(e)
    ensures AddressOf(SetAddress(e, address)) == address % TWO56 && PsuOf(SetAddress(e, address)) == PsuOf(e)
  {
    DivModUnique(e.address % TWO56 + psu * TWO56, psu, e.address % TWO56, TWO56);
    DivModUnique(e.address / TWO56 * TWO56 + address % TWO56, e.address / TWO56, address % TWO56, TWO56);
  }

  // ------------------------------------------------------ fixed-width integers

  function Pow256(k: nat): (p: nat)
    ensures 0 < p
  {
    if k == 0 then 1 else 256 * Pow256(k - 1)
  }

  /** The `k` bytes of an integer in memory, the lowest first. */
  function Bytes(x: nat, k: nat): (bytes: seq<Byte>)
    ensures |bytes| == k
  {
    if k == 0 then [] else [x % 256] + Bytes(x / 256, k - 1)
  }

  function Value(bytes: seq<Byte>): nat {
    if bytes == [] then 0 else bytes[0] + 256 * Value(bytes[1..])
  }

  lemma {:induction false} ValueOfBytes(x: nat, k: nat)
    requires x < Pow256(k)
    ensures Value(Bytes(x, k)) == x
  {
    if k == 0 {
    } else {
      ValueOfBytes(x / 256, k - 1);
      assert Bytes(x, k)[1..] == Bytes(x / 256, k - 1);
    }
  }

  lemma {:induction false} BytesOfValue(bytes: seq<Byte>)
    ensures Value(bytes) < Pow256(|bytes|)
    ensures Bytes(Value(bytes), |bytes|) == bytes
  {
    if bytes == [] {
    } else {
      BytesOfValue(bytes[1..]);
      DivModUnique(Value(bytes), Value(bytes[1..]), bytes[0], 256);
    }
  }

  lemma Widths()
    ensures Pow256(8) == 0x1_0000_0000_0000_0000 && Pow256(4) == 0x1_0000_0000
  {
    assert Pow256(2) == 0x1_0000;
    assert Pow256(4) == 0x1_0000_0000;
    assert Pow256(6) == 0x1_0000_0000_0000;
  }

  // ------------------------------------------------------------ the entry codec

  const STRING_SIZE: nat := 41

  function Unsigned(x: I8): Byte {
    if x < 0 then x + 256 else x
  }

  function Signed(b: Byte): I8 {
    if b < 128 then b else b - 256
  }

  function EntryBytes(e: RetEntry): (bytes: seq<Byte>)
    ensures |bytes| == STRING_SIZE
  {
    Bytes(e.id, 8) + Bytes(e.timeStart, 8) + Bytes(e.timeEnd, 8) +
    Bytes(e.frequencyStart, 4) + Bytes(e.frequencyEnd, 4) + [Unsigned(e.pwr)] + Bytes(e.address, 8)
  }

  /** Byte `j` of an integer in memory: the lowest comes first. */
  lemma {:induction false} ByteAt(x: nat, k: nat, j: nat)
    requires j < k
    ensures Bytes(x, k)[j] == x / Pow256(j) % 256
  {
    if j > 0 {
      ByteAt(x / 256, k - 1, j - 1);
      QuotientOfQuotient(x, Pow256(j - 1));
    }
  }

  lemma QuotientOfQuotient(x: nat, p: nat)
    requires 0 < p
    ensures x / 256 / p == x / (256 * p)
  {
    var q, r := x / 256 / p, x / 256 % p;
    assert x / 256 == q * p + r;
    assert x == q * (256 * p) + (256 * r + x % 256);
    DivModUnique(x, q, 256 * r + x % 256, 256 * p);
  }

  /** Where the fields of an entry stand in its encoding, little end first. */
  lemma EntryLayout(e: RetEntry, j: nat)
    ensures var b := EntryBytes(e);
            && (j < 8 ==>
                  && b[j] == e.id / Pow256(j) % 256
                  && b[8 + j] == e.timeStart / Pow256(j) % 256
                  && b[16 + j] == e.timeEnd / Pow256(j) % 256
                  && b[33 + j] == e.address / Pow256(j) % 256)
            && (j < 4 ==>
                  && b[24 + j] == e.frequencyStart / Pow256(j) % 256
                  && b[28 + j] == e.frequencyEnd / Pow256(j) % 256)
            && b[32] == e.pwr % 256
  {
    hide Bytes;
    if j < 8 {
      ByteAt(e.id, 8, j);
      ByteAt(e.timeStart, 8, j);
      ByteAt(e.timeEnd, 8, j);
      ByteAt(e.address, 8, j);
    }
    if j < 4 {
      ByteAt(e.frequencyStart, 4, j);
      ByteAt(e.frequencyEnd, 4, j);
    }
  }

  function Read64(bytes: seq<Byte>, at: nat): (x: U64)
    requires at + 8 <= |bytes|
  {
    Widths();
    BytesOfValue(bytes[at..at + 8]);
    Value(bytes[at..at + 8])
  }

  function Read32(bytes: seq<Byte>, at: nat): (x: U32)
    requires at + 4 <= |bytes|
  {
    Widths();
    BytesOfValue(bytes[at..at + 4]);
    Value(bytes[at..at + 4])
  }

  /** A parsed entry always counts as dirty. */
  function ParseEntry(bytes: seq<Byte>): (parsed: Option<RetEntry>)
    ensures parsed.Some? <==> STRING_SIZE <= |bytes|
    ensures parsed.Some? ==> parsed.value.dirty
  {
    if |bytes| < STRING_SIZE then None
    else Some(RetEntry(Read64(bytes, 0), Read64(bytes, 8), Read64(bytes, 16), Read32(bytes, 24),
                       Read32(bytes, 28), Signed(bytes[32]), true, Read64(bytes, 33)))
  }

  /** Nothing but the dirty flag is lost on the way. */
  lemma EntryRoundTrip(e: RetEntry, rest: seq<Byte>)
    ensures ParseEntry(EntryBytes(e) + rest) == Some(e.(dirty := true))
  {
    hide Bytes, Value;
    var bytes := EntryBytes(e) + rest;
    Widths();
    ValueOfBytes(e.id, 8);
    ValueOfBytes(e.timeStart, 8);
    ValueOfBytes(e.timeEnd, 8);
    ValueOfBytes(e.frequencyStart, 4);
    ValueOfBytes(e.frequencyEnd, 4);
    ValueOfBytes(e.address, 8);
    assert bytes[0..8] == Bytes(e.id, 8);
    assert bytes[8..16] == Bytes(e.timeStart, 8);
    assert bytes[16..24] == Bytes(e.timeEnd, 8);
    assert bytes[24..28] == Bytes(e.frequencyStart, 4);
    assert bytes[28..32] == Bytes(e.frequencyEnd, 4);
    assert bytes[33..41] == Bytes(e.address, 8);
  }

  /** Every 41 bytes are the encoding of an entry. */
  lemma EntryBytesOfParsed(bytes: seq<Byte>)
    requires STRING_SIZE <= |bytes|
    ensures EntryBytes(ParseEntry(bytes).value) == bytes[..STRING_SIZE]
  {
    hide Bytes, Value;
    BytesOfValue(bytes[0..8]);
    BytesOfValue(bytes[8..16]);
    BytesOfValue(bytes[16..24]);
    BytesOfValue(bytes[24..28]);
    BytesOfValue(bytes[28..32]);
    BytesOfValue(bytes[33..41]);
    FieldsMakeUpEntry(bytes);
  }

  lemma Adjacent(bytes: seq<Byte>, mid: nat, hi: nat)
    requires mid <= hi <= |bytes|
    ensures bytes[0..mid] + bytes[mid..hi] == bytes[0..hi]
  {
  }

  lemma FieldsMakeUpEntry(bytes: seq<Byte>)
    requires STRING_SIZE <= |bytes|
    ensures bytes[..41] == bytes[0..8] + bytes[8..16] + bytes[16..24] + bytes[24..28] + bytes[28..32]
                           + [bytes[32]] + bytes[33..41]
  {
    Adjacent(bytes, 8, 16);
    Adjacent(bytes, 16, 24);
    Adjacent(bytes, 24, 28);
    Adjacent(bytes, 28, 32);
    Adjacent(bytes, 32, 33);
    Adjacent(bytes, 33, 41);
    assert bytes[32..33] == [bytes[32]];
  }

  // --------------------------------------------------- writing and reading in place

  /** Stores a `k`-byte integer at the offset and moves the offset behind it. */
  method WriteAndUpdateOffset(offset: nat, buffer: array<Byte>, x: nat, k: nat) returns (next: nat)
    requires offset + k <= buffer.Length
    modifies buffer
    ensures next == offset + k
    ensures buffer[..offset] == old(buffer[..offset]) && buffer[next..] == old(buffer[next..])
    ensures buffer[offset..next] == Bytes(x, k)
  {
    hide Bytes;
    next := offset;
    var left := x;
    ghost var was := buffer[..];
    ghost var done: seq<Byte> := [];
    assert buffer[..] == was[..offset] + done + was[next..];
    while next < offset + k
      invariant offset <= next <= offset + k && |done| == next - offset
      invariant buffer[..] == was[..offset] + done + was[next..]
      invariant done + Bytes(left, offset + k - next) == Bytes(x, k)
    {
      BytesCons(left, offset + k - next);
      StoreByte(was, offset, done, next, left % 256);
      ghost var before := buffer[..];
      buffer[next] := left % 256;
      assert buffer[..] == before[next := left % 256];
      done := done + [left % 256];
      left := left / 256;
      next := next + 1;
    }
    BytesCons(left, 0);
    Stored(buffer, was, offset, done, next);
  }

  /** One more byte behind those that have been stored. */
  lemma StoreByte(was: seq<Byte>, offset: nat, done: seq<Byte>, next: nat, b: Byte)
    requires offset <= next < |was| && |done| == next - offset
    ensures (was[..offset] + done + was[next..])[next := b] == was[..offset] + (done + [b]) + was[next + 1..]
  {
  }

  lemma Stored(buffer: array<Byte>, was: seq<Byte>, offset: nat, done: seq<Byte>, next: nat)
    requires offset <= next <= |was| == buffer.Length && |done| == next - offset
    requires buffer[..] == was[..offset] + done + was[next..]
    ensures buffer[..offset] == was[..offset] && buffer[offset..next] == done && buffer[next..] == was[next..]
  {
    assert buffer[..offset] == buffer[..][..offset];
    assert buffer[offset..next] == buffer[..][offset..next];
    assert buffer[next..] == buffer[..][next..];
  }

  lemma BytesCons(x: nat, k: nat)
    ensures Bytes(x, k) == if k == 0 then [] else [x % 256] + Bytes(x / 256, k - 1)
  {
  }

  /** `toString`: fails without room for a whole entry. */
  method EntryToString(e: RetEntry, buffer: array<Byte>, offset: nat) returns (ok: bool, length: nat)
    requires offset <= buffer.Length
    modifies buffer
    ensures ok <==> STRING_SIZE <= buffer.Length - offset
    ensures ok ==> length == STRING_SIZE && buffer[..offset] == old(buffer[..offset])
    ensures ok ==> buffer[offset..offset + STRING_SIZE] == EntryBytes(e)
    ensures ok ==> buffer[offset + STRING_SIZE..] == old(buffer[offset + STRING_SIZE..])
    ensures !ok ==> buffer[..] == old(buffer[..])
  {
    hide Bytes, FieldIsNext;
    if buffer.Length - offset < STRING_SIZE {
      return false, 0;
    }
    ghost var was := buffer[..];
    ghost var written := [];
    NothingYet(buffer, offset);
    var at := WriteNext(offset, buffer, offset, e.id, 8, was, written);
    written := written + Bytes(e.id, 8);
    at := WriteNext(offset, buffer, at, e.timeStart, 8, was, written);
    written := written + Bytes(e.timeStart, 8);
    at := WriteNext(offset, buffer, at, e.timeEnd, 8, was, written);
    written := written + Bytes(e.timeEnd, 8);
    at := WriteNext(offset, buffer, at, e.frequencyStart, 4, was, written);
    written := written + Bytes(e.frequencyStart, 4);
    at := WriteNext(offset, buffer, at, e.frequencyEnd, 4, was, written);
    written := written + Bytes(e.frequencyEnd, 4);
    at := WriteNext(offset, buffer, at, Unsigned(e.pwr), 1, was, written);
    OneByte(Unsigned(e.pwr));
    written := written + [Unsigned(e.pwr)];
    at := WriteNext(offset, buffer, at, e.address, 8, was, written);
    written := written + Bytes(e.address, 8);
    assert written == EntryBytes(e);
    EverythingWritten(buffer, offset, at, was, written);
    return true, STRING_SIZE;
  }

  lemma OneByte(b: Byte)
    ensures Bytes(b, 1) == [b]
  {
    assert Bytes(b / 256, 0) == [];
  }

  /** Between two fields: what has been written since `start`, and nothing else, has
      changed. */
  ghost predicate FieldIsNext(buffer: array<Byte>, start: nat, at: nat, was: seq<Byte>, written: seq<Byte>)
    reads buffer
  {
    start <= at <= buffer.Length == |was| && buffer[..] == was[..start] + written + was[at..]
    && at == start + |written|
  }

  lemma NothingYet(buffer: array<Byte>, start: nat)
    requires start <= buffer.Length
    ensures FieldIsNext(buffer, start, start, buffer[..], [])
  {
  }

  lemma EverythingWritten(buffer: array<Byte>, start: nat, at: nat, was: seq<Byte>, written: seq<Byte>)
    requires FieldIsNext(buffer, start, at, was, written)
    ensures start <= at <= buffer.Length == |was|
    ensures buffer[..start] == was[..start] && buffer[start..at] == written && buffer[at..] == was[at..]
  {
  }

  /** One more field behind what has been written since `start`. */
  method WriteNext(ghost start: nat, buffer: array<Byte>, at: nat, x: nat, k: nat,
                   ghost was: seq<Byte>, ghost written: seq<Byte>) returns (next: nat)
    requires at + k <= buffer.Length && FieldIsNext(buffer, start, at, was, written)
    modifies buffer
    ensures next == at + k && FieldIsNext(buffer, start, next, was, written + Bytes(x, k))
  {
    hide Bytes, FieldIsNext;
    EverythingWritten(buffer, start, at, was, written);
    next := WriteAndUpdateOffset(at, buffer, x, k);
    FieldIsWritten(buffer, start, at, next, was, written, Bytes(x, k));
  }

  /** The bytes of a field behind what has been written before. */
  lemma FieldIsWritten(buffer: array<Byte>, start: nat, at: nat, next: nat, was: seq<Byte>,
                       written: seq<Byte>, field: seq<Byte>)
    requires start <= at <= next <= buffer.Length == |was| && at == start + |written|
    requires buffer[..at] == was[..start] + written && buffer[at..next] == field && buffer[next..] == was[next..]
    ensures FieldIsNext(buffer, start, next, was, written + field)
  {
    assert buffer[..] == buffer[..at] + buffer[at..next] + buffer[next..];
  }
}
