// Messages are strings of bits that can be read as symbols of any width.

module Messages {
  import opened Basics
  import opened Slots

  function Pow2(n: nat): (p: nat)
    ensures 0 < p
  {
    if n == 0 then 1 else 2 * Pow2(n - 1)
  }

  /** The number whose binary digits are the bits, the highest first. */
  function Value(bits: seq<bool>): nat {
    if bits == [] then 0
    else 2 * Value(bits[..|bits| - 1]) + if bits[|bits| - 1] then 1 else 0
  }

  /** The lowest `n` binary digits of a number, the highest first. */
  function Digits(x: nat, n: nat): (bits: seq<bool>)
    ensures |bits| == n
  {
    if n == 0 then [] else Digits(x / 2, n - 1) + [x % 2 == 1]
  }

  lemma {:induction false} DigitsOfValue(bits: seq<bool>)
    ensures Digits(Value(bits), |bits|) == bits
    ensures Value(bits) < Pow2(|bits|)
  {
    if bits == [] {
    } else {
      DigitsOfValue(bits[..|bits| - 1]);
    }
  }

  lemma {:induction false} ValueOfDigits(x: nat, n: nat)
    requires x < Pow2(n)
    ensures Value(Digits(x, n)) == x
  {
    if n == 0 {
    } else {
      ValueOfDigits(x / 2, n - 1);
      assert Digits(x, n)[..n - 1] == Digits(x / 2, n - 1);
    }
  }

  function Zeros(n: nat): seq<bool> {
    seq(n, _ => false)
  }

  lemma {:induction false} ValueOfPadded(bits: seq<bool>, n: nat)
    ensures Value(bits + Zeros(n)) == Value(bits) * Pow2(n)
  {
    if n == 0 {
      assert bits + Zeros(0) == bits;
    } else {
      assert (bits + Zeros(n))[..|bits| + n - 1] == bits + Zeros(n - 1);
      ValueOfPadded(bits, n - 1);
    }
  }

  // ---------------------------------------------------------------- re-chunking

  function SymbolCount(size: nat, bps: nat): nat
    requires 0 < bps
  {
    if size % bps == 0 then size / bps else size / bps + 1
  }

  /** The bits of symbol `i`: fewer than `bps` at the end of the message. */
  function Chunk(data: seq<bool>, i: nat, bps: nat): (chunk: seq<bool>)
    ensures |chunk| <= bps
  {
    data[Min(i * bps, |data|)..Min(i * bps + bps, |data|)]
  }

  /** A symbol is the number its bits spell, padded with zeros at the end. */
  function SymbolOf(data: seq<bool>, i: nat, bps: nat): nat {
    Value(Chunk(data, i, bps) + Zeros(bps - |Chunk(data, i, bps)|))
  }

  /** The digits of the first `n` symbols. */
  function Expanded(data: seq<bool>, n: nat, bps: nat): seq<bool> {
    if n == 0 then [] else Expanded(data, n - 1, bps) + Digits(SymbolOf(data, n - 1, bps), bps)
  }

  /** The bits so far: `at` of them, the message followed by zeros. */
  ghost predicate Spells(bits: seq<bool>, data: seq<bool>, at: nat) {
    && |bits| == at
    && bits[..Min(at, |data|)] == data[..Min(at, |data|)]
    && forall k :: |data| <= k < at ==> !bits[k]
  }

  lemma {:induction false} ExpandedSpells(data: seq<bool>, n: nat, bps: nat)
    requires 0 < bps
    ensures Spells(Expanded(data, n, bps), data, n * bps)
  {
    hide Digits, Value, Zeros, Chunk, Spells;
    if n == 0 {
      NothingSpelt(data);
    } else {
      ExpandedSpells(data, n - 1, bps);
      assert n * bps == (n - 1) * bps + bps;
      var chunk := Chunk(data, n - 1, bps);
      PaddedLength(chunk, bps);
      DigitsOfValue(chunk + Zeros(bps - |chunk|));
      AppendChunk(data, Expanded(data, n - 1, bps), bps, n - 1);
    }
  }

  lemma PaddedLength(chunk: seq<bool>, bps: nat)
    requires |chunk| <= bps
    ensures |chunk + Zeros(bps - |chunk|)| == bps
  {
  }

  lemma NothingSpelt(data: seq<bool>)
    ensures Spells([], data, 0)
  {
  }

  lemma AppendChunk(data: seq<bool>, front: seq<bool>, bps: nat, i: nat)
    requires 0 < bps && Spells(front, data, i * bps)
    ensures var chunk := Chunk(data, i, bps);
            Spells(front + (chunk + Zeros(bps - |chunk|)), data, i * bps + bps)
  {
    var at, chunk := i * bps, Chunk(data, i, bps);
    AppendAt(data, front, chunk, bps, at);
  }

  lemma AppendAt(data: seq<bool>, front: seq<bool>, chunk: seq<bool>, bps: nat, at: nat)
    requires Spells(front, data, at) && |chunk| <= bps
    requires chunk == data[Min(at, |data|)..Min(at + bps, |data|)]
    ensures Spells(front + (chunk + Zeros(bps - |chunk|)), data, at + bps)
  {
    var whole := front + (chunk + Zeros(bps - |chunk|));
    if at <= |data| {
      assert whole[..Min(at + bps, |data|)] == front + chunk;
      assert data[..Min(at + bps, |data|)] == data[..at] + chunk;
    } else {
      assert chunk == [];
      assert whole[..|data|] == front[..|data|];
    }
  }

  lemma SymbolsCoverData(size: nat, bps: nat)
    requires 0 < bps
    ensures size <= SymbolCount(size, bps) * bps < size + bps
  {
    var d, r := size / bps, size % bps;
    assert size == d * bps + r;
    assert (d + 1) * bps == d * bps + bps;
  }

  /** Reading a message as symbols loses nothing: the digits of all its symbols are
      its bits, followed by less than one symbol of zeros. */
  lemma RechunkingIsLossless(data: seq<bool>, bps: nat)
    requires 0 < bps
    ensures var n := SymbolCount(|data|, bps);
            var digits := Expanded(data, n, bps);
            && |data| <= |digits| < |data| + bps
            && digits[..|data|] == data
            && forall k :: |data| <= k < |digits| ==> !digits[k]
  {
    var n := SymbolCount(|data|, bps);
    SymbolsCoverData(|data|, bps);
    ExpandedSpells(data, n, bps);
    assert data[..|data|] == data;
  }

  // ----------------------------------------------------------------------- bytes

  function BitsOfBytes(bytes: seq<Byte>): (bits: seq<bool>)
    ensures |bits| == 8 * |bytes|
  {
    if bytes == [] then [] else BitsOfBytes(bytes[..|bytes| - 1]) + Digits(bytes[|bytes| - 1], 8)
  }

  lemma {:induction false} ByteOfBytes(bytes: seq<Byte>, i: nat)
    requires i < |bytes|
    ensures Chunk(BitsOfBytes(bytes), i, 8) == Digits(bytes[i], 8)
    ensures SymbolOf(BitsOfBytes(bytes), i, 8) == bytes[i]
  {
    hide Digits, Value;
    var n := |bytes| - 1;
    if i < n {
      ByteOfBytes(bytes[..n], i);
      assert BitsOfBytes(bytes)[8 * i..8 * i + 8] == BitsOfBytes(bytes[..n])[8 * i..8 * i + 8];
    }
    assert Pow2(8) == 256 by {
      assert Pow2(4) == 16;
    }
    ValueOfDigits(bytes[i], 8);
    assert Digits(bytes[i], 8) + Zeros(0) == Digits(bytes[i], 8);
  }

  // ------------------------------------------------------------------ the object

  class Message {
    var data: seq<bool>

    constructor ()
      ensures data == []
    {
      data := [];
    }

    method AddBit(b: bool)
      modifies this
      ensures data == old(data) + [b]
    {
      data := data + [b];
    }

    method Clear()
      modifies this
      ensures data == []
    {
      data := [];
    }

    /** Appends the digits of a byte, the highest first. */
    method AddByte(byte: Byte)
      modifies this
      ensures data == old(data) + Digits(byte, 8)
    {
      hide Digits, Pow2;
      var i := 8;
      while i > 0
        invariant 0 <= i <= 8
        invariant data + Digits(byte, i) == old(data) + Digits(byte, 8)
      {
        i := i - 1;
        DropHighest(byte, i);
        AddBit(byte / Pow2(i) % 2 == 1);
      }
      NoDigits(byte);
    }

    method AddBytes(bytes: array<Byte>, len: nat)
      requires len <= bytes.Length
      modifies this
      ensures data == old(data) + BitsOfBytes(bytes[..len])
    {
      for i := 0 to len
        invariant data == old(data) + BitsOfBytes(bytes[..i])
      {
        assert bytes[..i + 1][..i] == bytes[..i];
        AddByte(bytes[i]);
      }
    }

    /** Collects a symbol bit by bit. The symbol and each bit that is added have no
        digit in common, so adding them is the inclusive or of `symbolAt`. */
    method SymbolAt(i: nat, bps: nat) returns (symbol: nat)
      requires 0 < bps <= 31
      ensures symbol == SymbolOf(data, i, bps) < Pow2(bps)
    {
      hide Value, Pow2, Digits;
      symbol := 0;
      var b: nat := 0;
      ghost var at := i * bps;
      NoBits(bps);
      assert Taken(data, at, 0) == [];
      while b < bps && i * bps + b < |data|
        invariant b <= bps && (b == 0 || at + b <= |data|)
        invariant symbol == Value(Taken(data, at, b)) * Pow2(bps - b)
      {
        assert Taken(data, at, b + 1) == Taken(data, at, b) + [data[at + b]];
        NextBit(Taken(data, at, b), data[at + b], bps - b - 1);
        symbol := symbol + if data[i * bps + b] then Pow2(bps - b - 1) else 0;
        b := b + 1;
      }
      assert Chunk(data, i, bps) == Taken(data, at, b);
      if b == 0 {
        assert Taken(data, at, b) == [];
      }
      PaddedValue(Chunk(data, i, bps), bps, b);
    }

    /** Copies the whole bytes of the message out, if there is room for them. */
    method ToBuffer(buf: array<Byte>, len: nat) returns (ok: bool, used: nat)
      requires len <= buf.Length
      modifies buf
      ensures ok <==> |data| / 8 <= len
      ensures ok ==> used == |data| / 8 && forall i :: 0 <= i < used ==> buf[i] == SymbolOf(data, i, 8)
      ensures !ok ==> buf[..] == old(buf[..])
    {
      if len < |data| / 8 {
        return false, len;
      }
      hide Value, Chunk;
      for i := 0 to |data| / 8
        invariant forall k :: 0 <= k < i ==> buf[k] == SymbolOf(data, k, 8)
      {
        var symbol := SymbolAt(i, 8);
        assert Pow2(4) == 16 && Pow2(8) == 256;
        buf[i] := symbol;
      }
      return true, |data| / 8;
    }

    /** `toBuffer` undoes `addBytes`. */
    method BytesRoundTrip(bytes: array<Byte>, buf: array<Byte>) returns (ok: bool, used: nat)
      requires buf != bytes
      modifies this, buf
      ensures ok <==> bytes.Length <= buf.Length
      ensures ok ==> used == bytes.Length && buf[..used] == bytes[..]
    {
      Clear();
      AddBytes(bytes, bytes.Length);
      assert bytes[..bytes.Length] == bytes[..];
      ok, used := ToBuffer(buf, buf.Length);
      assert data == BitsOfBytes(bytes[..]);
      forall i | 0 <= i < bytes.Length
        ensures SymbolOf(data, i, 8) == bytes[i]
      {
        ByteOfBytes(bytes[..], i);
      }
    }
  }

  /** `b` bits from a position on, or as many as there are. */
  function Taken(data: seq<bool>, at: nat, b: nat): seq<bool> {
    data[Min(at, |data|)..Min(at + b, |data|)]
  }

  lemma NoBits(bps: nat)
    ensures Value([]) * Pow2(bps) == 0
  {
  }

  lemma PaddedValue(chunk: seq<bool>, bps: nat, b: nat)
    requires |chunk| == b <= bps
    ensures Value(chunk + Zeros(bps - b)) == Value(chunk) * Pow2(bps - b)
    ensures Value(chunk + Zeros(bps - b)) < Pow2(bps)
  {
    hide Value, Pow2, Digits;
    ValueOfPadded(chunk, bps - b);
    DigitsOfValue(chunk + Zeros(bps - b));
  }

  lemma NoDigits(x: nat)
    ensures Digits(x, 0) == []
  {
  }

  /** The highest digit and the others. */
  lemma {:induction false} DropHighest(x: nat, n: nat)
    ensures Digits(x, n + 1) == [x / Pow2(n) % 2 == 1] + Digits(x, n)
  {
    if n == 0 {
    } else {
      DropHighest(x / 2, n - 1);
      HalfQuotient(x, Pow2(n - 1));
    }
  }

  /** Digit `k` of `n`, counted from the highest. */
  lemma {:induction false} DigitAt(x: nat, n: nat, k: nat)
    requires k < n
    ensures Digits(x, n)[k] == (x / Pow2(n - 1 - k) % 2 == 1)
    decreases n
  {
    hide Digits, Pow2;
    DropHighest(x, n - 1);
    if k > 0 {
      DigitAt(x, n - 1, k - 1);
    }
  }

  lemma HalfQuotient(x: nat, p: nat)
    requires 0 < p
    ensures x / 2 / p == x / (2 * p)
  {
    var q, r := x / 2 / p, x / 2 % p;
    assert x / 2 == q * p + r;
    assert x == q * (2 * p) + (2 * r + x % 2);
    DivModUnique(x, q, 2 * r + x % 2, 2 * p);
  }

  lemma NextBit(before: seq<bool>, bit: bool, left: nat)
    ensures Value(before + [bit]) * Pow2(left) ==
            Value(before) * Pow2(left + 1) + if bit then Pow2(left) else 0
  {
    assert (before + [bit])[..|before|] == before;
    var v, p := Value(before), Pow2(left);
    assert (2 * v) * p == v * (2 * p);
    assert (2 * v + 1) * p == (2 * v) * p + p;
  }
}
