// The Manchester code: a zero is sent as 01 and a one as 10.

module Manchester {
  import opened Messages

  function Encode(bits: seq<bool>): (code: seq<bool>)
    ensures |code| == 2 * |bits|
  {
    if bits == [] then [] else Encode(bits[..|bits| - 1]) + [bits[|bits| - 1], !bits[|bits| - 1]]
  }

  predicate IsCode(code: seq<bool>, k: nat) {
    2 * k + 1 < |code| && code[2 * k] != code[2 * k + 1]
  }

  /** At least one pair, and every pair is a code. An odd bit at the end is ignored. */
  predicate Decodable(code: seq<bool>) {
    2 <= |code| && forall k :: 0 <= k < |code| / 2 ==> IsCode(code, k)
  }

  /** The first bit of the first `n` pairs. */
  function FirstBits(code: seq<bool>, n: nat): (bits: seq<bool>)
    requires 2 * n <= |code|
    ensures |bits| == n && forall k :: 0 <= k < n ==> bits[k] == code[2 * k]
  {
    seq(n, k requires 0 <= k < n => code[2 * k])
  }

  lemma {:induction false} EncodeAt(bits: seq<bool>, k: nat)
    requires k < |bits|
    ensures Encode(bits)[2 * k] == bits[k] && Encode(bits)[2 * k + 1] == !bits[k]
  {
    if k < |bits| - 1 {
      EncodeAt(bits[..|bits| - 1], k);
    }
  }

  lemma CodeOfBits()
    ensures Encode([false]) == [false, true] && Encode([true]) == [true, false]
  {
    assert Encode([]) == [];
  }

  /** The code of a message is decodable, with or without an odd bit behind it, and
      decoding gives the message back. */
  lemma DecodeOfEncode(bits: seq<bool>, odd: seq<bool>)
    requires bits != [] && |odd| <= 1
    ensures Decodable(Encode(bits) + odd)
    ensures FirstBits(Encode(bits) + odd, |bits|) == bits
  {
    hide Encode;
    var code, n := Encode(bits) + odd, |bits|;
    forall k | 0 <= k < n
      ensures IsCode(code, k) && FirstBits(code, n)[k] == bits[k]
    {
      EncodeAt(bits, k);
    }
  }

  /** Whatever is decodable is the code of what it decodes to. */
  lemma EncodeOfDecode(code: seq<bool>)
    requires Decodable(code)
    ensures Encode(FirstBits(code, |code| / 2)) == code[..2 * (|code| / 2)]
  {
    hide Encode;
    var n := |code| / 2;
    var bits := FirstBits(code, n);
    forall i | 0 <= i < 2 * n
      ensures Encode(bits)[i] == code[i]
    {
      EncodeAt(bits, i / 2);
      assert IsCode(code, i / 2);
      assert i == 2 * (i / 2) || i == 2 * (i / 2) + 1;
    }
  }

  /** Appends the decoded bits. A pair that is no code empties the output. */
  method Decode(input: Message, out: Message) returns (ok: bool)
    requires input != out
    modifies out
    ensures ok <==> Decodable(input.data)
    ensures ok ==> out.data == old(out.data) + FirstBits(input.data, |input.data| / 2)
    ensures !ok ==> out.data == if |input.data| < 2 then old(out.data) else []
  {
    if |input.data| < 2 {
      return false;
    }
    var i: nat := 0;
    while i < |input.data| - 1
      invariant i % 2 == 0 && i <= |input.data|
      invariant forall k :: 0 <= k < i / 2 ==> IsCode(input.data, k)
      invariant out.data == old(out.data) + FirstBits(input.data, i / 2)
    {
      assert i == 2 * (i / 2);
      if !input.data[i] && input.data[i + 1] {
        out.AddBit(false);
      } else if input.data[i] && !input.data[i + 1] {
        out.AddBit(true);
      } else {
        assert !IsCode(input.data, i / 2);
        out.Clear();
        return false;
      }
      i := i + 2;
    }
    ok := true;
  }
}
