/** Consistent Overhead Byte Stuffing (Cheshire and Baker, 1999): zero-free coding of any byte string. */
module Cobs {
  import opened Words

  const MAX_BLOCK: nat := 254

  predicate ZeroFree(bytes: Bytes) {
    forall i :: 0 <= i < |bytes| ==> bytes[i] != 0
  }

  /** Encode `data` after the zero-free bytes `block` of the block under construction. */
  function EncodeFrom(block: Bytes, data: Bytes): (wire: Bytes)
    requires |block| < MAX_BLOCK
    ensures wire != []
    decreases |data|
  {
    if data == [] then [|block| + 1] + block
    else if data[0] == 0 then [|block| + 1] + block + EncodeFrom([], data[1..])
    else if |block| + 1 == MAX_BLOCK then [MAX_BLOCK + 1] + (block + [data[0]]) + EncodeFrom([], data[1..])
    else EncodeFrom(block + [data[0]], data[1..])
  }

  function Encode(data: Bytes): (r: Bytes) { EncodeFrom([], data) }

  /** `None` for a code byte that points past the end or a zero inside the frame. */
  function Decode(wire: Bytes): (r: Option<Bytes>)
    decreases |wire|
  {
    if wire == [] then Some([])
    else
      var code := wire[0];
      if code == 0 || |wire| < code || !ZeroFree(wire[1..code]) then None
      else if |wire| == code then Some(wire[1..])
      else
        match Decode(wire[code..])
        case None => None
        case Some(rest) => Some(wire[1..code] + (if code <= MAX_BLOCK then [0] else []) + rest)
  }

  /** A block in front of what decodes already. */
  lemma DecodeBlock(block: Bytes, wire: Bytes, rest: Bytes)
    requires ZeroFree(block) && |block| <= MAX_BLOCK && wire != []
    requires Decode(wire) == Some(rest) && ZeroFree(wire)
    ensures var all := [|block| + 1] + block + wire;
            Decode(all) == Some(block + ((if |block| < MAX_BLOCK then [0] else []) + rest)) && ZeroFree(all)
  {
    var all := [|block| + 1] + block + wire;
    assert all[1..|block| + 1] == block;
    assert all[|block| + 1..] == wire;
    var sep: Bytes := if |block| < MAX_BLOCK then [0] else [];
    assert block + sep + rest == block + (sep + rest);
  }

  lemma {:induction false} DecodeUndoesEncode(block: Bytes, data: Bytes)
    requires |block| < MAX_BLOCK && ZeroFree(block)
    ensures Decode(EncodeFrom(block, data)) == Some(block + data)
    ensures ZeroFree(EncodeFrom(block, data))
    decreases |data|
  {
    if data == [] {
      assert ([|block| + 1] + block)[1..] == block + data;
      assert ([|block| + 1] + block)[1..|block| + 1] == block;
    } else {
      var rest := data[1..];
      if data[0] == 0 || |block| + 1 == MAX_BLOCK {
        DecodeUndoesEncode([], rest);
        assert [] + rest == rest;
      }
      if data[0] == 0 {
        DecodeBlock(block, EncodeFrom([], rest), rest);
        assert [0] + rest == data;
      } else if |block| + 1 == MAX_BLOCK {
        DecodeBlock(block + [data[0]], EncodeFrom([], rest), rest);
        assert block + [data[0]] + ([] + rest) == block + data;
      } else {
        DecodeUndoesEncode(block + [data[0]], rest);
        assert block + [data[0]] + rest == block + data;
      }
    }
  }

  lemma RoundTrip(data: Bytes)
    ensures Decode(Encode(data)) == Some(data)
    ensures ZeroFree(Encode(data))
  {
    DecodeUndoesEncode([], data);
    assert [] + data == data;
  }

  /** The cost of stuffing: one code byte, and at most one more for every 254 bytes. */
  lemma {:induction false} StuffedLength(block: Bytes, data: Bytes)
    requires |block| < MAX_BLOCK
    ensures var n := |block| + |data|;
            n + 1 <= |EncodeFrom(block, data)| <= n + 1 + n / MAX_BLOCK
    decreases |data|
  {
    if data == [] {
    } else if data[0] == 0 {
      StuffedLength([], data[1..]);
    } else if |block| + 1 == MAX_BLOCK {
      StuffedLength([], data[1..]);
      assert [] + data[1..] == data[1..];
    } else {
      StuffedLength(block + [data[0]], data[1..]);
    }
  }

  /** The encoder's output for bytes that start with a whole block. */
  lemma {:induction false} EncodesBlock(block: Bytes, more: Bytes, data: Bytes)
    requires ZeroFree(more) && |block| + |more| < MAX_BLOCK
    ensures EncodeFrom(block, more + data) == EncodeFrom(block + more, data)
    decreases |more|
  {
    if more == [] {
      assert more + data == data && block + more == block;
    } else {
      assert (more + data)[1..] == more[1..] + data;
      EncodesBlock(block + [more[0]], more[1..], data);
      assert block + [more[0]] + more[1..] == block + more;
    }
  }

  lemma BlockThenZero(block: Bytes, tail: Bytes)
    requires ZeroFree(block) && |block| < MAX_BLOCK
    ensures Encode(block + [0] + tail) == [|block| + 1] + block + Encode(tail)
  {
    EncodesBlock([], block, [0] + tail);
    assert [] + block == block && ([0] + tail)[1..] == tail;
    assert block + [0] + tail == block + ([0] + tail);
  }

  lemma FullBlock(block: Bytes, tail: Bytes)
    requires ZeroFree(block) && |block| == MAX_BLOCK
    ensures Encode(block + tail) == [MAX_BLOCK + 1] + block + Encode(tail)
  {
    var most, last := block[..MAX_BLOCK - 1], block[MAX_BLOCK - 1];
    EncodesBlock([], most, [last] + tail);
    assert [] + most == most && ([last] + tail)[1..] == tail;
    assert most + ([last] + tail) == block + tail && most + [last] == block;
  }

  /** A block alone: as it stands, or with the empty block the encoder adds to a full one. */
  lemma LastBlock(block: Bytes)
    requires ZeroFree(block) && |block| <= MAX_BLOCK
    ensures Encode(block) == [|block| + 1] + block + if |block| == MAX_BLOCK then [1] else []
  {
    assert block + [] == block && [] + block == block;
    if |block| == MAX_BLOCK {
      FullBlock(block, []);
      assert Encode([]) == [1];
    } else {
      EncodesBlock([], block, []);
      assert [|block| + 1] + block + [] == [|block| + 1] + block;
    }
  }

  /**
   The decoder takes nothing else: what it accepts is what the encoder makes of
   the result, or that without the empty last block the encoder adds to a full one.
   */
  lemma {:induction false} DecodesOnlyEncodings(wire: Bytes)
    requires wire != [] && Decode(wire).Some?
    ensures var coded := Encode(Decode(wire).value);
            coded == wire || coded == wire + [1]
    decreases |wire|
  {
    var code := wire[0];
    var block, rest := wire[1..code], wire[code..];
    assert [code] + block + rest == wire;
    if rest == [] {
      assert Decode(wire).value == block;
      LastBlock(block);
      assert [code] + block == wire;
    } else {
      DecodesOnlyEncodings(rest);
      var tail := Decode(rest).value;
      if code > MAX_BLOCK {
        FullBlock(block, tail);
        assert block + [] + tail == block + tail;
      } else {
        BlockThenZero(block, tail);
      }
      assert [code] + block + (rest + [1]) == wire + [1];
    }
  }
}
