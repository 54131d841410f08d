/**
 The bulk lane: a blob cut into equal chunks, and the receiver that rebuilds it
 from chunks arriving in any order. The content hash is a parameter.
 */
module Chunks {
  import opened Words

  datatype Error = ChunkSize | ChunkIndex | ChunkConflict | TooLarge | RootMismatch | Incomplete
  type Hash = Bytes -> Bytes

  datatype ChunkSet = ChunkSet(root: Bytes, totalLen: u32, chunkLen: u16, chunks: seq<Bytes>)

  /** Consecutive pieces of `n` bytes, the last one ragged. */
  function Cut(data: Bytes, n: nat): (r: seq<Bytes>)
    requires n >= 1
    decreases |data|
  {
    if data == [] then []
    else if |data| <= n then [data]
    else [data[..n]] + Cut(data[n..], n)
  }

  function ChunkBlob(hash: Hash, data: Bytes, chunkLen: nat): (r: Result<ChunkSet, Error>) {
    if chunkLen == 0 || chunkLen > U16_MAX then Err(ChunkSize)
    else if |data| > U32_MAX then Err(TooLarge)
    else
      var chunks := Cut(data, chunkLen);
      if |chunks| > U16_MAX then Err(ChunkIndex)
      else Ok(ChunkSet(hash(data), |data|, chunkLen, chunks))
  }

  // ---- Geometry ----

  function CeilDiv(a: nat, b: nat): (r: nat)
    requires b >= 1
  {
    if a == 0 then 0 else (a - 1) / b + 1
  }

  /** The announced grid tiles the announced length exactly. */
  predicate Tiles(n: nat, totalLen: nat, chunkLen: nat) {
    chunkLen != 0 && CeilDiv(totalLen, chunkLen) == n
  }

  /** Length of chunk `index`; the subtraction is the one the receiver performs on unsigned words. */
  function ExpectedLen(n: nat, totalLen: nat, chunkLen: nat, index: nat): (r: int)
    requires index < n
  {
    if index == n - 1 then totalLen - (n - 1) * chunkLen else chunkLen
  }

  function TotalExpected(n: nat, totalLen: nat, chunkLen: nat, k: nat): (r: int)
    requires k <= n
  {
    if k == 0 then 0
    else TotalExpected(n, totalLen, chunkLen, k - 1) + ExpectedLen(n, totalLen, chunkLen, k - 1)
  }

  lemma {:induction false} FullChunksSum(n: nat, totalLen: nat, chunkLen: nat, k: nat)
    requires k < n
    ensures TotalExpected(n, totalLen, chunkLen, k) == k * chunkLen
  {
    if k > 0 { FullChunksSum(n, totalLen, chunkLen, k - 1); }
  }

  /** For every geometry accepted: no underflow, no empty or overlong chunk, and the lengths add up. */
  lemma GeometryIsSound(n: nat, totalLen: nat, chunkLen: nat)
    requires Tiles(n, totalLen, chunkLen)
    ensures forall i :: 0 <= i < n ==> 1 <= ExpectedLen(n, totalLen, chunkLen, i) <= chunkLen
    ensures TotalExpected(n, totalLen, chunkLen, n) == totalLen
  {
    if n > 0 {
      FullChunksSum(n, totalLen, chunkLen, n - 1);
    }
  }

  /** The chunker's pieces are exactly the grid its announcement describes. */
  lemma {:induction false} CutFitsTheGrid(data: Bytes, n: nat)
    requires n >= 1
    ensures |Cut(data, n)| == CeilDiv(|data|, n)
    ensures forall i :: 0 <= i < |Cut(data, n)| ==>
              |Cut(data, n)[i]| == ExpectedLen(|Cut(data, n)|, |data|, n, i)
    decreases |data|
  {
    if data == [] {
    } else if |data| <= n {
      QuotientIs(|data| - 1, n, 0, |data| - 1);
    } else {
      var rest := data[n..];
      CutFitsTheGrid(rest, n);
      var q, r := (|rest| - 1) / n, (|rest| - 1) % n;
      assert |rest| - 1 == q * n + r;
      assert |data| - 1 == (q + 1) * n + r;
      QuotientIs(|data| - 1, n, q + 1, r);
      var k := |Cut(data, n)|;
      assert k == q + 2;
      assert (k - 1) * n == (k - 2) * n + n;
      forall i | 0 <= i < k
        ensures |Cut(data, n)[i]| == ExpectedLen(k, |data|, n, i)
      {
        if i > 0 { assert Cut(data, n)[i] == Cut(rest, n)[i - 1]; }
      }
    }
  }

  lemma {:induction false} JoinUndoesCut(data: Bytes, n: nat)
    requires n >= 1
    ensures Concat(Cut(data, n)) == data
    decreases |data|
  {
    if data == [] {
    } else if |data| <= n {
      assert [data][1..] == [];
      assert data + [] == data;
    } else {
      JoinUndoesCut(data[n..], n);
      assert ([data[..n]] + Cut(data[n..], n))[1..] == Cut(data[n..], n);
      assert data[..n] + data[n..] == data;
    }
  }

  // ---- The receiver ----

  type Slot = Option<Bytes>

  datatype Receiver = Receiver(root: Bytes, totalLen: nat, chunkLen: nat, slots: seq<Slot>)

  /** `Reassembler::new`. */
  function NewReceiver(root: Bytes, n: u16, totalLen: u32, chunkLen: u16): (r: Result<Receiver, Error>) {
    if chunkLen == 0 then Err(ChunkSize)
    else if CeilDiv(totalLen, chunkLen) != n then Err(ChunkSize)
    else Ok(Receiver(root, totalLen, chunkLen, seq(n, _ => None)))
  }

  /** `Reassembler::accept`: the new slots and whether the chunk was new. */
  function AcceptChunk(r: Receiver, root: Bytes, index: nat, data: Bytes): (result: Result<(seq<Slot>, bool), Error>) {
    if root != r.root then Err(RootMismatch)
    else if index >= |r.slots| then Err(ChunkIndex)
    else if |data| != ExpectedLen(|r.slots|, r.totalLen, r.chunkLen, index) then Err(ChunkSize)
    else
      match r.slots[index]
      case Some(held) => if held == data then Ok((r.slots, false)) else Err(ChunkConflict)
      case None => Ok((r.slots[index := Some(data)], true))
  }

  predicate Complete(slots: seq<Slot>) { forall i :: 0 <= i < |slots| ==> slots[i].Some? }

  /** The bytes of the filled slots, in order. */
  function Gather(slots: seq<Slot>): (r: Bytes) {
    if slots == [] then []
    else
      Gather(slots[..|slots| - 1]) + match slots[|slots| - 1] case Some(b) => b case None => []
  }

  function Finish(hash: Hash, r: Receiver): (result: Result<Bytes, Error>) {
    if !Complete(r.slots) then Err(Incomplete)
    else if hash(Gather(r.slots)) != r.root then Err(RootMismatch)
    else Ok(Gather(r.slots))
  }

  class Reassembler {
    const root: Bytes
    const totalLen: nat
    const chunkLen: nat
    const slots: array<Slot>

    function View(): (r: Receiver)
      reads slots
    {
      Receiver(root, totalLen, chunkLen, slots[..])
    }

    constructor FromGeometry(root: Bytes, n: u16, totalLen: u32, chunkLen: u16)
      requires NewReceiver(root, n, totalLen, chunkLen).Ok?
      ensures View() == NewReceiver(root, n, totalLen, chunkLen).value
      ensures fresh(slots)
    {
      this.root, this.totalLen, this.chunkLen := root, totalLen, chunkLen;
      this.slots := new Slot[n](_ => None);
    }

    static method New(root: Bytes, n: u16, totalLen: u32, chunkLen: u16) returns (r: Result<Reassembler, Error>)
      ensures match NewReceiver(root, n, totalLen, chunkLen)
              case Ok(view) => r.Ok? && r.value.View() == view && fresh(r.value.slots)
              case Err(e) => r == Err(e)
    {
      if chunkLen == 0 {
        return Err(ChunkSize);
      }
      if CeilDiv(totalLen, chunkLen) != n {
        return Err(ChunkSize);
      }
      var reassembler := new Reassembler.FromGeometry(root, n, totalLen, chunkLen);
      return Ok(reassembler);
    }

    method Accept(root: Bytes, index: u16, data: Bytes) returns (r: Result<bool, Error>)
      modifies slots
      ensures match AcceptChunk(old(View()), root, index, data)
              case Ok((filled, isNew)) => r == Ok(isNew) && slots[..] == filled
              case Err(e) => r == Err(e) && slots[..] == old(slots[..])
    {
      if root != this.root {
        return Err(RootMismatch);
      }
      if index >= slots.Length {
        return Err(ChunkIndex);
      }
      if |data| != ExpectedLen(slots.Length, totalLen, chunkLen, index) {
        return Err(ChunkSize);
      }
      match slots[index]
      case Some(held) =>
        return if held == data then Ok(false) else Err(ChunkConflict);
      case None =>
        slots[index] := Some(data);
        return Ok(true);
    }

    /** The pull list: every vacant index, ascending. */
    method Missing() returns (indexes: seq<nat>)
      ensures forall i :: i in indexes <==> 0 <= i < slots.Length && slots[i].None?
      ensures forall a, b :: 0 <= a < b < |indexes| ==> indexes[a] < indexes[b]
    {
      indexes := [];
      var i := 0;
      while i < slots.Length
        invariant i <= slots.Length
        invariant forall k :: k in indexes <==> 0 <= k < i && slots[k].None?
        invariant forall a, b :: 0 <= a < b < |indexes| ==> indexes[a] < indexes[b]
      {
        if slots[i].None? {
          assert forall a :: 0 <= a < |indexes| ==> indexes[a] in indexes;
          indexes := indexes + [i];
        }
        i := i + 1;
      }
    }

    method FinishBlob(hash: Hash) returns (r: Result<Bytes, Error>)
      ensures r == Finish(hash, View())
    {
      var blob: Bytes := [];
      var i := 0;
      while i < slots.Length
        invariant i <= slots.Length
        invariant Complete(slots[..i])
        invariant blob == Gather(slots[..i])
      {
        if slots[i].None? {
          return Err(Incomplete);
        }
        assert slots[..i + 1][..i] == slots[..i];
        blob := blob + slots[i].value;
        i := i + 1;
      }
      assert slots[..i] == slots[..];
      if hash(blob) != root {
        return Err(RootMismatch);
      }
      return Ok(blob);
    }
  }

  // ---- The round trip ----

  predicate InRange(s: ChunkSet, indexes: seq<nat>) {
    forall k :: 0 <= k < |indexes| ==> indexes[k] < |s.chunks|
  }

  /** The receiver after the listed chunks of `s` arrived, in that order. */
  function Deliver(s: ChunkSet, r: Receiver, indexes: seq<nat>): (result: Result<Receiver, Error>)
    requires InRange(s, indexes)
    decreases |indexes|
  {
    if indexes == [] then Ok(r)
    else
      match AcceptChunk(r, s.root, indexes[0], s.chunks[indexes[0]])
      case Err(e) => Err(e)
      case Ok((slots, _)) => Deliver(s, r.(slots := slots), indexes[1..])
  }

  /** The receiver holds exactly the chunks in `have`. */
  ghost predicate Holds(s: ChunkSet, r: Receiver, have: set<nat>) {
    && r.root == s.root && r.totalLen == s.totalLen && r.chunkLen == s.chunkLen
    && |r.slots| == |s.chunks|
    && (forall i :: 0 <= i < |s.chunks| ==> |s.chunks[i]| == ExpectedLen(|s.chunks|, s.totalLen, s.chunkLen, i))
    && forall i :: 0 <= i < |r.slots| ==> r.slots[i] == if i in have then Some(s.chunks[i]) else None
  }

  /** Any order, any duplicates: no error, and exactly what arrived is held. */
  lemma {:induction false} DeliveryHolds(s: ChunkSet, r: Receiver, have: set<nat>, indexes: seq<nat>)
    requires Holds(s, r, have) && InRange(s, indexes)
    ensures Deliver(s, r, indexes).Ok?
    ensures Holds(s, Deliver(s, r, indexes).value, have + set i | i in indexes)
    decreases |indexes|
  {
    if indexes == [] {
      assert have + (set i | i in indexes) == have;
    } else {
      var slots := AcceptChunk(r, s.root, indexes[0], s.chunks[indexes[0]]).value.0;
      DeliveryHolds(s, r.(slots := slots), have + {indexes[0]}, indexes[1..]);
      assert have + {indexes[0]} + (set i | i in indexes[1..]) == have + set i | i in indexes;
    }
  }

  lemma {:induction false} GatherIsJoin(slots: seq<Slot>, chunks: seq<Bytes>)
    requires |slots| == |chunks| && forall i :: 0 <= i < |slots| ==> slots[i] == Some(chunks[i])
    ensures Gather(slots) == Concat(chunks)
  {
    if slots != [] {
      var n := |slots| - 1;
      GatherIsJoin(slots[..n], chunks[..n]);
      JoinAppend(chunks[..n], chunks[n]);
      assert chunks[..n] + [chunks[n]] == chunks;
    }
  }

  lemma {:induction false} JoinAppend(chunks: seq<Bytes>, last: Bytes)
    ensures Concat(chunks + [last]) == Concat(chunks) + last
  {
    if chunks == [] {
      assert [last][1..] == [];
    } else {
      JoinAppend(chunks[1..], last);
      assert (chunks + [last])[1..] == chunks[1..] + [last];
    }
  }

  /**
   For every blob the chunker accepts, its own announcement is accepted, its
   chunks arrive in any order with any duplicates without error, exactly the
   ones that arrived are held, and the blob comes back exactly when all did.
   */
  lemma BlobRoundTrip(hash: Hash, data: Bytes, chunkLen: nat, indexes: seq<nat>)
    requires ChunkBlob(hash, data, chunkLen).Ok?
    requires InRange(ChunkBlob(hash, data, chunkLen).value, indexes)
    ensures var s := ChunkBlob(hash, data, chunkLen).value;
            && |s.chunks| <= U16_MAX
            && var start := NewReceiver(s.root, |s.chunks|, s.totalLen, s.chunkLen);
               && start.Ok? && Deliver(s, start.value, indexes).Ok?
               && var r := Deliver(s, start.value, indexes).value;
                  && |r.slots| == |s.chunks|
                  && (forall i :: 0 <= i < |s.chunks| ==>
                        r.slots[i] == if i in indexes then Some(s.chunks[i]) else None)
                  && Finish(hash, r) ==
                     if forall i :: 0 <= i < |s.chunks| ==> i in indexes then Ok(data) else Err(Incomplete)
  {
    var s := ChunkBlob(hash, data, chunkLen).value;
    CutFitsTheGrid(data, chunkLen);
    var start := NewReceiver(s.root, |s.chunks|, s.totalLen, s.chunkLen).value;
    DeliveryHolds(s, start, {}, indexes);
    var r := Deliver(s, start, indexes).value;
    assert forall i :: i in ({} + set k | k in indexes) <==> i in indexes;
    HeldBlobFinishes(hash, data, chunkLen, r, {} + set k | k in indexes);
  }

  /** A receiver that holds exactly the chunks in `have` finishes with the blob, or is incomplete. */
  lemma HeldBlobFinishes(hash: Hash, data: Bytes, chunkLen: nat, r: Receiver, have: set<nat>)
    requires ChunkBlob(hash, data, chunkLen).Ok? && Holds(ChunkBlob(hash, data, chunkLen).value, r, have)
    ensures Finish(hash, r) == if forall i :: 0 <= i < |r.slots| ==> i in have then Ok(data) else Err(Incomplete)
  {
    var chunks := Cut(data, chunkLen);
    if forall i :: 0 <= i < |r.slots| ==> i in have {
      GatherIsJoin(r.slots, chunks);
      JoinUndoesCut(data, chunkLen);
    } else {
      var i :| 0 <= i < |r.slots| && i !in have;
      assert r.slots[i].None?;
    }
  }

  /** Which blobs the chunker takes: the pieces are countable in 16 bits, the bytes in 32. */
  lemma AcceptedBlobs(hash: Hash, data: Bytes, chunkLen: nat)
    ensures ChunkBlob(hash, data, chunkLen).Ok? <==>
            1 <= chunkLen <= U16_MAX && |data| <= U32_MAX && CeilDiv(|data|, chunkLen) <= U16_MAX
  {
    if chunkLen >= 1 { CutFitsTheGrid(data, chunkLen); }
  }

  // ---- Whatever arrives ----

  datatype Offer = Offer(root: Bytes, index: nat, data: Bytes)

  /** The receiver after any chunks were offered to it; a refused one leaves it alone. */
  function AfterOffers(r: Receiver, offers: seq<Offer>): (end: Receiver) {
    if offers == [] then r
    else
      var before, o := AfterOffers(r, offers[..|offers| - 1]), offers[|offers| - 1];
      match AcceptChunk(before, o.root, o.index, o.data)
      case Ok((slots, _)) => before.(slots := slots)
      case Err(_) => before
  }

  /** The offer names this blob and slot `i` of it, and has the length that slot takes. */
  predicate Fits(r: Receiver, o: Offer, i: nat) {
    && o.root == r.root
    && o.index == i < |r.slots|
    && |o.data| == ExpectedLen(|r.slots|, r.totalLen, r.chunkLen, i)
  }

  /** Offer `k` is the first that fits slot `i`. */
  ghost predicate FirstFit(r: Receiver, offers: seq<Offer>, i: nat, k: nat) {
    k < |offers| && Fits(r, offers[k], i) && forall j :: 0 <= j < k ==> !Fits(r, offers[j], i)
  }

  ghost predicate Vacant(r: Receiver) { forall i :: 0 <= i < |r.slots| ==> r.slots[i].None? }

  /** What any offers leave in a slot: the first that fitted it, for good. */
  ghost predicate SlotIsFirstFit(start: Receiver, offers: seq<Offer>, i: nat, slot: Slot) {
    match slot
    case None => forall k :: 0 <= k < |offers| ==> !Fits(start, offers[k], i)
    case Some(data) => exists k: nat :: FirstFit(start, offers, i, k) && offers[k].data == data
  }

  lemma {:induction false} SlotHoldsFirstFit(start: Receiver, offers: seq<Offer>, i: nat)
    requires Vacant(start) && i < |start.slots|
    ensures var end := AfterOffers(start, offers);
            && end == start.(slots := end.slots) && |end.slots| == |start.slots|
            && SlotIsFirstFit(start, offers, i, end.slots[i])
    decreases |offers|
  {
    if offers != [] {
      var n := |offers| - 1;
      var most, o := offers[..n], offers[n];
      SlotHoldsFirstFit(start, most, i);
      var was := AfterOffers(start, most).slots[i];
      if was.Some? {
        var k: nat :| FirstFit(start, most, i, k) && most[k].data == was.value;
        assert FirstFit(start, offers, i, k);
      } else if Fits(start, o, i) {
        assert FirstFit(start, offers, i, n);
      }
    }
  }

  /** How an offer is answered, told from the offers before it. */
  lemma OfferAnswered(start: Receiver, offers: seq<Offer>, o: Offer)
    requires Vacant(start)
    ensures var r := AcceptChunk(AfterOffers(start, offers), o.root, o.index, o.data);
            && (r.Ok? || r.error == ChunkConflict <==> Fits(start, o, o.index))
            && (r.Ok? && r.value.1 <==>
                Fits(start, o, o.index) && forall k :: 0 <= k < |offers| ==> !Fits(start, offers[k], o.index))
            && (Fits(start, o, o.index) ==>
                forall k: nat :: FirstFit(start, offers, o.index, k) ==> (r.Ok? <==> offers[k].data == o.data))
  {
    SameGeometry(start, offers);
    if Fits(start, o, o.index) {
      SlotHoldsFirstFit(start, offers, o.index);
      var slot := AfterOffers(start, offers).slots[o.index];
      if slot.Some? {
        var first: nat :| FirstFit(start, offers, o.index, first) && offers[first].data == slot.value;
        forall k: nat | FirstFit(start, offers, o.index, k) ensures k == first {}
      }
    }
  }

  lemma {:induction false} SameGeometry(start: Receiver, offers: seq<Offer>)
    ensures var end := AfterOffers(start, offers);
            end == start.(slots := end.slots) && |end.slots| == |start.slots|
    decreases |offers|
  {
    if offers != [] { SameGeometry(start, offers[..|offers| - 1]); }
  }

  lemma {:induction false} GatheredLength(r: Receiver, k: nat)
    requires k <= |r.slots| && Complete(r.slots)
    requires forall i :: 0 <= i < |r.slots| ==>
               |r.slots[i].value| == ExpectedLen(|r.slots|, r.totalLen, r.chunkLen, i)
    ensures |Gather(r.slots[..k])| == TotalExpected(|r.slots|, r.totalLen, r.chunkLen, k)
    decreases k
  {
    if k > 0 {
      GatheredLength(r, k - 1);
      assert r.slots[..k][..k - 1] == r.slots[..k - 1];
    }
  }

  /**
   Whatever is offered in whatever order, to any receiver the announcement opened:
   a blob comes back only when every slot was filled and the bytes have the announced
   length and hash to the announced root; full slots that hash otherwise are a mismatch.
   */
  lemma OnlyTheAnnouncedBlob(hash: Hash, root: Bytes, n: u16, totalLen: u32, chunkLen: u16, offers: seq<Offer>)
    requires NewReceiver(root, n, totalLen, chunkLen).Ok?
    ensures var r := AfterOffers(NewReceiver(root, n, totalLen, chunkLen).value, offers);
            && |r.slots| == n
            && var full := forall i :: 0 <= i < n ==> r.slots[i].Some?;
               match Finish(hash, r)
               case Ok(blob) => full && |blob| == totalLen && hash(blob) == root && blob == Gather(r.slots)
               case Err(e) => if full then e == RootMismatch && hash(Gather(r.slots)) != root else e == Incomplete
  {
    var start := NewReceiver(root, n, totalLen, chunkLen).value;
    var r := AfterOffers(start, offers);
    SameGeometry(start, offers);
    if forall i :: 0 <= i < n ==> r.slots[i].Some? {
      forall i | 0 <= i < n ensures |r.slots[i].value| == ExpectedLen(n, totalLen, chunkLen, i) {
        SlotHoldsFirstFit(start, offers, i);
      }
      GatheredLength(r, n);
      GeometryIsSound(n, totalLen, chunkLen);
      assert r.slots[..n] == r.slots;
    }
  }
}
