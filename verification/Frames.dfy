/**
 The byte-stream framing: serialized frame, CRC32 trailer, COBS, zero
 delimiter; and the deframer that recovers frames from any stream of bytes.
 Serializer and checksum are parameters.
 */
module Frames {
  import opened Words
  import Cobs

  const MAX_WIRE_FRAME: nat := 4096

  datatype Error = Postcard | TooLarge | Truncated | CrcMismatch | BadStuffing

  datatype Codec<!F> = Codec(toBytes: F -> Option<Bytes>, fromBytes: Bytes -> Option<(F, Bytes)>, crc: Bytes -> u32)

  /** All that is asked of the serializer: it undoes itself exactly and never writes an empty frame. */
  ghost predicate Faithful<F(!new)>(c: Codec<F>) {
    forall f: F :: c.toBytes(f).Some? ==>
      c.toBytes(f).value != [] && c.fromBytes(c.toBytes(f).value) == Some((f, []))
  }

  function EncodeFrame<F>(c: Codec<F>, frame: F): (r: Result<Bytes, Error>) {
    match c.toBytes(frame)
    case None => Err(Postcard)
    case Some(body) =>
      var wire := Cobs.Encode(body + LeBytes(c.crc(body), 4)) + [0];
      if |wire| > MAX_WIRE_FRAME then Err(TooLarge) else Ok(wire)
  }

  function DecodeFrame<F>(c: Codec<F>, wire: Bytes): (r: Result<F, Error>) {
    match Cobs.Decode(wire)
    case None => Err(BadStuffing)
    case Some(body) =>
      if |body| < 5 then Err(Truncated)
      else
        var payload, trailer := body[..|body| - 4], body[|body| - 4..];
        if c.crc(payload) != Read32(trailer) then Err(CrcMismatch)
        else
          match c.fromBytes(payload)
          case None => Err(Postcard)
          case Some((frame, rest)) => if rest != [] then Err(Postcard) else Ok(frame)
  }

  /** What the encoder emits is a zero-free run that decodes to the frame, plus the delimiter. */
  lemma FrameRoundTrip<F(!new)>(c: Codec<F>, frame: F)
    requires Faithful(c) && EncodeFrame(c, frame).Ok?
    ensures var wire := EncodeFrame(c, frame).value;
            var run := wire[..|wire| - 1];
            && 2 <= |wire| <= MAX_WIRE_FRAME
            && wire == run + [0] && Cobs.ZeroFree(run)
            && DecodeFrame(c, run) == Ok(frame)
  {
    var body := c.toBytes(frame).value;
    var trailer := LeBytes(c.crc(body), 4);
    var stuffed := Cobs.Encode(body + trailer);
    Cobs.RoundTrip(body + trailer);
    var wire := EncodeFrame(c, frame).value;
    assert wire[..|wire| - 1] == stuffed;
    RoundTrip32(c.crc(body));
    assert (body + trailer)[..|body + trailer| - 4] == body;
    assert (body + trailer)[|body + trailer| - 4..] == trailer;
  }

  /**
   When a frame is refused: the serializer fails, or the frame does not fit; up to
   4074 serialized bytes always do, more than 4090 never.
   */
  lemma EncodedWhen<F>(c: Codec<F>, frame: F)
    ensures match c.toBytes(frame)
            case None => EncodeFrame(c, frame) == Err(Postcard)
            case Some(body) =>
              && (|body| <= 4074 ==> EncodeFrame(c, frame).Ok?)
              && (|body| > 4090 ==> EncodeFrame(c, frame) == Err(TooLarge))
  {
    if c.toBytes(frame).Some? {
      var body := c.toBytes(frame).value;
      Cobs.StuffedLength([], body + LeBytes(c.crc(body), 4));
    }
  }

  // ---- What a run must be to count ----

  /** Unstuffed, the run is a payload and the payload's checksum. */
  predicate Intact<F>(c: Codec<F>, run: Bytes) {
    var body := Cobs.Decode(run);
    && 0 < |run| < MAX_WIRE_FRAME
    && body.Some? && |body.value| >= 5
    && Read32(body.value[|body.value| - 4..]) == c.crc(body.value[..|body.value| - 4])
  }

  /** Unstuffed, the run ends in four bytes that are not the checksum of the rest. */
  predicate Damaged<F>(c: Codec<F>, run: Bytes) {
    var body := Cobs.Decode(run);
    && 0 < |run| < MAX_WIRE_FRAME
    && body.Some? && |body.value| >= 5
    && Read32(body.value[|body.value| - 4..]) != c.crc(body.value[..|body.value| - 4])
  }

  /** The payload of an intact run parses to the frame with nothing left over. */
  ghost predicate Carries<F>(c: Codec<F>, run: Bytes, frame: F) {
    Intact(c, run) && var body := Cobs.Decode(run).value; c.fromBytes(body[..|body| - 4]) == Some((frame, []))
  }

  // ---- Datagram links: no stuffing, no trailer ----

  const MAX_DATAGRAM_FRAME: nat := 248

  function EncodeDatagram<F>(c: Codec<F>, frame: F): (r: Result<Bytes, Error>) {
    match c.toBytes(frame)
    case None => Err(Postcard)
    case Some(body) => if |body| > MAX_DATAGRAM_FRAME then Err(TooLarge) else Ok(body)
  }

  function DecodeDatagram<F>(c: Codec<F>, bytes: Bytes): (r: Result<F, Error>) {
    if |bytes| > MAX_DATAGRAM_FRAME then Err(TooLarge)
    else
      match c.fromBytes(bytes)
      case None => Err(Postcard)
      case Some((frame, rest)) => if rest != [] then Err(Postcard) else Ok(frame)
  }

  // ---- The deframer, a byte at a time ----

  datatype Stats = Stats(rxFrames: nat, crcFail: nat, decodeFail: nat, resyncs: nat, oversizeDrops: nat)
  datatype State = State(buf: Bytes, skipping: bool, stats: Stats)

  const IDLE := State([], false, Stats(0, 0, 0, 0, 0))

  function Count<F>(stats: Stats, r: Result<F, Error>): (result: Stats) {
    if r.Ok? then stats.(rxFrames := stats.rxFrames + 1)
    else if r.error == CrcMismatch then stats.(crcFail := stats.crcFail + 1)
    else stats.(decodeFail := stats.decodeFail + 1)
  }

  function PushByte<F>(c: Codec<F>, st: State, b: byte): (r: State) {
    if b == 0 then
      if st.skipping then State(st.buf, false, st.stats.(resyncs := st.stats.resyncs + 1))
      else if st.buf == [] then st
      else State([], false, Count(st.stats, DecodeFrame(c, st.buf)))
    else if st.skipping then st
    else if |st.buf| + 1 >= MAX_WIRE_FRAME then
      State([], true, st.stats.(oversizeDrops := st.stats.oversizeDrops + 1))
    else st.(buf := st.buf + [b])
  }

  /** The frame a byte completes, if it completes one. */
  function Yield<F>(c: Codec<F>, st: State, b: byte): (out: seq<F>)
    ensures |out| <= 1
  {
    if b == 0 && !st.skipping && st.buf != [] && DecodeFrame(c, st.buf).Ok?
    then [DecodeFrame(c, st.buf).value] else []
  }

  function PushAll<F>(c: Codec<F>, st: State, bytes: Bytes): (r: State) {
    if bytes == [] then st
    else PushByte(c, PushAll(c, st, bytes[..|bytes| - 1]), bytes[|bytes| - 1])
  }

  function YieldAll<F>(c: Codec<F>, st: State, bytes: Bytes): (r: seq<F>) {
    if bytes == [] then []
    else
      var most := bytes[..|bytes| - 1];
      YieldAll(c, st, most) + Yield(c, PushAll(c, st, most), bytes[|bytes| - 1])
  }

  class Deframer<F> {
    const codec: Codec<F>
    var buf: Bytes
    var skipping: bool
    var stats: Stats

    constructor (codec: Codec<F>)
      ensures this.codec == codec && View() == IDLE
    {
      this.codec := codec;
      buf, skipping, stats := [], false, Stats(0, 0, 0, 0, 0);
    }

    function View(): (r: State)
      reads this
    {
      State(buf, skipping, stats)
    }

    method Push(bytes: Bytes) returns (out: seq<F>)
      modifies this
      ensures View() == PushAll(codec, old(View()), bytes)
      ensures out == YieldAll(codec, old(View()), bytes)
    {
      out := [];
      var i := 0;
      while i < |bytes|
        invariant i <= |bytes|
        invariant View() == PushAll(codec, old(View()), bytes[..i])
        invariant out == YieldAll(codec, old(View()), bytes[..i])
      {
        assert bytes[..i + 1][..i] == bytes[..i];
        var b := bytes[i];
        i := i + 1;
        if b == 0 {
          if skipping {
            skipping := false;
            stats := stats.(resyncs := stats.resyncs + 1);
            continue;
          }
          if buf == [] {
            continue;
          }
          var r := DecodeFrame(codec, buf);
          if r.Ok? {
            stats := stats.(rxFrames := stats.rxFrames + 1);
            out := out + [r.value];
          } else if r.error == CrcMismatch {
            stats := stats.(crcFail := stats.crcFail + 1);
          } else {
            stats := stats.(decodeFail := stats.decodeFail + 1);
          }
          buf := [];
        } else if !skipping {
          buf := buf + [b];
          if |buf| >= MAX_WIRE_FRAME {
            stats := stats.(oversizeDrops := stats.oversizeDrops + 1);
            buf := [];
            skipping := true;
          }
        }
      }
      assert bytes[..i] == bytes;
    }
  }

  // ---- The stream, split on zero ----

  datatype Split = Split(runs: seq<Bytes>, tail: Bytes)

  function SplitMore(s: Split, b: byte): (r: Split) {
    if b == 0 then Split(s.runs + [s.tail], []) else Split(s.runs, s.tail + [b])
  }

  /** The zero-delimited runs of a stream and the bytes after its last zero. */
  function SplitOnZero(stream: Bytes): (r: Split) {
    if stream == [] then Split([], [])
    else
      SplitMore(SplitOnZero(stream[..|stream| - 1]), stream[|stream| - 1])
  }

  /** What a delimited run turns out to be. */
  datatype Kind = Empty | Frame | CrcFail | DecodeFail | Oversize

  function ResultKind<F>(r: Result<F, Error>): (kind: Kind) {
    if r.Ok? then Frame else if r.error == CrcMismatch then CrcFail else DecodeFail
  }

  function KindOf<F>(c: Codec<F>, run: Bytes): (kind: Kind) {
    if run == [] then Empty
    else if |run| >= MAX_WIRE_FRAME then Oversize
    else ResultKind(DecodeFrame(c, run))
  }

  /** What a run of a kind adds to the counters when its zero arrives; an oversize one was counted as dropped before. */
  function Tally(t: Stats, kind: Kind): (after: Stats) {
    match kind
    case Empty => t
    case Frame => t.(rxFrames := t.rxFrames + 1)
    case CrcFail => t.(crcFail := t.crcFail + 1)
    case DecodeFail => t.(decodeFail := t.decodeFail + 1)
    case Oversize => t.(resyncs := t.resyncs + 1)
  }

  /** The frames of a list of runs: the successful decodes of those 1 to 4095 bytes long, in order. */
  function FramesOf<F>(c: Codec<F>, runs: seq<Bytes>): (r: seq<F>) {
    if runs == [] then []
    else
      var last := runs[|runs| - 1];
      FramesOf(c, runs[..|runs| - 1]) + if KindOf(c, last) == Frame then [DecodeFrame(c, last).value] else []
  }

  function CountKind<F>(c: Codec<F>, runs: seq<Bytes>, kind: Kind): (r: nat) {
    if runs == [] then 0
    else CountKind(c, runs[..|runs| - 1], kind) + if KindOf(c, runs[|runs| - 1]) == kind then 1 else 0
  }

  /** What a deframer started fresh must hold and have counted after a stream. */
  ghost predicate Describes<F>(c: Codec<F>, s: Split, st: State) {
    var tooLong := |s.tail| >= MAX_WIRE_FRAME;
    && st.buf == (if tooLong then [] else s.tail)
    && st.skipping == tooLong
    && st.stats == Stats(CountKind(c, s.runs, Frame), CountKind(c, s.runs, CrcFail), CountKind(c, s.runs, DecodeFail),
                         CountKind(c, s.runs, Oversize),
                         CountKind(c, s.runs, Oversize) + if tooLong then 1 else 0)
  }

  /**
   The deframer agrees with splitting on zero: for every stream it yields
   exactly the frames of the delimited runs and counts each run once.
   */
  lemma {:induction false} DeframerSplitsOnZero<F>(c: Codec<F>, stream: Bytes)
    ensures Describes(c, SplitOnZero(stream), PushAll(c, IDLE, stream))
    ensures YieldAll(c, IDLE, stream) == FramesOf(c, SplitOnZero(stream).runs)
    decreases |stream|
  {
    if stream != [] {
      var most, b := stream[..|stream| - 1], stream[|stream| - 1];
      assert most + [b] == stream;
      DeframerSplitsOnZero(c, most);
      NextByte(c, SplitOnZero(most), PushAll(c, IDLE, most), b);
    }
  }

  lemma OneMoreRun<F>(c: Codec<F>, runs: seq<Bytes>, run: Bytes, kind: Kind)
    ensures CountKind(c, runs + [run], kind) == CountKind(c, runs, kind) + if KindOf(c, run) == kind then 1 else 0
    ensures FramesOf(c, runs + [run]) ==
            FramesOf(c, runs) + if KindOf(c, run) == Frame then [DecodeFrame(c, run).value] else []
  {
    assert (runs + [run])[..|runs|] == runs;
  }

  lemma NextByte<F>(c: Codec<F>, s: Split, st: State, b: byte)
    requires Describes(c, s, st)
    ensures Describes(c, SplitMore(s, b), PushByte(c, st, b))
    ensures FramesOf(c, SplitMore(s, b).runs) == FramesOf(c, s.runs) + Yield(c, st, b)
  {
    if b == 0 {
      OneMoreRun(c, s.runs, s.tail, Frame);
      OneMoreRun(c, s.runs, s.tail, CrcFail);
      OneMoreRun(c, s.runs, s.tail, DecodeFail);
      OneMoreRun(c, s.runs, s.tail, Oversize);
      RunEnds(c, s.tail, st);
    }
  }

  /** What the closing zero does to the counters is decided by the kind of the run. */
  lemma RunEnds<F>(c: Codec<F>, run: Bytes, st: State)
    requires st.buf == (if |run| >= MAX_WIRE_FRAME then [] else run) && st.skipping == (|run| >= MAX_WIRE_FRAME)
    ensures var v := PushByte(c, st, 0);
            v.buf == [] && !v.skipping && v.stats == Tally(st.stats, KindOf(c, run))
    ensures Yield(c, st, 0) == if KindOf(c, run) == Frame then [DecodeFrame(c, run).value] else []
  {
  }

  /** Bounded memory, at every byte of every stream. */
  lemma BufferStaysBelowTheLimit<F>(c: Codec<F>, stream: Bytes)
    ensures |PushAll(c, IDLE, stream).buf| < MAX_WIRE_FRAME
  {
    DeframerSplitsOnZero(c, stream);
  }

  /** Conservation: every nonempty delimited run is in exactly one counter. */
  lemma {:induction false} EveryRunIsCountedOnce<F>(c: Codec<F>, runs: seq<Bytes>)
    ensures CountKind(c, runs, Frame) + CountKind(c, runs, CrcFail) + CountKind(c, runs, DecodeFail)
          + CountKind(c, runs, Oversize) + CountKind(c, runs, Empty) == |runs|
    ensures CountKind(c, runs, Frame) == |FramesOf(c, runs)|
  {
    if runs != [] {
      EveryRunIsCountedOnce(c, runs[..|runs| - 1]);
    }
  }

  // ---- Only intact frames come out ----

  /** `out` lists, in order, the frames carried by the intact runs that carry one. */
  ghost predicate Sifted<F(!new)>(c: Codec<F>, runs: seq<Bytes>, out: seq<F>)
    decreases |runs|
  {
    if runs == [] then out == []
    else
      var most, last := runs[..|runs| - 1], runs[|runs| - 1];
      if exists f :: Carries(c, last, f)
      then out != [] && Carries(c, last, out[|out| - 1]) && Sifted(c, most, out[..|out| - 1])
      else Sifted(c, most, out)
  }

  function CountDamaged<F>(c: Codec<F>, runs: seq<Bytes>): (n: nat) {
    if runs == [] then 0
    else CountDamaged(c, runs[..|runs| - 1]) + if Damaged(c, runs[|runs| - 1]) then 1 else 0
  }

  /** The kind of a run, told from its bytes and the checksum alone. */
  lemma KindMeans<F(!new)>(c: Codec<F>, run: Bytes)
    ensures KindOf(c, run) == Frame <==> exists f :: Carries(c, run, f)
    ensures KindOf(c, run) == Frame ==> Carries(c, run, DecodeFrame(c, run).value)
    ensures KindOf(c, run) == CrcFail <==> Damaged(c, run)
  {
    if KindOf(c, run) == Frame { assert Carries(c, run, DecodeFrame(c, run).value); }
  }

  lemma {:induction false} FramesAreSifted<F(!new)>(c: Codec<F>, runs: seq<Bytes>)
    ensures Sifted(c, runs, FramesOf(c, runs))
    ensures CountKind(c, runs, CrcFail) == CountDamaged(c, runs)
    decreases |runs|
  {
    if runs != [] {
      var most, last := runs[..|runs| - 1], runs[|runs| - 1];
      FramesAreSifted(c, most);
      KindMeans(c, last);
      var out := FramesOf(c, runs);
      if KindOf(c, last) == Frame {
        assert out == FramesOf(c, most) + [DecodeFrame(c, last).value];
        assert out[..|out| - 1] == FramesOf(c, most);
      } else {
        assert out == FramesOf(c, most);
      }
    }
  }

  /**
   Authenticity of the stream: whatever bytes arrive, what comes out are exactly
   the frames whose checksum is right and whose payload parses without rest, in
   order, and exactly the runs with a wrong checksum are counted as such.
   */
  lemma OnlyIntactFramesComeOut<F(!new)>(c: Codec<F>, stream: Bytes)
    ensures Sifted(c, SplitOnZero(stream).runs, YieldAll(c, IDLE, stream))
    ensures PushAll(c, IDLE, stream).stats.crcFail == CountDamaged(c, SplitOnZero(stream).runs)
    ensures PushAll(c, IDLE, stream).stats.rxFrames == |YieldAll(c, IDLE, stream)|
  {
    DeframerSplitsOnZero(c, stream);
    FramesAreSifted(c, SplitOnZero(stream).runs);
    EveryRunIsCountedOnce(c, SplitOnZero(stream).runs);
  }

  // ---- Pieces ----

  lemma {:induction false} PushSplits<F>(c: Codec<F>, st: State, a: Bytes, b: Bytes)
    ensures PushAll(c, st, a + b) == PushAll(c, PushAll(c, st, a), b)
    ensures YieldAll(c, st, a + b) == YieldAll(c, st, a) + YieldAll(c, PushAll(c, st, a), b)
    decreases |b|
  {
    if b == [] {
      assert a + b == a;
    } else {
      assert (a + b)[..|a + b| - 1] == a + b[..|b| - 1];
      PushSplits(c, st, a, b[..|b| - 1]);
    }
  }

  /** The outputs of one `Push` per piece, strung together. */
  function YieldPieces<F>(c: Codec<F>, st: State, pieces: seq<Bytes>): (r: seq<F>)
    decreases |pieces|
  {
    if pieces == [] then []
    else YieldAll(c, st, pieces[0]) + YieldPieces(c, PushAll(c, st, pieces[0]), pieces[1..])
  }

  lemma {:induction false} PiecesDoNotMatterFrom<F>(c: Codec<F>, st: State, pieces: seq<Bytes>)
    ensures YieldPieces(c, st, pieces) == YieldAll(c, st, Concat(pieces))
    decreases |pieces|
  {
    if pieces != [] {
      PiecesDoNotMatterFrom(c, PushAll(c, st, pieces[0]), pieces[1..]);
      PushSplits(c, st, pieces[0], Concat(pieces[1..]));
    }
  }

  /** However a stream is cut up, the frames are those of its zero-delimited runs. */
  lemma PiecesDoNotMatter<F>(c: Codec<F>, pieces: seq<Bytes>)
    ensures YieldPieces(c, IDLE, pieces) == FramesOf(c, SplitOnZero(Concat(pieces)).runs)
  {
    PiecesDoNotMatterFrom(c, IDLE, pieces);
    DeframerSplitsOnZero(c, Concat(pieces));
  }

  // ---- Resynchronising ----

  predicate Ready(st: State) {
    && st.buf == []
    && !st.skipping
  }

  lemma {:induction false} RunFillsBuffer<F>(c: Codec<F>, st: State, run: Bytes)
    requires Ready(st) && Cobs.ZeroFree(run)
    ensures var v := PushAll(c, st, run);
            v.skipping == (|run| >= MAX_WIRE_FRAME) && if v.skipping then v.buf == [] else v == st.(buf := run)
    ensures YieldAll(c, st, run) == []
    decreases |run|
  {
    if run != [] {
      var most, b := run[..|run| - 1], run[|run| - 1];
      assert b != 0 && most + [b] == run;
      RunFillsBuffer(c, st, most);
    }
  }

  /** A delimited zero-free run yields its frame exactly when run and delimiter fit in 4096 bytes and it decodes. */
  lemma DelimitedRun<F>(c: Codec<F>, st: State, run: Bytes)
    requires Ready(st) && Cobs.ZeroFree(run)
    ensures Ready(PushAll(c, st, run + [0]))
    ensures YieldAll(c, st, run + [0]) ==
            if run != [] && |run + [0]| <= MAX_WIRE_FRAME && DecodeFrame(c, run).Ok?
            then [DecodeFrame(c, run).value] else []
  {
    RunFillsBuffer(c, st, run);
  }

  /** A damaged run yields nothing and adds exactly one to the checksum failures. */
  lemma DamagedRunIsCounted<F(!new)>(c: Codec<F>, st: State, run: Bytes)
    requires Ready(st) && Cobs.ZeroFree(run) && Damaged(c, run)
    ensures YieldAll(c, st, run + [0]) == []
    ensures PushAll(c, st, run + [0]) == st.(stats := st.stats.(crcFail := st.stats.crcFail + 1))
  {
    DelimitedRun(c, st, run);
    RunFillsBuffer(c, st, run);
    KindMeans(c, run);
    assert (run + [0])[..|run|] == run;
  }

  ghost predicate Encodable<F>(c: Codec<F>, frames: seq<F>) {
    forall i :: 0 <= i < |frames| ==> EncodeFrame(c, frames[i]).Ok?
  }

  ghost function EncodeAll<F>(c: Codec<F>, frames: seq<F>): (r: Bytes)
    requires Encodable(c, frames)
  {
    if frames == [] then [] else EncodeFrame(c, frames[0]).value + EncodeAll(c, frames[1..])
  }

  lemma ReadyReceivesOne<F(!new)>(c: Codec<F>, st: State, frame: F)
    requires Faithful(c) && Ready(st) && EncodeFrame(c, frame).Ok?
    ensures YieldAll(c, st, EncodeFrame(c, frame).value) == [frame]
    ensures Ready(PushAll(c, st, EncodeFrame(c, frame).value))
  {
    var wire := EncodeFrame(c, frame).value;
    FrameRoundTrip(c, frame);
    DelimitedRun(c, st, wire[..|wire| - 1]);
  }

  lemma {:induction false} ReadyReceivesAll<F(!new)>(c: Codec<F>, st: State, frames: seq<F>)
    requires Faithful(c) && Ready(st)
    requires Encodable(c, frames)
    ensures YieldAll(c, st, EncodeAll(c, frames)) == frames
    ensures Ready(PushAll(c, st, EncodeAll(c, frames)))
    decreases |frames|
  {
    if frames != [] {
      var wire, rest := EncodeFrame(c, frames[0]).value, EncodeAll(c, frames[1..]);
      ReadyReceivesOne(c, st, frames[0]);
      var st' := PushAll(c, st, wire);
      ReadyReceivesAll(c, st', frames[1..]);
      PushSplits(c, st, wire, rest);
      assert YieldAll(c, st, wire + rest) == [frames[0]] + frames[1..];
    }
  }

  lemma OneDelimiter<F>(c: Codec<F>, st: State)
    requires st.skipping ==> st.buf == []
    ensures Ready(PushAll(c, st, [0]))
    ensures YieldAll(c, st, [0]) == Yield(c, st, 0)
  {
    assert [] + [0] == [0];
  }

  /**
   Resync: whatever the deframer was in the middle of, one delimiter gives at
   most one old frame, and from there every encoded frame comes out, in order,
   and nothing else.
   */
  lemma DelimiterRestoresFraming<F(!new)>(c: Codec<F>, st: State, frames: seq<F>)
    requires Faithful(c) && (st.skipping ==> st.buf == [])
    requires Encodable(c, frames)
    ensures YieldAll(c, st, [0] + EncodeAll(c, frames)) == Yield(c, st, 0) + frames
    ensures |Yield(c, st, 0)| <= 1
    ensures Ready(PushAll(c, st, [0] + EncodeAll(c, frames)))
  {
    PushSplits(c, st, [0], EncodeAll(c, frames));
    OneDelimiter(c, st);
    ReadyReceivesAll(c, PushAll(c, st, [0]), frames);
  }
}
