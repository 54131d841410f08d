/**
 The radio edge: a frame wrapped in a manufacturer AD structure inside an HCI
 command, and the walk that finds it again in an extended advertising report
 (Bluetooth Core Specification, Vol 4 Part E, sections 7.8.54 and 7.7.65.13).
 */
module Adverts {
  import opened Words
  import F = Frames

  const COMPANY_ID: Bytes := [0xFF, 0xFF]
  const MAGIC: Bytes := [0x41, 0x58]
  const AD_OVERHEAD: nat := 5
  const MAX_GOSSIP_FRAME: nat := 254 - AD_OVERHEAD - 1
  const MANUFACTURER: byte := 0xFF

  datatype RadioError = Command | TooLarge
  datatype Heard<F> = Heard(frame: F, rssiDbm: int)

  /** The low byte of a length, as the command stores it. */
  function LowByte(n: nat): (r: byte) { n % 256 }

  /** The command up to the frame, for a frame of `n` bytes. */
  function CommandHead(n: nat): (head: Bytes)
    ensures |head| == 14
  {
    var adLen := 1 + |COMPANY_ID| + |MAGIC| + n;
    var advDataLen := 1 + adLen;
    var paramLen := 4 + advDataLen;
    [0x01, 0x37, 0x20, LowByte(paramLen), 0x00, 0x03, 0x01, LowByte(advDataLen), LowByte(adLen), MANUFACTURER]
    + COMPANY_ID + MAGIC
  }

  /** `Radio::advertise`: the Set Extended Advertising Data command. */
  function AdvertiseCommand<T>(c: F.Codec<T>, frame: T): (r: Result<Bytes, RadioError>) {
    match F.EncodeDatagram(c, frame)
    case Err(_) => Err(TooLarge)
    case Ok(body) => if |body| > MAX_GOSSIP_FRAME then Err(TooLarge) else Ok(CommandHead(|body|) + body)
  }

  method CopyInto(cmd: array<byte>, at: nat, src: Bytes)
    requires at + |src| <= cmd.Length
    modifies cmd
    ensures cmd[..at] == old(cmd[..at])
    ensures cmd[at..at + |src|] == src
  {
    var i := 0;
    while i < |src|
      invariant i <= |src|
      invariant cmd[..at] == old(cmd[..at])
      invariant forall k :: 0 <= k < i ==> cmd[at + k] == src[k]
    {
      cmd[at + i] := src[i];
      i := i + 1;
    }
  }

  method WriteHead(cmd: array<byte>, n: nat)
    requires cmd.Length >= 14
    modifies cmd
    ensures cmd[..14] == CommandHead(n)
  {
    var adLen := 1 + |COMPANY_ID| + |MAGIC| + n;
    var advDataLen := 1 + adLen;
    var paramLen := 4 + advDataLen;
    cmd[0] := 0x01;
    cmd[1] := 0x37;
    cmd[2] := 0x20;
    cmd[3] := LowByte(paramLen);
    cmd[4] := 0x00;
    cmd[5] := 0x03;
    cmd[6] := 0x01;
    cmd[7] := LowByte(advDataLen);
    cmd[8] := LowByte(adLen);
    cmd[9] := MANUFACTURER;
    ghost var head := cmd[..10];
    CopyInto(cmd, 10, COMPANY_ID);
    assert cmd[..10] == head;
    ghost var head12 := cmd[..12];
    assert head12 == head + COMPANY_ID;
    CopyInto(cmd, 12, MAGIC);
    assert cmd[..14] == head12 + MAGIC;
  }

  /** The same, filled into a fixed buffer. */
  method Advertise<T>(c: F.Codec<T>, frame: T) returns (r: Result<Bytes, RadioError>)
    ensures r == AdvertiseCommand(c, frame)
  {
    var encoded := F.EncodeDatagram(c, frame);
    if encoded.Err? {
      return Err(TooLarge);
    }
    var body := encoded.value;
    if |body| > MAX_GOSSIP_FRAME {
      return Err(TooLarge);
    }
    var cmd := new byte[4 + 4 + 1 + AD_OVERHEAD + MAX_GOSSIP_FRAME](_ => 0);
    WriteHead(cmd, |body|);
    CopyInto(cmd, 14, body);
    assert cmd[..14 + |body|] == cmd[..14] + cmd[14..14 + |body|];
    return Ok(cmd[..14 + |body|]);
  }

  /**
   Every length byte is the true length - except that the outermost one wraps,
   exactly for bodies of more than 245 bytes.
   */
  lemma LengthBytesAreTrue<T>(c: F.Codec<T>, frame: T)
    requires AdvertiseCommand(c, frame).Ok?
    ensures var cmd := AdvertiseCommand(c, frame).value;
            var body := F.EncodeDatagram(c, frame).value;
            && |cmd| == 14 + |body|
            && cmd[7] == |cmd[8..]| && cmd[8] == |cmd[9..]|
            && (cmd[3] == |cmd[4..]| <==> |body| <= 245)
  {
  }

  // ---- AD structures ----

  datatype AdStructure = AdStructure(adType: byte, body: Bytes)

  ghost predicate WellFormed(s: AdStructure) { |s.body| <= 254 }

  function Serialize(s: AdStructure): (r: Bytes)
    requires WellFormed(s)
  {
    [1 + |s.body|, s.adType] + s.body
  }

  ghost predicate AllWellFormed(list: seq<AdStructure>) {
    forall i :: 0 <= i < |list| ==> WellFormed(list[i])
  }

  function SerializeAll(list: seq<AdStructure>): (r: Bytes)
    requires AllWellFormed(list)
  {
    if list == [] then [] else Serialize(list[0]) + SerializeAll(list[1..])
  }

  /** The frame a structure carries, when it is ours and decodes. */
  function FrameIn<T>(c: F.Codec<T>, adType: byte, body: Bytes): (r: Option<T>) {
    if adType == MANUFACTURER && |body| > |COMPANY_ID| + |MAGIC| && body[..2] == COMPANY_ID && body[2..4] == MAGIC then
      match F.DecodeDatagram(c, body[4..])
      case Ok(frame) => Some(frame)
      case Err(_) => None
    else None
  }

  /** The walk over AD structures from byte `i`; a length of zero or past the end stops it. */
  function Walk<T>(c: F.Codec<T>, data: Bytes, i: nat): (r: Option<T>)
    requires i <= |data|
    decreases |data| - i
  {
    if i == |data| then None
    else
      var len := data[i];
      if len == 0 || i + 1 + len > |data| then None
      else
        match FrameIn(c, data[i + 1], data[i + 2..i + 1 + len])
        case Some(frame) => Some(frame)
        case None => Walk(c, data, i + 1 + len)
  }

  const HEADER: nat := 5
  const FIXED: nat := 23

  function SignedByte(b: byte): (r: int) { if b < 128 then b else b - 256 }

  /** `parse_ext_adv_report`. */
  function ParseReport<T>(c: F.Codec<T>, pkt: Bytes): (r: Option<Heard<T>>) {
    if |pkt| < HEADER + FIXED + 1 || pkt[0] != 0x04 || pkt[1] != 0x3E || pkt[3] != 0x0D then None
    else
      var dataLen := pkt[HEADER + FIXED];
      var start := HEADER + FIXED + 1;
      if start + dataLen > |pkt| then None
      else
        match Walk(c, pkt[start..start + dataLen], 0)
        case None => None
        case Some(frame) => Some(Heard(frame, SignedByte(pkt[HEADER + 13])))
  }

  method ParseExtAdvReport<T>(c: F.Codec<T>, pkt: Bytes) returns (r: Option<Heard<T>>)
    ensures r == ParseReport(c, pkt)
  {
    if |pkt| < HEADER + FIXED + 1 || pkt[0] != 0x04 || pkt[1] != 0x3E || pkt[3] != 0x0D {
      return None;
    }
    var rssiDbm := SignedByte(pkt[HEADER + 13]);
    var dataLen := pkt[HEADER + FIXED];
    var start := HEADER + FIXED + 1;
    if start + dataLen > |pkt| {
      return None;
    }
    var data := pkt[start..start + dataLen];
    var i := 0;
    while i < |data|
      invariant i <= |data|
      invariant Walk(c, data, 0) == Walk(c, data, i)
      decreases |data| - i
    {
      var len := data[i];
      if len == 0 || i + 1 + len > |data| {
        break;
      }
      var found := FrameIn(c, data[i + 1], data[i + 2..i + 1 + len]);
      if found.Some? {
        return Some(Heard(found.value, rssiDbm));
      }
      i := i + 1 + len;
    }
    return None;
  }

  // ---- The round trip ----

  /** Structures that are someone else's, or claim to be ours and do not decode. */
  ghost predicate Foreign<T>(c: F.Codec<T>, list: seq<AdStructure>) {
    && AllWellFormed(list)
    && forall i :: 0 <= i < |list| ==> FrameIn(c, list[i].adType, list[i].body).None?
  }

  /** `part` stands in `data` at `i`. */
  ghost predicate At(data: Bytes, i: nat, part: Bytes) {
    i + |part| <= |data| && data[i..i + |part|] == part
  }

  lemma AtPieces(data: Bytes, i: nat, a: Bytes, b: Bytes)
    requires At(data, i, a + b)
    ensures At(data, i, a) && At(data, i + |a|, b)
  {
    assert data[i..i + |a + b|][..|a|] == a;
    assert data[i..i + |a + b|][|a|..] == b;
  }

  lemma WalkOne<T>(c: F.Codec<T>, data: Bytes, i: nat, s: AdStructure)
    requires WellFormed(s) && At(data, i, Serialize(s))
    ensures Walk(c, data, i) ==
            match FrameIn(c, s.adType, s.body)
            case Some(frame) => Some(frame)
            case None => Walk(c, data, i + 2 + |s.body|)
  {
    assert data[i] == Serialize(s)[0] && data[i + 1] == Serialize(s)[1];
    assert Serialize(s)[2..] == s.body;
    assert data[i..i + 2 + |s.body|][2..] == data[i + 2..i + 1 + data[i]];
  }

  lemma SkipOne<T>(c: F.Codec<T>, data: Bytes, i: nat, list: seq<AdStructure>)
    requires Foreign(c, list) && list != [] && At(data, i, SerializeAll(list))
    ensures var next := i + |Serialize(list[0])|;
            At(data, next, SerializeAll(list[1..])) && Walk(c, data, i) == Walk(c, data, next)
  {
    AtPieces(data, i, Serialize(list[0]), SerializeAll(list[1..]));
    WalkOne(c, data, i, list[0]);
  }

  lemma {:induction false} WalkSkipsForeign<T>(c: F.Codec<T>, data: Bytes, i: nat, list: seq<AdStructure>)
    requires Foreign(c, list) && At(data, i, SerializeAll(list))
    ensures Walk(c, data, i) == Walk(c, data, i + |SerializeAll(list)|)
    decreases |list|
  {
    if list != [] {
      SkipOne(c, data, i, list);
      WalkSkipsForeign(c, data, i + |Serialize(list[0])|, list[1..]);
    }
  }

  /** What goes on the air: the structure inside the command. */
  function OnAir<T>(c: F.Codec<T>, frame: T): (s: AdStructure)
    requires AdvertiseCommand(c, frame).Ok?
    ensures WellFormed(s)
  {
    AdStructure(MANUFACTURER, COMPANY_ID + MAGIC + F.EncodeDatagram(c, frame).value)
  }

  lemma CommandCarriesTheStructure<T(!new)>(c: F.Codec<T>, frame: T)
    requires F.Faithful(c) && AdvertiseCommand(c, frame).Ok?
    ensures AdvertiseCommand(c, frame).value[8..] == Serialize(OnAir(c, frame))
    ensures FrameIn(c, OnAir(c, frame).adType, OnAir(c, frame).body) == Some(frame)
  {
    var body := OnAir(c, frame).body;
    assert body[..2] == COMPANY_ID && body[2..4] == MAGIC;
    assert body[4..] == F.EncodeDatagram(c, frame).value;
  }

  /** A report: five header bytes, 23 fixed bytes, the data length, the data. */
  function Report(subevent: Bytes, fixed: Bytes, data: Bytes): (r: Bytes)
    requires |subevent| == 2 && |fixed| == FIXED && |data| <= 255
  {
    [0x04, 0x3E, subevent[0], 0x0D, subevent[1]] + fixed + [|data|] + data
  }

  /**
   Round trip over the air: what `Advertise` puts out, after any well-formed
   structures of others and before anything at all, is heard as the same frame
   with the report's signal strength, a byte in two's complement.
   */
  lemma HeardAsSent<T(!new)>(c: F.Codec<T>, frame: T, others: seq<AdStructure>, tail: Bytes,
                             subevent: Bytes, fixed: Bytes, trailer: Bytes)
    requires F.Faithful(c) && AdvertiseCommand(c, frame).Ok? && Foreign(c, others)
    requires |subevent| == 2 && |fixed| == FIXED
    requires |SerializeAll(others) + AdvertiseCommand(c, frame).value[8..] + tail| <= 255
    ensures var data := SerializeAll(others) + AdvertiseCommand(c, frame).value[8..] + tail;
            var heard := ParseReport(c, Report(subevent, fixed, data) + trailer);
            && heard.Some? && heard.value.frame == frame
            && -128 <= heard.value.rssiDbm < 128 && heard.value.rssiDbm % 256 == fixed[13]
  {
    CommandCarriesTheStructure(c, frame);
    var ours, front := AdvertiseCommand(c, frame).value[8..], SerializeAll(others);
    var data := front + ours + tail;
    FoundAmongOthers(c, data, frame, others);
    ReportFields(subevent, fixed, data, trailer);
  }

  lemma FoundAmongOthers<T(!new)>(c: F.Codec<T>, data: Bytes, frame: T, others: seq<AdStructure>)
    requires F.Faithful(c) && AdvertiseCommand(c, frame).Ok? && Foreign(c, others)
    requires At(data, 0, SerializeAll(others)) && At(data, |SerializeAll(others)|, Serialize(OnAir(c, frame)))
    ensures Walk(c, data, 0) == Some(frame)
  {
    CommandCarriesTheStructure(c, frame);
    WalkSkipsForeign(c, data, 0, others);
    WalkOne(c, data, |SerializeAll(others)|, OnAir(c, frame));
  }

  lemma ReportFields(subevent: Bytes, fixed: Bytes, data: Bytes, trailer: Bytes)
    requires |subevent| == 2 && |fixed| == FIXED && |data| <= 255
    ensures var pkt := Report(subevent, fixed, data) + trailer;
            && |pkt| >= HEADER + FIXED + 1 + |data|
            && pkt[0] == 0x04 && pkt[1] == 0x3E && pkt[3] == 0x0D
            && pkt[HEADER + 13] == fixed[13] && pkt[HEADER + FIXED] == |data|
            && pkt[HEADER + FIXED + 1..HEADER + FIXED + 1 + |data|] == data
  {
  }

  /** The bytes from `a` to `b` are the body of a manufacturer structure that is ours and carries the frame. */
  ghost predicate OursAt<T>(c: F.Codec<T>, data: Bytes, a: nat, b: nat, frame: T) {
    && 2 <= a && a + 4 < b <= |data|
    && data[a - 2] == b - a + 1 && data[a - 1] == 0xFF
    && data[a..a + 4] == [0xFF, 0xFF, 0x41, 0x58]
    && b - a - 4 <= 248 && c.fromBytes(data[a + 4..b]) == Some((frame, []))
  }

  /** Whatever the bytes, a frame is only ever taken from inside the packet, after our company id and magic. */
  lemma {:induction false} WalkIsHonest<T>(c: F.Codec<T>, data: Bytes, i: nat)
    requires i <= |data| && Walk(c, data, i).Some?
    ensures exists a: nat, b: nat :: i + 2 <= a && OursAt(c, data, a, b, Walk(c, data, i).value)
    decreases |data| - i
  {
    var len := data[i];
    var a, b := i + 2, i + 1 + len;
    var found := FrameIn(c, data[i + 1], data[a..b]);
    if found.None? {
      WalkIsHonest(c, data, b);
    } else {
      assert data[a..b][..2] == data[a..a + 2] && data[a..b][2..4] == data[a + 2..a + 4];
      assert data[a..a + 4] == data[a..a + 2] + data[a + 2..a + 4];
      assert data[a..b][4..] == data[a + 4..b];
      assert OursAt(c, data, a, b, found.value);
    }
  }

  /** And only from the data of an extended advertising report that is all there. */
  lemma OnlyReportsAreHeard<T>(c: F.Codec<T>, pkt: Bytes)
    requires ParseReport(c, pkt).Some?
    ensures 29 <= |pkt| && pkt[0] == 0x04 && pkt[1] == 0x3E && pkt[3] == 0x0D && 29 + pkt[28] <= |pkt|
    ensures var data, frame := pkt[29..29 + pkt[28]], ParseReport(c, pkt).value.frame;
            exists a: nat, b: nat :: OursAt(c, data, a, b, frame)
  {
    WalkIsHonest(c, pkt[29..29 + pkt[28]], 0);
  }

  /** A frame is advertised exactly when it serializes to at most 248 bytes. */
  lemma AdvertisedWhen<T>(c: F.Codec<T>, frame: T)
    ensures AdvertiseCommand(c, frame).Ok? <==> c.toBytes(frame).Some? && |c.toBytes(frame).value| <= 248
  {
  }
}
