/**
 The broadcast protocol: one vendor-specific element in a beacon (section 9.4.2.25 of IEEE Std
 802.11-2020), its parser, and the printers on the sending side.
*/
module Wire {
  import opened Bytes
  import opened Options
  import Numeric

  const IE_START: nat := 36
  const VENDOR: bv8 := 0xDD
  const OUI: seq<bv8> := [0x52, 0x43, 0x68]
  const FCS_LEN: nat := 4
  const MAX_ENTRIES: nat := 11
  const ENTRY_SIZE: nat := 6
  const BUILD_ID_MAX: nat := 8
  const SSID_MAX: nat := 32
  const PASS_MAX: nat := 63
  const VALUE_MAX: nat := 64
  const BODY_MAX: nat := 70

  datatype Dfu2Request = Dfu2Request(ip: seq<bv8>, port: nat, build: seq<bv8>, ssid: seq<bv8>, pass: seq<bv8>)

  datatype Effect = NoEffect | EnterDfu | Reboot | SetConfig(key: nat, value: seq<bv8>)

  /** What a frame says to us. Float channels stay as their wire bytes. */
  datatype Result =
    | Invalid
    | Nothing                                            // well-formed, nothing for us
    | Colour(levels: seq<bv8>)
    | Precise(words: seq<bv8>)
    | Raw(words: seq<bv8>, periods: seq<bv8>)
    | Lemtone(word: bv64)
    | Command(number: nat, effect: Effect)
    | Dfu2(request: Dfu2Request)

  // ---- the element around the packet ------------------------------------------------------

  predicate IsBeacon(fc0: bv8) {
    fc0 & 0xFC == 0x80
  }

  /** The packet inside a frame: first and only element, ours by OUI, at most an FCS behind it. */
  function Payload(f: seq<bv8>): Option<seq<bv8>> {
    if |f| < IE_START + 2 || !IsBeacon(f[0]) || f[IE_START] != VENDOR then None else
      var len := Value(f[IE_START + 1]);
      var end := IE_START + 2 + len;
      if len < 4 || end > |f| || (|f| - end != 0 && |f| - end != FCS_LEN) then None
      else if f[IE_START + 2..IE_START + 5] != OUI then None
      else Some(f[IE_START + 5..end])
  }

  /** A frame around a packet, as the senders build it. */
  function Frame(header: seq<bv8>, body: seq<bv8>, fcs: seq<bv8>): seq<bv8>
    requires |body| <= 252
  {
    header + [VENDOR, Byte(3 + |body|)] + OUI + body + fcs
  }

  predicate FrameParts(header: seq<bv8>, body: seq<bv8>, fcs: seq<bv8>) {
    && |header| == IE_START && IsBeacon(header[0])
    && 1 <= |body| <= 252
    && (|fcs| == 0 || |fcs| == FCS_LEN)
  }

  lemma FrameUnwraps(header: seq<bv8>, body: seq<bv8>, fcs: seq<bv8>)
    requires FrameParts(header, body, fcs)
    ensures Payload(Frame(header, body, fcs)) == Some(body)
  {
    hide Byte, IsBeacon;
    var f := Frame(header, body, fcs);
    ByteValue(3 + |body|);
    assert f[IE_START] == VENDOR && f[IE_START + 1] == Byte(3 + |body|);
    assert f[IE_START + 2..IE_START + 5] == OUI;
    assert f[IE_START + 5..IE_START + 5 + |body|] == body;
  }

  /** Conversely the parser unwraps nothing else: what it accepts is a frame around what it returns. */
  lemma UnwrapsOnlyFrames(f: seq<bv8>)
    requires Payload(f).Some?
    ensures var body := Payload(f).value;
      && |f| >= IE_START + 5 + |body|
      && FrameParts(f[..IE_START], body, f[IE_START + 5 + |body|..])
      && Frame(f[..IE_START], body, f[IE_START + 5 + |body|..]) == f
  {
    hide Byte, IsBeacon;
    var body := Payload(f).value;
    var end := IE_START + 5 + |body|;
    ValueByte(f[IE_START + 1]);
    assert Value(f[IE_START + 1]) == 3 + |body| && f[IE_START + 5..end] == body;
    FivePieces(f, IE_START, IE_START + 2, IE_START + 5, end);
    assert f[IE_START..IE_START + 2] == [f[IE_START], f[IE_START + 1]];
  }

  lemma FivePieces(f: seq<bv8>, a: nat, b: nat, c: nat, d: nat)
    requires a <= b <= c <= d <= |f|
    ensures f == f[..a] + f[a..b] + f[b..c] + f[c..d] + f[d..]
  {
  }

  // ---- the packets ------------------------------------------------------------------------

  function Word16(pkt: seq<bv8>, off: nat): nat
    requires off + 2 <= |pkt|
  {
    Value(pkt[off]) + 256 * Value(pkt[off + 1])
  }

  function Word32(pkt: seq<bv8>, off: nat): nat
    requires off + 4 <= |pkt|
  {
    Word16(pkt, off) + 0x1_0000 * Word16(pkt, off + 2)
  }

  /** Inclusive range, computed without wrap. */
  predicate Addressed(me: bv8, start: bv8, bounds: bv8) {
    Value(start) <= Value(me) <= Value(start) + Value(bounds)
  }

  /** A length byte between lo and hi and that many bytes, with the offset behind them. */
  function Field(pkt: seq<bv8>, off: nat, lo: nat, hi: nat): Option<(seq<bv8>, nat)> {
    if off + 1 > |pkt| then None else
      var n := Value(pkt[off]);
      if n < lo || n > hi || off + 1 + n > |pkt| then None
      else Some((pkt[off + 1..off + 1 + n], off + 1 + n))
  }

  function ParseDfu2(pkt: seq<bv8>, me: bv8, device: bv8): Result {
    if |pkt| < 10 then Invalid
    else if pkt[1] != device || !Addressed(me, pkt[2], pkt[3]) then Nothing
    else
      var build := Field(pkt, 10, 1, BUILD_ID_MAX);
      if build.None? then Invalid else
        var ssid := Field(pkt, build.value.1, 1, SSID_MAX);
        if ssid.None? then Invalid else
          var pass := Field(pkt, ssid.value.1, 0, PASS_MAX);
          if pass.None? then Invalid
          else Dfu2(Dfu2Request(pkt[4..8], Word16(pkt, 8), build.value.0, ssid.value.0, pass.value.0))
  }

  function ParseCommand(pkt: seq<bv8>, me: bv8): Result {
    if |pkt| < 8 then Invalid
    else Command(Word32(pkt, 1), if Addressed(me, pkt[5], pkt[6]) then CommandEffect(pkt) else NoEffect)
  }

  function CommandEffect(pkt: seq<bv8>): Effect
    requires |pkt| >= 8
  {
    if pkt[7] == 0 then EnterDfu
    else if pkt[7] == 2 then Reboot
    else if pkt[7] == 1 && |pkt| >= 11 then
      var n := Value(pkt[10]);
      if n > VALUE_MAX || |pkt| < 11 + n then NoEffect else SetConfig(Word16(pkt, 8), pkt[11..11 + n])
    else NoEffect
  }

  /** Index of the first of the entries i..count-1 with our id. */
  function FirstFor(pkt: seq<bv8>, me: bv8, i: nat, count: nat): Option<nat>
    requires 2 + ENTRY_SIZE * count <= |pkt|
    decreases count - i
  {
    if i >= count then None else if pkt[2 + ENTRY_SIZE * i] == me then Some(i) else FirstFor(pkt, me, i + 1, count)
  }

  /** Five little-endian bytes as a word. */
  function WordAt(pkt: seq<bv8>, off: nat): bv64
    requires off + 5 <= |pkt|
  {
    Join(pkt[off], pkt[off + 1], pkt[off + 2], pkt[off + 3], pkt[off + 4])
  }

  /** A table of six-byte entries: the declared ones must fit. */
  predicate TableFits(pkt: seq<bv8>) {
    |pkt| >= 2 && Value(pkt[1]) <= MAX_ENTRIES && 2 + ENTRY_SIZE * Value(pkt[1]) <= |pkt|
  }

  function ParseTable(pkt: seq<bv8>, me: bv8): Option<nat>
    requires TableFits(pkt)
  {
    FirstFor(pkt, me, 0, Value(pkt[1]))
  }

  function ParseColours(pkt: seq<bv8>, me: bv8): Result {
    if !TableFits(pkt) then Invalid else
      var i := ParseTable(pkt, me);
      if i.None? then Nothing else
        FirstForIsFirst(pkt, me, 0, Value(pkt[1]));
        Colour(pkt[3 + ENTRY_SIZE * i.value..8 + ENTRY_SIZE * i.value])
  }

  function ParseLemtone(pkt: seq<bv8>, me: bv8): Result {
    if !TableFits(pkt) then Invalid else
      var i := ParseTable(pkt, me);
      if i.None? then Nothing else
        FirstForIsFirst(pkt, me, 0, Value(pkt[1]));
        Lemtone(WordAt(pkt, 3 + ENTRY_SIZE * i.value))
  }

  function ParsePrecise(pkt: seq<bv8>, me: bv8): Result {
    if |pkt| < 22 then Invalid else if pkt[1] != me then Nothing else Precise(pkt[2..22])
  }

  function ParseRaw(pkt: seq<bv8>, me: bv8): Result {
    if |pkt| < 27 then Invalid else if pkt[1] != me then Nothing else Raw(pkt[2..22], pkt[22..27])
  }

  function ParsePacket(pkt: seq<bv8>, me: bv8, device: bv8): Result
    requires |pkt| >= 1
  {
    if pkt[0] == 2 then ParsePrecise(pkt, me)
    else if pkt[0] == 3 then ParseColours(pkt, me)
    else if pkt[0] == 4 then ParseCommand(pkt, me)
    else if pkt[0] == 5 then ParseDfu2(pkt, me, device)
    else if pkt[0] == 6 then ParseRaw(pkt, me)
    else if pkt[0] == 7 then ParseLemtone(pkt, me)
    else Invalid
  }

  /** protocol_parse_beacon, legacy 0x01 packets not compiled in. */
  function Parse(f: seq<bv8>, me: bv8, device: bv8): Result {
    var pkt := Payload(f);
    if pkt.None? then Invalid else ParsePacket(pkt.value, me, device)
  }

  /** The loop of the two table parsers. */
  method Scan(pkt: seq<bv8>, me: bv8) returns (i: Option<nat>)
    requires TableFits(pkt)
    ensures i == ParseTable(pkt, me)
  {
    var count := Value(pkt[1]);
    var k := 0;
    while k < count
      invariant k <= count && FirstFor(pkt, me, 0, count) == FirstFor(pkt, me, k, count)
    {
      if pkt[2 + ENTRY_SIZE * k] == me {
        return Some(k);
      }
      k := k + 1;
    }
    i := None;
  }

  lemma {:induction false} FirstForIsFirst(pkt: seq<bv8>, me: bv8, i: nat, count: nat)
    requires 2 + ENTRY_SIZE * count <= |pkt| && i <= count
    ensures var r := FirstFor(pkt, me, i, count);
      && (r.None? ==> forall k :: i <= k < count ==> pkt[2 + ENTRY_SIZE * k] != me)
      && (r.Some? ==> i <= r.value < count && pkt[2 + ENTRY_SIZE * r.value] == me
                      && forall k :: i <= k < r.value ==> pkt[2 + ENTRY_SIZE * k] != me)
    decreases count - i
  {
    if i < count {
      FirstForIsFirst(pkt, me, i + 1, count);
    }
  }

  // ---- 0x05: the sender -------------------------------------------------------------------

  function Le16(x: nat): (s: seq<bv8>)
    requires x < 0x1_0000
    ensures |s| == 2
  {
    [Byte(x % 256), Byte(x / 256)]
  }

  function Prefixed(s: seq<bv8>): (p: seq<bv8>)
    requires |s| < 256
    ensures |p| == 1 + |s|
  {
    [Byte(|s|)] + s
  }

  predicate Encodable(r: Dfu2Request) {
    |r.ip| == 4 && r.port < 0x1_0000 && |r.build| < 256 && |r.ssid| < 256 && |r.pass| < 256
  }

  function EncodeDfu2(device: bv8, start: bv8, bounds: bv8, r: Dfu2Request): seq<bv8>
    requires Encodable(r)
  {
    [5, device, start, bounds] + r.ip + Le16(r.port) + Prefixed(r.build) + Prefixed(r.ssid) + Prefixed(r.pass)
  }

  /** build_dfu2: every check the tool makes, in its order; None is an error exit. */
  function BuildDfu2(device: bv8, start: int, last: int, r: Dfu2Request): Option<seq<bv8>> {
    if !(0 <= start <= last <= 255) then None
    else if |r.build| != BUILD_ID_MAX then None
    else if |r.ip| != 4 then None
    else if !(1 <= r.port <= 65535) then None
    else if |r.ssid| > 255 || |r.pass| > 255 then None
    else
      var body := EncodeDfu2(device, Byte(start), Byte(last - start), r);
      if |body| > BODY_MAX then None else Some(body)
  }

  lemma FieldReads(pkt: seq<bv8>, off: nat, s: seq<bv8>, lo: nat, hi: nat)
    requires |s| < 256 && off + 1 + |s| <= |pkt| && pkt[off..off + 1 + |s|] == Prefixed(s)
    ensures Field(pkt, off, lo, hi) == if lo <= |s| <= hi then Some((s, off + 1 + |s|)) else None
  {
    hide Byte;
    ByteValue(|s|);
    assert pkt[off] == pkt[off..off + 1 + |s|][0] == Byte(|s|);
    assert pkt[off + 1..off + 1 + |s|] == pkt[off..off + 1 + |s|][1..];
  }

  lemma PortReads(pkt: seq<bv8>, off: nat, x: nat)
    requires x < 0x1_0000 && off + 2 <= |pkt| && pkt[off..off + 2] == Le16(x)
    ensures Word16(pkt, off) == x
  {
    hide Byte;
    ByteValue(x % 256);
    ByteValue(x / 256);
    assert pkt[off] == pkt[off..off + 2][0] && pkt[off + 1] == pkt[off..off + 2][1];
  }

  /** What is appended last lies behind the rest, which keeps its slices. */
  lemma Appended(front: seq<bv8>, piece: seq<bv8>)
    ensures (front + piece)[|front|..|front| + |piece|] == piece
    ensures forall i: nat, j: nat :: i <= j <= |front| ==> (front + piece)[i..j] == front[i..j]
  {
  }

  lemma SixJoined(a: seq<bv8>, b: seq<bv8>, c: seq<bv8>, d: seq<bv8>, e: seq<bv8>, f: seq<bv8>)
    ensures var p := a + b + c + d + e + f;
      var i, j := |a| + |b|, |a| + |b| + |c|;
      var k, l := j + |d|, j + |d| + |e|;
      && p[0..|a|] == a && p[|a|..i] == b && p[i..j] == c && p[j..k] == d && p[k..l] == e && p[l..l + |f|] == f
  {
    Appended([], a);
    Appended(a, b);
    Appended(a + b, c);
    Appended(a + b + c, d);
    Appended(a + b + c + d, e);
    Appended(a + b + c + d + e, f);
    assert a[0..|a|] == a;
  }

  /** Where the pieces of an encoded request lie. */
  lemma EncodedLayout(device: bv8, start: bv8, bounds: bv8, r: Dfu2Request)
    requires Encodable(r)
    ensures var p := EncodeDfu2(device, start, bounds, r);
      var s := 11 + |r.build|;
      var w := s + 1 + |r.ssid|;
      && |p| == w + 1 + |r.pass|
      && p[..4] == [5, device, start, bounds] && p[4..8] == r.ip && p[8..10] == Le16(r.port)
      && p[10..s] == Prefixed(r.build) && p[s..w] == Prefixed(r.ssid) && p[w..w + 1 + |r.pass|] == Prefixed(r.pass)
  {
    hide Byte, Prefixed, Le16;
    SixJoined([5, device, start, bounds], r.ip, Le16(r.port), Prefixed(r.build), Prefixed(r.ssid), Prefixed(r.pass));
  }

  /** The parser on a request with a build id of the right length. */
  lemma EncodedParses(device: bv8, start: bv8, bounds: bv8, r: Dfu2Request, me: bv8, own: bv8)
    requires Encodable(r) && 1 <= |r.build| <= BUILD_ID_MAX && |r.pass| <= PASS_MAX
    ensures ParseDfu2(EncodeDfu2(device, start, bounds, r), me, own)
         == if device != own || !Addressed(me, start, bounds) then Nothing
            else if 1 <= |r.ssid| <= SSID_MAX then Dfu2(r) else Invalid
  {
    hide EncodeDfu2, Byte, Value, Field, Word16, Prefixed, Le16;
    var p := EncodeDfu2(device, start, bounds, r);
    EncodedLayout(device, start, bounds, r);
    assert p[1] == p[..4][1] && p[2] == p[..4][2] && p[3] == p[..4][3];
    PortReads(p, 8, r.port);
    FieldReads(p, 10, r.build, 1, BUILD_ID_MAX);
    FieldReads(p, 11 + |r.build|, r.ssid, 1, SSID_MAX);
    FieldReads(p, 12 + |r.build| + |r.ssid|, r.pass, 0, PASS_MAX);
  }

  /** What the tool's checks leave for the parser to rely on. */
  lemma BuiltParts(device: bv8, start: int, last: int, r: Dfu2Request, me: bv8)
    requires BuildDfu2(device, start, last, r).Some?
    ensures 0 <= start <= last <= 255 && Encodable(r) && |r.build| == BUILD_ID_MAX && |r.pass| <= PASS_MAX
    ensures BuildDfu2(device, start, last, r).value == EncodeDfu2(device, Byte(start), Byte(last - start), r)
    ensures var body := BuildDfu2(device, start, last, r).value; 1 <= |body| <= BODY_MAX && body[0] == 5
    ensures Addressed(me, Byte(start), Byte(last - start)) <==> start <= Value(me) <= last
  {
    EncodedLayout(device, Byte(start), Byte(last - start), r);
    ByteValue(start);
    ByteValue(last - start);
    hide EncodeDfu2, Byte, Value;
    var body := BuildDfu2(device, start, last, r).value;
    assert body[0] == body[..4][0];
  }

  lemma ParseOfPacket(f: seq<bv8>, pkt: seq<bv8>, me: bv8, own: bv8)
    requires Payload(f) == Some(pkt) && |pkt| >= 1 && pkt[0] == 5
    ensures Parse(f, me, own) == ParseDfu2(pkt, me, own)
  {
    hide Payload, ParseDfu2;
  }

  /**
   What a request the tool agrees to send means to a device: exactly the addressed ids of exactly the
   addressed device type get its fields back, if and only if the SSID has 1 to 32 bytes. The tool does
   not check that; the 70-byte body is what keeps the password within its limit.
  */
  lemma Dfu2RoundTrip(header: seq<bv8>, fcs: seq<bv8>, device: bv8, start: int, last: int, r: Dfu2Request, me: bv8, own: bv8)
    requires BuildDfu2(device, start, last, r).Some?
    requires FrameParts(header, BuildDfu2(device, start, last, r).value, fcs)
    ensures |BuildDfu2(device, start, last, r).value| <= BODY_MAX
    ensures Parse(Frame(header, BuildDfu2(device, start, last, r).value, fcs), me, own)
         == if device != own || !(start <= Value(me) <= last) then Nothing
            else if 1 <= |r.ssid| <= SSID_MAX then Dfu2(r)
            else Invalid
  {
    hide BuildDfu2, EncodeDfu2, Frame, Payload, Parse, ParseDfu2, FrameParts, Byte, Value, Addressed, Encodable;
    var body := BuildDfu2(device, start, last, r).value;
    BuiltParts(device, start, last, r, me);
    FrameUnwraps(header, body, fcs);
    ParseOfPacket(Frame(header, body, fcs), body, me, own);
    EncodedParses(device, Byte(start), Byte(last - start), r, me, own);
  }

  /** The tool accepts an empty network name, and no device acts on it. */
  lemma EmptySsidIsLost(device: bv8, start: int, last: int, r: Dfu2Request, me: bv8)
    requires 0 <= start <= last <= 255 && |r.build| == BUILD_ID_MAX && |r.ip| == 4 && 1 <= r.port <= 65535
    requires r.ssid == [] && |r.pass| <= 49 && start <= Value(me) <= last
    ensures BuildDfu2(device, start, last, r).Some?
    ensures ParseDfu2(BuildDfu2(device, start, last, r).value, me, device) == Invalid
  {
    EncodedLayout(device, Byte(start), Byte(last - start), r);
    hide EncodeDfu2, Byte, ParseDfu2, Value;
    BuiltParts(device, start, last, r, me);
    EncodedParses(device, Byte(start), Byte(last - start), r, me, device);
  }

  lemma FieldPrefixed(pkt: seq<bv8>, off: nat, lo: nat, hi: nat)
    requires Field(pkt, off, lo, hi).Some?
    ensures var (s, end) := Field(pkt, off, lo, hi).value;
      lo <= |s| <= hi && |s| < 256 && end == off + 1 + |s| <= |pkt| && pkt[off..end] == Prefixed(s)
  {
    hide Byte;
    var (s, end) := Field(pkt, off, lo, hi).value;
    ValueByte(pkt[off]);
    assert pkt[off..end] == [pkt[off]] + pkt[off + 1..end];
  }

  lemma TwoDigits(x: nat, y: nat)
    requires x < 256 && y < 256
    ensures x + 256 * y < 0x1_0000 && (x + 256 * y) % 256 == x && (x + 256 * y) / 256 == y
  {
  }

  lemma PortPrints(pkt: seq<bv8>, off: nat)
    requires off + 2 <= |pkt|
    ensures Word16(pkt, off) < 0x1_0000 && Le16(Word16(pkt, off)) == pkt[off..off + 2]
  {
    hide Byte, Value;
    ValueByte(pkt[off]);
    ValueByte(pkt[off + 1]);
    TwoDigits(Value(pkt[off]), Value(pkt[off + 1]));
  }

  /** The offsets of the fields of an accepted request, and what the parser checked of them. */
  lemma AcceptedFields(pkt: seq<bv8>, me: bv8, own: bv8) returns (s: nat, w: nat, end: nat)
    requires ParseDfu2(pkt, me, own).Dfu2?
    ensures var r := ParseDfu2(pkt, me, own).request;
      && |pkt| >= 10 && pkt[1] == own && Addressed(me, pkt[2], pkt[3])
      && r.ip == pkt[4..8] && r.port == Word16(pkt, 8)
      && |r.build| < 256 && |r.ssid| < 256 && |r.pass| < 256
      && 10 <= s <= w <= end <= |pkt|
      && pkt[10..s] == Prefixed(r.build) && pkt[s..w] == Prefixed(r.ssid) && pkt[w..end] == Prefixed(r.pass)
  {
    hide Value, Field, Word16, Prefixed, Addressed;
    var r := ParseDfu2(pkt, me, own).request;
    FieldPrefixed(pkt, 10, 1, BUILD_ID_MAX);
    s := 11 + |r.build|;
    FieldPrefixed(pkt, s, 1, SSID_MAX);
    w := s + 1 + |r.ssid|;
    FieldPrefixed(pkt, w, 0, PASS_MAX);
    end := w + 1 + |r.pass|;
  }

  lemma OnlyTag5(pkt: seq<bv8>, me: bv8, own: bv8)
    requires |pkt| >= 1 && ParsePacket(pkt, me, own).Dfu2?
    ensures pkt[0] == 5 && ParsePacket(pkt, me, own) == ParseDfu2(pkt, me, own)
  {
    hide ParseDfu2, TableFits, ParseTable, WordAt, CommandEffect, Word32;
  }

  /** The other direction: a request a device accepts re-encodes to the start of the packet it came in. */
  lemma AcceptedReencodes(pkt: seq<bv8>, me: bv8, own: bv8)
    requires |pkt| >= 1 && ParsePacket(pkt, me, own).Dfu2?
    ensures |pkt| >= 10 && pkt[1] == own && Addressed(me, pkt[2], pkt[3])
    ensures var r := ParsePacket(pkt, me, own).request;
      Encodable(r) && EncodeDfu2(pkt[1], pkt[2], pkt[3], r) <= pkt
  {
    OnlyTag5(pkt, me, own);
    hide Value, Byte, Field, Word16, Prefixed, Le16, Addressed, ParseDfu2, ParsePacket;
    var s, w, end := AcceptedFields(pkt, me, own);
    PortPrints(pkt, 8);
    SixPieces(pkt, 4, 8, 10, s, w, end);
    assert pkt[..4] == [5, pkt[1], pkt[2], pkt[3]];
  }

  lemma SixPieces(p: seq<bv8>, a: nat, b: nat, c: nat, d: nat, e: nat, end: nat)
    requires a <= b <= c <= d <= e <= end <= |p|
    ensures p[..a] + p[a..b] + p[b..c] + p[c..d] + p[d..e] + p[e..end] <= p
  {
    Grows(p, a, b);
    Grows(p, b, c);
    Grows(p, c, d);
    Grows(p, d, e);
    Grows(p, e, end);
  }

  lemma Grows(p: seq<bv8>, i: nat, j: nat)
    requires i <= j <= |p|
    ensures p[..i] + p[i..j] == p[..j]
  {
  }

  // ---- 0x07: words ------------------------------------------------------------------------

  /** The four codes of a value word. */
  datatype Codes = Codes(a: bv64, b: bv64, lum: bv64, f: bv64)

  predicate InRange(c: Codes) {
    c.a <= 0x7FF && c.b <= 0x7FF && c.lum <= 0xFFF && c.f <= 0x3F
  }

  function Pack(c: Codes): bv64 {
    c.a | (c.b << 11) | (c.lum << 22) | (c.f << 34)
  }

  function Unpack(w: bv64): Codes {
    Codes(w & 0x7FF, (w >> 11) & 0x7FF, (w >> 22) & 0xFFF, (w >> 34) & 0x3F)
  }

  predicate FortyBits(w: bv64) {
    w >> 40 == 0
  }

  lemma UnpackPack(c: Codes)
    requires InRange(c)
    ensures FortyBits(Pack(c)) && Unpack(Pack(c)) == c
  {
  }

  lemma PackUnpack(w: bv64)
    requires FortyBits(w)
    ensures InRange(Unpack(w)) && Pack(Unpack(w)) == w
  {
  }

  /** Little-endian byte k of a word. */
  function ByteOf(w: bv64, k: nat): bv8
    requires k < 5
  {
    var v := if k == 0 then w else if k == 1 then w >> 8 else if k == 2 then w >> 16 else if k == 3 then w >> 24 else w >> 32;
    (v & 0xFF) as bv8
  }

  function Join(e0: bv8, e1: bv8, e2: bv8, e3: bv8, e4: bv8): bv64 {
    (((((((((e4 as bv64) << 8) | (e3 as bv64)) << 8) | (e2 as bv64)) << 8) | (e1 as bv64)) << 8) | (e0 as bv64))
  }

  lemma JoinBytes(w: bv64)
    requires FortyBits(w)
    ensures Join(ByteOf(w, 0), ByteOf(w, 1), ByteOf(w, 2), ByteOf(w, 3), ByteOf(w, 4)) == w
  {
  }

  // ---- 0x07: tables -----------------------------------------------------------------------

  function EncodeEntry(id: bv8, w: bv64): (e: seq<bv8>)
    ensures |e| == ENTRY_SIZE
  {
    [id, ByteOf(w, 0), ByteOf(w, 1), ByteOf(w, 2), ByteOf(w, 3), ByteOf(w, 4)]
  }

  function EncodeTable(ids: seq<bv8>, words: seq<bv64>): (t: seq<bv8>)
    requires |ids| == |words|
    ensures |t| == ENTRY_SIZE * |ids|
    decreases |ids|
  {
    if |ids| == 0 then [] else
      var n := |ids| - 1;
      EncodeTable(ids[..n], words[..n]) + EncodeEntry(ids[n], words[n])
  }

  /** A table of either kind: 3 for colours, whose five levels are the bytes of a word, 7 for Lemtone words. */
  function TableBody(tag: bv8, ids: seq<bv8>, words: seq<bv64>): (b: seq<bv8>)
    requires |ids| == |words| <= MAX_ENTRIES
    ensures |b| == 2 + ENTRY_SIZE * |ids| <= BODY_MAX
  {
    [tag, Byte(|ids|)] + EncodeTable(ids, words)
  }

  function LemtoneBody(ids: seq<bv8>, words: seq<bv64>): (b: seq<bv8>)
    requires |ids| == |words| <= MAX_ENTRIES
    ensures |b| == 2 + ENTRY_SIZE * |ids| <= BODY_MAX
  {
    TableBody(7, ids, words)
  }

  lemma {:induction false} EntryAt(ids: seq<bv8>, words: seq<bv64>, i: nat)
    requires |ids| == |words| && i < |ids|
    ensures EncodeTable(ids, words)[ENTRY_SIZE * i..ENTRY_SIZE * (i + 1)] == EncodeEntry(ids[i], words[i])
    decreases |ids|
  {
    hide EncodeEntry;
    var n := |ids| - 1;
    if i < n {
      EntryAt(ids[..n], words[..n], i);
      var t := EncodeTable(ids[..n], words[..n]);
      assert (t + EncodeEntry(ids[n], words[n]))[ENTRY_SIZE * i..ENTRY_SIZE * (i + 1)] == t[ENTRY_SIZE * i..ENTRY_SIZE * (i + 1)];
    } else {
      var t, e := EncodeTable(ids[..n], words[..n]), EncodeEntry(ids[n], words[n]);
      assert (t + e)[|t|..|t| + ENTRY_SIZE] == e;
    }
  }

  function BytesOf(w: bv64): (e: seq<bv8>)
    ensures |e| == 5
  {
    [ByteOf(w, 0), ByteOf(w, 1), ByteOf(w, 2), ByteOf(w, 3), ByteOf(w, 4)]
  }

  /** The id byte, the five bytes behind it and the word of entry i, read where the parser reads them. */
  lemma EntryReads(tag: bv8, ids: seq<bv8>, words: seq<bv64>, i: nat)
    requires |ids| == |words| <= MAX_ENTRIES && i < |ids| && FortyBits(words[i])
    ensures var p := TableBody(tag, ids, words);
      && p[2 + ENTRY_SIZE * i] == ids[i] && p[3 + ENTRY_SIZE * i..8 + ENTRY_SIZE * i] == BytesOf(words[i])
      && WordAt(p, 3 + ENTRY_SIZE * i) == words[i]
  {
    hide Byte, ByteOf, Join, FortyBits;
    var p, at := TableBody(tag, ids, words), 2 + ENTRY_SIZE * i;
    EntryAt(ids, words, i);
    assert p[at..at + 6] == EncodeEntry(ids[i], words[i]);
    assert p[at] == p[at..at + 6][0] && p[at + 1] == p[at..at + 6][1] && p[at + 2] == p[at..at + 6][2];
    assert p[at + 3] == p[at..at + 6][3] && p[at + 4] == p[at..at + 6][4] && p[at + 5] == p[at..at + 6][5];
    JoinBytes(words[i]);
  }

  /** Index of the first of ids[i..] that is me. */
  function FirstId(ids: seq<bv8>, me: bv8, i: nat): (r: Option<nat>)
    ensures r.Some? ==> i <= r.value < |ids|
    decreases |ids| - i
  {
    if i >= |ids| then None else if ids[i] == me then Some(i) else FirstId(ids, me, i + 1)
  }

  lemma {:induction false} SameFirst(tag: bv8, ids: seq<bv8>, words: seq<bv64>, me: bv8, i: nat)
    requires |ids| == |words| <= MAX_ENTRIES && i <= |ids| && forall k :: 0 <= k < |words| ==> FortyBits(words[k])
    ensures FirstFor(TableBody(tag, ids, words), me, i, |ids|) == FirstId(ids, me, i)
    decreases |ids| - i
  {
    hide TableBody, WordAt;
    if i < |ids| {
      EntryReads(tag, ids, words, i);
      SameFirst(tag, ids, words, me, i + 1);
    }
  }

  lemma TableShape(tag: bv8, ids: seq<bv8>, words: seq<bv64>)
    requires |ids| == |words| <= MAX_ENTRIES
    ensures var p := TableBody(tag, ids, words); p[0] == tag && TableFits(p) && Value(p[1]) == |ids|
  {
    hide Byte, Value;
    ByteValue(|ids|);
  }

  lemma ParseOfFrame(header: seq<bv8>, body: seq<bv8>, fcs: seq<bv8>, me: bv8, own: bv8)
    requires FrameParts(header, body, fcs)
    ensures Parse(Frame(header, body, fcs), me, own) == ParsePacket(body, me, own)
  {
    FrameUnwraps(header, body, fcs);
    hide Payload, ParsePacket, Frame;
  }

  /** Where the table's parser finds our entry, if it does, and what is there. */
  lemma TableParses(tag: bv8, ids: seq<bv8>, words: seq<bv64>, me: bv8)
    requires |ids| == |words| <= MAX_ENTRIES && forall k :: 0 <= k < |words| ==> FortyBits(words[k])
    ensures var p, i := TableBody(tag, ids, words), FirstId(ids, me, 0);
      && p[0] == tag && TableFits(p) && ParseTable(p, me) == i
      && (i.Some? ==> p[3 + ENTRY_SIZE * i.value..8 + ENTRY_SIZE * i.value] == BytesOf(words[i.value])
                      && WordAt(p, 3 + ENTRY_SIZE * i.value) == words[i.value])
  {
    hide Byte, Value, FortyBits, FirstFor, FirstId, WordAt, TableBody, BytesOf;
    TableShape(tag, ids, words);
    SameFirst(tag, ids, words, me, 0);
    if FirstId(ids, me, 0).Some? {
      EntryReads(tag, ids, words, FirstId(ids, me, 0).value);
    }
  }

  /** Every table of up to eleven entries gives each id the first entry that carries it, or nothing. */
  lemma LemtoneRoundTrip(header: seq<bv8>, fcs: seq<bv8>, ids: seq<bv8>, words: seq<bv64>, me: bv8, own: bv8)
    requires |ids| == |words| <= MAX_ENTRIES && forall k :: 0 <= k < |words| ==> FortyBits(words[k])
    requires FrameParts(header, LemtoneBody(ids, words), fcs)
    ensures Parse(Frame(header, LemtoneBody(ids, words), fcs), me, own)
         == if FirstId(ids, me, 0).None? then Nothing else Lemtone(words[FirstId(ids, me, 0).value])
  {
    hide Byte, Value, Frame, TableBody, FrameParts, FortyBits, TableFits, FirstFor, FirstId, WordAt, Parse, ParseTable;
    ParseOfFrame(header, LemtoneBody(ids, words), fcs, me, own);
    TableParses(7, ids, words, me);
  }

  /** The same for the table of colours and its five levels. */
  lemma ColourRoundTrip(header: seq<bv8>, fcs: seq<bv8>, ids: seq<bv8>, words: seq<bv64>, me: bv8, own: bv8)
    requires |ids| == |words| <= MAX_ENTRIES && forall k :: 0 <= k < |words| ==> FortyBits(words[k])
    requires FrameParts(header, TableBody(3, ids, words), fcs)
    ensures Parse(Frame(header, TableBody(3, ids, words), fcs), me, own)
         == if FirstId(ids, me, 0).None? then Nothing else Colour(BytesOf(words[FirstId(ids, me, 0).value]))
  {
    hide Byte, Value, Frame, TableBody, FrameParts, FortyBits, TableFits, FirstFor, FirstId, BytesOf, Parse, ParseTable;
    ParseOfFrame(header, TableBody(3, ids, words), fcs, me, own);
    TableParses(3, ids, words, me);
  }

  // ---- 0x02, 0x06 and 0x04: one light, or a range -----------------------------------------

  /** parse_precise and parse_raw: five floats, and for raw duties five periods. */
  function PreciseBody(id: bv8, words: seq<bv8>): seq<bv8> {
    [2, id] + words
  }

  function RawBody(id: bv8, words: seq<bv8>, periods: seq<bv8>): seq<bv8> {
    [6, id] + words + periods
  }

  /** The light with that id gets the five floats, byte for byte, the others nothing. */
  lemma PreciseRoundTrip(header: seq<bv8>, fcs: seq<bv8>, id: bv8, words: seq<bv8>, me: bv8, own: bv8)
    requires |words| == 20 && FrameParts(header, PreciseBody(id, words), fcs)
    ensures Parse(Frame(header, PreciseBody(id, words), fcs), me, own) == if me == id then Precise(words) else Nothing
  {
    hide Frame, FrameParts, Parse;
    ParseOfFrame(header, PreciseBody(id, words), fcs, me, own);
    assert PreciseBody(id, words)[2..22] == words;
  }

  /** And for raw duties the periods behind them. */
  lemma RawRoundTrip(header: seq<bv8>, fcs: seq<bv8>, id: bv8, words: seq<bv8>, periods: seq<bv8>, me: bv8, own: bv8)
    requires |words| == 20 && |periods| == 5 && FrameParts(header, RawBody(id, words, periods), fcs)
    ensures Parse(Frame(header, RawBody(id, words, periods), fcs), me, own)
         == if me == id then Raw(words, periods) else Nothing
  {
    hide Frame, FrameParts, Parse;
    ParseOfFrame(header, RawBody(id, words, periods), fcs, me, own);
    assert RawBody(id, words, periods)[2..22] == words && RawBody(id, words, periods)[22..27] == periods;
  }

  function Le32(x: nat): (s: seq<bv8>)
    requires x < 0x1_0000_0000
    ensures |s| == 4
  {
    Le16(x % 0x1_0000) + Le16(x / 0x1_0000)
  }

  lemma NumberReads(pkt: seq<bv8>, off: nat, x: nat)
    requires x < 0x1_0000_0000 && off + 4 <= |pkt| && pkt[off..off + 4] == Le32(x)
    ensures Word32(pkt, off) == x
  {
    hide Le16, Word16;
    Halves(pkt, off, Le16(x % 0x1_0000), Le16(x / 0x1_0000));
    PortReads(pkt, off, x % 0x1_0000);
    PortReads(pkt, off + 2, x / 0x1_0000);
  }

  lemma Halves(pkt: seq<bv8>, off: nat, a: seq<bv8>, b: seq<bv8>)
    requires |a| == 2 && |b| == 2 && off + 4 <= |pkt| && pkt[off..off + 4] == a + b
    ensures pkt[off..off + 2] == a && pkt[off + 2..off + 4] == b
  {
    assert pkt[off..off + 2] == pkt[off..off + 4][..2] && pkt[off + 2..off + 4] == pkt[off..off + 4][2..];
  }

  /** The number of a command and what it carries. */
  function EffectBytes(e: Effect): seq<bv8>
    requires e.SetConfig? ==> e.key < 0x1_0000 && |e.value| < 256
  {
    match e
    case NoEffect => [0xFF]
    case EnterDfu => [0]
    case Reboot => [2]
    case SetConfig(key, value) => [1] + Le16(key) + Prefixed(value)
  }

  predicate Sendable(number: nat, e: Effect) {
    number < 0x1_0000_0000 && (e.SetConfig? ==> e.key < 0x1_0000 && |e.value| < 256)
  }

  /** A command for the ids from start to start + bounds. */
  function CommandBody(number: nat, start: bv8, bounds: bv8, e: Effect): seq<bv8>
    requires Sendable(number, e)
  {
    [4] + Le32(number) + [start, bounds] + EffectBytes(e)
  }

  /** What the receiver makes of an effect: a value longer than it can store is not written. */
  function Obeyed(e: Effect): Effect {
    if e.SetConfig? && |e.value| > VALUE_MAX then NoEffect else e
  }

  lemma CommandLayout(number: nat, start: bv8, bounds: bv8, e: Effect)
    requires Sendable(number, e)
    ensures var p := CommandBody(number, start, bounds, e);
      && |p| >= 8 && p[0] == 4 && p[1..5] == Le32(number) && p[5] == start && p[6] == bounds && p[7..] == EffectBytes(e)
  {
    hide Le32, Le16, Prefixed;
  }

  lemma EffectReads(pkt: seq<bv8>, e: Effect)
    requires e.SetConfig? ==> e.key < 0x1_0000 && |e.value| < 256
    requires |pkt| >= 8 && pkt[7..] == EffectBytes(e)
    ensures CommandEffect(pkt) == Obeyed(e)
  {
    assert pkt[7] == pkt[7..][0];
    if e.SetConfig? {
      SetConfigReads(pkt, e.key, e.value);
    }
  }

  /** Four pieces in a row, each where it is looked for. */
  lemma FourJoined(a: seq<bv8>, b: seq<bv8>, c: seq<bv8>, d: seq<bv8>)
    ensures var p := a + b + c + d;
      var i, j := |a| + |b|, |a| + |b| + |c|;
      && |p| == j + |d| && p[..|a|] == a && p[|a|..i] == b && p[i..j] == c && p[j..j + |d|] == d
  {
    Appended([], a);
    Appended(a, b);
    Appended(a + b, c);
    Appended(a + b + c, d);
    assert [] + a == a;
  }

  lemma DroppedSlice(pkt: seq<bv8>, n: nat, i: nat, j: nat)
    requires i <= j && n + j <= |pkt|
    ensures pkt[n + i..n + j] == pkt[n..][i..j]
  {
  }

  lemma SetConfigReads(pkt: seq<bv8>, key: nat, value: seq<bv8>)
    requires key < 0x1_0000 && |value| < 256 && |pkt| >= 8 && pkt[7..] == [1] + Le16(key) + Prefixed(value)
    ensures CommandEffect(pkt) == if |value| > VALUE_MAX then NoEffect else SetConfig(key, value)
  {
    hide Byte, Value, Le16, Word16;
    var n := |value|;
    ByteValue(n);
    assert pkt[7..] == [1] + Le16(key) + [Byte(n)] + value;
    FourJoined([1], Le16(key), [Byte(n)], value);
    DroppedSlice(pkt, 7, 0, 1);
    DroppedSlice(pkt, 7, 1, 3);
    DroppedSlice(pkt, 7, 3, 4);
    DroppedSlice(pkt, 7, 4, 4 + n);
    assert pkt[7] == pkt[7..8][0] && pkt[10] == pkt[10..11][0];
    PortReads(pkt, 8, key);
  }

  /** Every receiver learns the number; those in the range, counted without wrap, obey. */
  lemma CommandRoundTrip(header: seq<bv8>, fcs: seq<bv8>, number: nat, start: bv8, bounds: bv8, e: Effect, me: bv8, own: bv8)
    requires Sendable(number, e) && FrameParts(header, CommandBody(number, start, bounds, e), fcs)
    ensures Parse(Frame(header, CommandBody(number, start, bounds, e), fcs), me, own)
         == Command(number, if Value(start) <= Value(me) <= Value(start) + Value(bounds) then Obeyed(e) else NoEffect)
  {
    hide Frame, FrameParts, Parse, CommandBody, CommandEffect, Word32, Obeyed, EffectBytes, Le32;
    var p := CommandBody(number, start, bounds, e);
    ParseOfFrame(header, p, fcs, me, own);
    CommandLayout(number, start, bounds, e);
    NumberReads(p, 1, number);
    EffectReads(p, e);
  }

  /** The 36 bytes in front of the element, as the self-test sends them. */
  const TEST_HEADER: seq<bv8> := [0x80] + seq(35, _ => 0)

  /** One entry of a table, written at n. */
  method FillEntry(p: array<bv8>, n: nat, id: bv8, w: bv64)
    requires n + ENTRY_SIZE <= p.Length
    modifies p
    ensures p[..n] == old(p[..n]) && p[n..n + ENTRY_SIZE] == EncodeEntry(id, w)
  {
    hide ByteOf;
    p[n] := id;
    for k := 0 to 5
      invariant p[..n] == old(p[..n]) && p[n] == id && forall m :: 0 <= m < k ==> p[n + 1 + m] == ByteOf(w, m)
    {
      p[n + 1 + k] := ByteOf(w, k);
    }
  }

  method FillTable(p: array<bv8>, start: nat, ids: seq<bv8>, words: seq<bv64>)
    requires |ids| == |words| && start + ENTRY_SIZE * |ids| <= p.Length
    modifies p
    ensures p[..start] == old(p[..start])
    ensures p[start..start + ENTRY_SIZE * |ids|] == EncodeTable(ids, words)
  {
    hide EncodeEntry;
    var n := start;
    for i := 0 to |ids|
      invariant n == start + ENTRY_SIZE * i
      invariant p[..start] == old(p[..start]) && p[start..n] == EncodeTable(ids[..i], words[..i])
    {
      ghost var before := p[..n];
      FillEntry(p, n, ids[i], words[i]);
      assert p[..start] == before[..start] && p[start..n] == before[start..];
      assert ids[..i + 1][..i] == ids[..i] && words[..i + 1][..i] == words[..i];
      assert p[start..n + ENTRY_SIZE] == p[start..n] + p[n..n + ENTRY_SIZE];
      n := n + ENTRY_SIZE;
    }
    assert ids[..|ids|] == ids && words[..|ids|] == words;
  }

  /** Everything in front of the table; the element's length byte (37) is not known yet. */
  method FillFront(p: array<bv8>, count: bv8)
    requires p.Length >= 43
    modifies p
    ensures p[..36] == TEST_HEADER && p[36] == VENDOR && p[38..43] == OUI + [7, count]
  {
    p[0], p[1] := 0x80, 0;
    var n := 2;
    for i := 0 to 34
      invariant n == 2 + i && p[..n] == TEST_HEADER[..n]
    {
      p[n] := 0;
      n := n + 1;
    }
    ghost var header := p[..36];
    assert header == TEST_HEADER;
    p[36], p[38], p[39], p[40], p[41], p[42] := VENDOR, OUI[0], OUI[1], OUI[2], 7, count;
    assert p[..36] == header;
  }

  lemma FrameOf(f: seq<bv8>, header: seq<bv8>, body: seq<bv8>)
    requires |header| == 36 && |body| <= 252 && |f| == 41 + |body|
    requires f[..36] == header && f[36] == VENDOR && f[37] == Byte(3 + |body|) && f[38..41] == OUI && f[41..] == body
    ensures f == Frame(header, body, [])
  {
    hide Byte;
    assert f[36..38] == [VENDOR, Byte(3 + |body|)];
    FivePieces(f, 36, 38, 41, |f|);
    assert f[41..|f|] == body;
    assert f[|f|..] == [];
  }

  lemma SplitAt3(s: seq<bv8>, a: seq<bv8>, b: seq<bv8>)
    requires |a| == 3 && s == a + b
    ensures s[..3] == a && s[3..] == b
  {
  }

  lemma BodyOf(f: seq<bv8>, ids: seq<bv8>, words: seq<bv64>)
    requires |ids| == |words| <= MAX_ENTRIES && |f| == 43 + ENTRY_SIZE * |ids|
    requires f[38..43] == OUI + [7, Byte(|ids|)] && f[43..] == EncodeTable(ids, words)
    ensures f[38..41] == OUI && f[41..] == LemtoneBody(ids, words)
  {
    hide Byte, EncodeTable;
    SplitAt3(f[38..43], OUI, [7, Byte(|ids|)]);
    assert f[38..41] == f[38..43][..3];
    assert f[41..43] == f[38..43][3..];
    assert f[41..] == f[41..43] + f[43..];
  }

  /** Setting the length byte leaves everything around it. */
  lemma LengthByteSet(before: seq<bv8>, x: bv8)
    requires |before| >= 43
    ensures var f := before[37 := x];
      && f[..36] == before[..43][..36] && f[36] == before[..43][36] && f[37] == x
      && f[38..43] == before[..43][38..] && f[43..] == before[43..]
  {
    var f := before[37 := x];
    assert forall k :: 0 <= k < |f| && k != 37 ==> f[k] == before[k];
    assert forall k :: 0 <= k < 5 ==> f[38..43][k] == before[38 + k] == before[..43][38..][k];
  }

  /** lt_frame: fill a buffer, the element's length last. */
  method FillFrame(p: array<bv8>, ids: seq<bv8>, words: seq<bv64>) returns (n: nat)
    requires |ids| == |words| <= MAX_ENTRIES && p.Length >= 43 + ENTRY_SIZE * |ids|
    modifies p
    ensures n == 43 + ENTRY_SIZE * |ids|
    ensures p[..n] == Frame(TEST_HEADER, LemtoneBody(ids, words), [])
  {
    hide Byte, EncodeTable, Frame, LemtoneBody;
    FillFront(p, Byte(|ids|));
    ghost var front := p[..43];
    assert front[..36] == TEST_HEADER && front[36] == VENDOR && front[38..] == OUI + [7, Byte(|ids|)];
    FillTable(p, 43, ids, words);
    n := 43 + ENTRY_SIZE * |ids|;
    ghost var before := p[..n];
    assert before[..43] == front && before[43..] == p[43..n];
    p[37] := Byte(n - 38);
    assert p[..n] == before[37 := p[37]];
    LengthByteSet(before, p[37]);
    BodyOf(p[..n], ids, words);
    FrameOf(p[..n], TEST_HEADER, LemtoneBody(ids, words));
  }

  // ---- 0x07: what the codes stand for -----------------------------------------------------

  const AB_STEP: real := 0.0008
  const AB_MAX: int := 2047
  const F_MAX: int := 63

  function ClampCode(v: int, hi: int): int {
    if v < 0 then 0 else if v > hi then hi else v
  }

  /** The a or b code of a chromaticity, and the chromaticity of a code; the offset is 1046 for a, 1424 for b. */
  function AbCode(x: real, offset: int): int {
    ClampCode(Numeric.Round(x / AB_STEP) + offset, AB_MAX)
  }

  function AbValue(code: int, offset: int): real {
    (code - offset) as real * AB_STEP
  }

  function FCode(f: real): int {
    ClampCode(Numeric.Round(f * F_MAX as real), F_MAX)
  }

  function FValue(code: int): real {
    code as real / F_MAX as real
  }

  /** A decoded value encodes to the code it came from, so a value relayed unchanged is a repeat. */
  lemma CodesSurvive(code: int, offset: int)
    requires 0 <= code <= AB_MAX
    ensures AbCode(AbValue(code, offset), offset) == code
    ensures code <= F_MAX ==> FCode(FValue(code)) == code
  {
    Numeric.RoundOfInt(code - offset);
    Numeric.RoundOfInt(code);
    assert (code - offset) as real * AB_STEP / AB_STEP == (code - offset) as real;
    assert code as real / F_MAX as real * F_MAX as real == code as real;
  }

  /** Quantizing to the a or b grid moves a colour in range by at most half a step. */
  lemma AbWithinHalfStep(x: real, offset: int)
    requires AbValue(0, offset) <= x <= AbValue(AB_MAX, offset)
    ensures var y := AbValue(AbCode(x, offset), offset); x - AB_STEP / 2.0 <= y <= x + AB_STEP / 2.0
  {
    var q := x / AB_STEP;
    assert q * AB_STEP == x;
    assert -offset as real <= q <= (AB_MAX - offset) as real;
    Numeric.RoundOfInt(-offset);
    assert (Numeric.Round(q) as real - 0.5) <= q <= (Numeric.Round(q) as real + 0.5);
  }

  /** So is the fidelity; and what lies outside a code's range gets the nearest end of it. */
  lemma FWithinHalfStep(f: real)
    requires 0.0 <= f <= 1.0
    ensures FValue(FCode(f)) - 0.5 / F_MAX as real <= f <= FValue(FCode(f)) + 0.5 / F_MAX as real
  {
    var q := f * F_MAX as real;
    assert (Numeric.Round(q) as real - 0.5) <= q <= (Numeric.Round(q) as real + 0.5);
  }

  lemma OutsideGetsTheEnd(x: real, offset: int)
    ensures x < AbValue(0, offset) ==> AbCode(x, offset) == 0
    ensures x > AbValue(AB_MAX, offset) ==> AbCode(x, offset) == AB_MAX
    ensures x < 0.0 ==> FCode(x) == 0
    ensures x > 1.0 ==> FCode(x) == F_MAX
  {
    var q := x / AB_STEP;
    assert q * AB_STEP == x;
    assert (Numeric.Round(q) as real - 0.5) <= q <= (Numeric.Round(q) as real + 0.5);
    var g := x * F_MAX as real;
    assert (Numeric.Round(g) as real - 0.5) <= g <= (Numeric.Round(g) as real + 0.5);
  }
}
