/**
 The packer's side of a migration (image, header, guards) and the device's validation of it, joined
 to the flash engine: what the packer accepts the device accepts, and what the device migrates is
 the image the header was made for.
*/
module Migrator {
  import opened Bytes
  import C = Crc32
  import F = FlashRewrite

  const MAGIC: nat := 0x4749_4D4B
  const VERSION: nat := 1
  const HDR_ADDR: nat := 0x11_0000
  const PAYLOAD_ADDR: nat := 0x11_1000
  const FS_START: nat := 0x3F_B000
  const FREE_SKETCH_SPACE: nat := 3690496
  const MAX_LENGTH: nat := 0x10_0000
  const HDR_CRC_LEN: nat := 24
  const WORD: nat := 0x1_0000_0000

  // ---- words on the wire ------------------------------------------------------------------

  /** A little-endian 32-bit word. */
  function Le32(x: nat): (s: seq<bv8>)
    requires x < WORD
    ensures |s| == 4
  {
    [Byte(x % 256), Byte(x / 256 % 256), Byte(x / 0x1_0000 % 256), Byte(x / 0x100_0000 % 256)]
  }

  function Read32(s: seq<bv8>, off: nat): nat
    requires off + 4 <= |s|
  {
    Value(s[off]) + 256 * Value(s[off + 1]) + 0x1_0000 * Value(s[off + 2]) + 0x100_0000 * Value(s[off + 3])
  }

  lemma Le32RoundTrip(s: seq<bv8>, off: nat, x: nat)
    requires x < WORD && off + 4 <= |s| && s[off..off + 4] == Le32(x)
    ensures Read32(s, off) == x
  {
    hide Byte, Value;
    ByteValue(x % 256);
    ByteValue(x / 256 % 256);
    ByteValue(x / 0x1_0000 % 256);
    ByteValue(x / 0x100_0000 % 256);
    assert s[off] == s[off..off + 4][0] && s[off + 1] == s[off..off + 4][1];
    assert s[off + 2] == s[off..off + 4][2] && s[off + 3] == s[off..off + 4][3];
    Digits(x);
  }

  lemma Digits(x: nat)
    requires x < WORD
    ensures x % 256 + 256 * (x / 256 % 256) + 0x1_0000 * (x / 0x1_0000 % 256) + 0x100_0000 * (x / 0x100_0000 % 256) == x
  {
    assert x / 0x1_0000 == x / 256 / 256;
    assert x / 0x100_0000 == x / 256 / 256 / 256;
  }

  function CrcValue(data: seq<bv8>): (x: nat)
    ensures x < WORD
  {
    C.Crc(data) as nat
  }

  lemma CrcValueInjective(a: seq<bv8>, b: seq<bv8>)
    requires CrcValue(a) == CrcValue(b)
    ensures C.Crc(a) == C.Crc(b)
  {
    hide C.Crc;
    assert (C.Crc(a) as nat) as bv32 == C.Crc(a);
    assert (C.Crc(b) as nat) as bv32 == C.Crc(b);
  }

  // ---- the header -------------------------------------------------------------------------

  function HeaderBody(length: nat, sectors: nat, crc: nat): (s: seq<bv8>)
    requires length < WORD && sectors < WORD && crc < WORD
    ensures |s| == HDR_CRC_LEN
  {
    Le32(MAGIC) + Le32(VERSION) + Le32(0) + Le32(length) + Le32(sectors) + Le32(crc)
  }

  /** build_header */
  function BuildHeader(length: nat, sectors: nat, crc: nat): (s: seq<bv8>)
    requires length < WORD && sectors < WORD && crc < WORD
  {
    var body := HeaderBody(length, sectors, crc);
    body + Le32(CrcValue(body))
  }

  datatype Verdict =
    | BadHeaderRead | BadMagic | BadHeaderCrc | BadVersion | BadBase | BadLength | BadSectors | BadPayloadRead | BadPayload
    | Accepted(sectors: nat)

  /** Sectors needed for a number of bytes. */
  function SectorsFor(n: nat): nat {
    (n + 4095) / 4096
  }

  /** As many whole sectors as it takes and no more, in sectors and in bytes. */
  lemma WholeSectors(n: nat)
    ensures 4096 * SectorsFor(n) == SectorUp(n) && SectorUp(n) % 4096 == 0 && n <= SectorUp(n) < n + 4096
  {
  }

  /** One of the first n reads of the payload fails; read 0 is the header's. */
  predicate Unread(failed: nat -> bool, n: nat) {
    exists k: nat :: 1 <= k <= n && failed(k)
  }

  /**
   setup(): the checks in the order the device makes them; `payload` is the flash from PAYLOAD_ADDR on,
   `failed(k)` says that the k-th read reports an error.
  */
  function Validate(h: seq<bv8>, payload: seq<bv8>, failed: nat -> bool): Verdict
    requires |h| == 28 && |payload| >= MAX_LENGTH
  {
    if failed(0) then BadHeaderRead
    else if Read32(h, 0) != MAGIC then BadMagic
    else if CrcValue(h[..HDR_CRC_LEN]) != Read32(h, 24) then BadHeaderCrc
    else if Read32(h, 4) != VERSION then BadVersion
    else if Read32(h, 8) != 0 then BadBase
    else if Read32(h, 12) == 0 || Read32(h, 12) > MAX_LENGTH then BadLength
    else if Read32(h, 16) != SectorsFor(Read32(h, 12)) then BadSectors
    else if Unread(failed, SectorsFor(Read32(h, 12))) then BadPayloadRead
    else if CrcValue(payload[..Read32(h, 12)]) != Read32(h, 20) then BadPayload
    else Accepted(Read32(h, 16))
  }

  /** Every field of a built header reads back. */
  lemma HeaderRoundTrip(length: nat, sectors: nat, crc: nat)
    requires length < WORD && sectors < WORD && crc < WORD
    ensures var h := BuildHeader(length, sectors, crc);
      && Read32(h, 0) == MAGIC && Read32(h, 4) == VERSION && Read32(h, 8) == 0
      && Read32(h, 12) == length && Read32(h, 16) == sectors && Read32(h, 20) == crc
      && Read32(h, 24) == CrcValue(h[..HDR_CRC_LEN])
  {
    hide Read32, Le32, CrcValue;
    var h, body := BuildHeader(length, sectors, crc), HeaderBody(length, sectors, crc);
    assert h[..HDR_CRC_LEN] == body;
    Le32RoundTrip(h, 0, MAGIC);
    Le32RoundTrip(h, 4, VERSION);
    Le32RoundTrip(h, 8, 0);
    Le32RoundTrip(h, 12, length);
    Le32RoundTrip(h, 16, sectors);
    Le32RoundTrip(h, 20, crc);
    Le32RoundTrip(h, 24, CrcValue(body));
  }

  /** The CRC over the header's other fields. */
  method HeaderCrc(h: seq<bv8>) returns (crc: nat)
    requires |h| == 28
    ensures crc == CrcValue(h[..HDR_CRC_LEN])
  {
    var buf := new bv8[28](i requires 0 <= i < 28 => h[i]);
    var reg := C.RunStream(C.ONES, buf, HDR_CRC_LEN);
    assert buf[..HDR_CRC_LEN] == h[..HDR_CRC_LEN];
    crc := Finish(reg);
  }

  /** The first `len` bytes of the payload area, streamed in buffers of one sector, or a failed read. */
  method StreamPayload(payload: seq<bv8>, len: nat, failed: nat -> bool) returns (ok: bool, crc: nat)
    requires len <= |payload|
    ensures ok <==> !Unread(failed, SectorsFor(len))
    ensures ok ==> crc == CrcValue(payload[..len])
  {
    hide C.Stream;
    var buf := new bv8[4096];
    var reg, off, k := C.ONES, 0, 0;
    C.StreamNothing(C.ONES);
    assert payload[..0] == [];
    assert !Unread(failed, 0);
    hide Unread;
    while off < len
      invariant off <= len && buf.Length == 4096 && k == SectorsFor(off) && (off < len ==> off == 4096 * k)
      invariant reg == C.Stream(C.ONES, payload[..off])
      invariant !Unread(failed, k)
    {
      var n := len - off;
      if n > buf.Length {
        n := buf.Length;
      }
      OneMoreRead(failed, k, SectorsFor(len));
      if failed(1 + k) {
        return false, 0;
      }
      for i := 0 to n
        invariant buf[..i] == payload[off..off + i]
      {
        buf[i] := payload[off + i];
      }
      reg := C.RunStream(reg, buf, n);
      C.StreamConcat(C.ONES, payload[..off], payload[off..off + n]);
      assert payload[..off] + payload[off..off + n] == payload[..off + n];
      off := off + n;
      k := k + 1;
    }
    ok := true;
    crc := Finish(reg);
  }

  lemma OneMoreRead(failed: nat -> bool, k: nat, n: nat)
    ensures Unread(failed, k + 1) <==> Unread(failed, k) || failed(1 + k)
    ensures k < n && failed(1 + k) ==> Unread(failed, n)
  {
  }

  function Finish(reg: bv32): nat {
    C.Mix(reg, C.ONES) as nat
  }

  method Check(h: seq<bv8>, payload: seq<bv8>, failed: nat -> bool) returns (v: Verdict)
    requires |h| == 28 && |payload| >= MAX_LENGTH
    ensures v == Validate(h, payload, failed)
  {
    hide Read32, CrcValue, Unread;
    if failed(0) {
      return BadHeaderRead;
    }
    if Read32(h, 0) != MAGIC {
      return BadMagic;
    }
    var hdrCrc := HeaderCrc(h);
    if hdrCrc != Read32(h, 24) {
      return BadHeaderCrc;
    }
    if Read32(h, 4) != VERSION {
      return BadVersion;
    }
    if Read32(h, 8) != 0 {
      return BadBase;
    }
    var length := Read32(h, 12);
    if length == 0 || length > MAX_LENGTH {
      return BadLength;
    }
    if Read32(h, 16) != SectorsFor(length) {
      return BadSectors;
    }
    var ok, crc := StreamPayload(payload, length, failed);
    if !ok {
      return BadPayloadRead;
    }
    v := if crc != Read32(h, 20) then BadPayload else Accepted(Read32(h, 16));
  }

  // ---- the packer -------------------------------------------------------------------------

  function SectorUp(n: nat): nat {
    (n + 4095) / 4096 * 4096
  }

  /** A file placed at an offset of the image. */
  datatype Part = Part(off: nat, data: seq<bv8>)

  function EndOf(parts: seq<Part>): (e: nat)
    ensures forall k :: 0 <= k < |parts| ==> parts[k].off + |parts[k].data| <= e
    ensures e == 0 || exists k :: 0 <= k < |parts| && e == parts[k].off + |parts[k].data|
  {
    if |parts| == 0 then 0 else
      var e, p := EndOf(parts[..|parts| - 1]), parts[|parts| - 1];
      assert forall k :: 0 <= k < |parts| - 1 ==> parts[..|parts| - 1][k] == parts[k];
      if p.off + |p.data| > e then p.off + |p.data| else e
  }

  predicate Covers(p: Part, i: nat) {
    p.off <= i < p.off + |p.data|
  }

  /** Byte i of the image: from the last part that covers it, else erased flash. */
  function ImageByte(parts: seq<Part>, i: nat): bv8
    decreases |parts|
  {
    if |parts| == 0 then 0xFF else
      var p := parts[|parts| - 1];
      if Covers(p, i) then p.data[i - p.off] else ImageByte(parts[..|parts| - 1], i)
  }

  /** One file copied over what is there. */
  method Place(img: array<bv8>, p: Part)
    requires p.off + |p.data| <= img.Length
    modifies img
    ensures forall i :: 0 <= i < img.Length ==> img[i] == if Covers(p, i) then p.data[i - p.off] else old(img[i])
  {
    for j := 0 to |p.data|
      invariant forall i :: 0 <= i < img.Length ==>
        img[i] == if p.off <= i < p.off + j then p.data[i - p.off] else old(img[i])
    {
      img[p.off + j] := p.data[j];
    }
  }

  /** assemble_rtos_image */
  method Assemble(parts: seq<Part>) returns (img: array<bv8>)
    ensures fresh(img) && img.Length == SectorUp(EndOf(parts)) && img.Length % 4096 == 0
    ensures forall i :: 0 <= i < img.Length ==> img[i] == ImageByte(parts, i)
  {
    img := new bv8[SectorUp(EndOf(parts))](_ => 0xFF);
    for k := 0 to |parts|
      invariant forall i :: 0 <= i < img.Length ==> img[i] == ImageByte(parts[..k], i)
    {
      assert parts[..k + 1][..k] == parts[..k] && parts[..k + 1][k] == parts[k];
      Place(img, parts[k]);
    }
    assert parts[..|parts|] == parts;
  }

  /** Files that do not overlap are all in the image, whole, in whatever order they were placed. */
  lemma {:induction false} PartsSurvive(parts: seq<Part>, k: nat, i: nat)
    requires k < |parts| && Covers(parts[k], i)
    requires forall m :: 0 <= m < |parts| && m != k ==> !Covers(parts[m], i)
    ensures ImageByte(parts, i) == parts[k].data[i - parts[k].off]
    decreases |parts|
  {
    if k < |parts| - 1 {
      PartsSurvive(parts[..|parts| - 1], k, i);
    }
  }

  /** The packer's guard against eboot overwriting what it still has to copy. */
  predicate NoSelfClobber(length: nat) {
    FS_START as int - SectorUp(PAYLOAD_ADDR + length) > PAYLOAD_ADDR + length
  }

  /**
   That guard alone gives the device everything it relies on: its length bound, a payload below the
   staging cap, and low flash that ends before header and payload begin.
  */
  lemma GuardSuffices(length: nat)
    requires length % 4096 == 0 && NoSelfClobber(length)
    ensures length < MAX_LENGTH
    ensures PAYLOAD_ADDR + length < FREE_SKETCH_SPACE
    ensures SectorsFor(length) == length / 4096
    ensures SectorsFor(length) * 4096 <= HDR_ADDR
  {
  }

  // ---- both ends together -----------------------------------------------------------------

  /** What the packer puts into the header for an image. */
  function HeaderFor(img: seq<bv8>): (h: seq<bv8>)
    requires |img| < WORD
  {
    BuildHeader(|img|, |img| / 4096, CrcValue(img))
  }

  predicate Packable(img: seq<bv8>)
    ensures Packable(img) ==> |img| < MAX_LENGTH
  {
    0 < |img| && |img| % 4096 == 0 && NoSelfClobber(|img|)
  }

  /** What the device makes of a good header. */
  function Decided(read: bool, unread: bool, same: bool, sectors: nat): Verdict {
    if !read then BadHeaderRead else if unread then BadPayloadRead else if same then Accepted(sectors) else BadPayload
  }

  lemma FieldsDecide(h: seq<bv8>, payload: seq<bv8>, failed: nat -> bool, length: nat, sectors: nat, crc: nat)
    requires |h| == 28 && |payload| >= MAX_LENGTH
    requires Read32(h, 0) == MAGIC && Read32(h, 4) == VERSION && Read32(h, 8) == 0
    requires Read32(h, 12) == length && Read32(h, 16) == sectors && Read32(h, 20) == crc
    requires Read32(h, 24) == CrcValue(h[..HDR_CRC_LEN])
    requires 0 < length <= MAX_LENGTH && sectors == SectorsFor(length)
    ensures Validate(h, payload, failed)
         == Decided(!failed(0), Unread(failed, sectors), CrcValue(payload[..length]) == crc, sectors)
  {
    hide Read32, CrcValue, SectorsFor, Unread;
  }

  /** For a packable image only the reads and the payload's CRC are left to decide. */
  lemma OnlyCrcDecides(img: seq<bv8>, payload: seq<bv8>, failed: nat -> bool)
    requires Packable(img) && |payload| >= MAX_LENGTH
    ensures |img| <= |payload|
    ensures Validate(HeaderFor(img), payload, failed)
         == Decided(!failed(0), Unread(failed, |img| / 4096), CrcValue(payload[..|img|]) == CrcValue(img), |img| / 4096)
  {
    GuardSuffices(|img|);
    var n, s, crc := |img|, |img| / 4096, CrcValue(img);
    assert HeaderFor(img) == BuildHeader(n, s, crc);
    hide *;
    HeaderRoundTrip(n, s, crc);
    FieldsDecide(BuildHeader(n, s, crc), payload, failed, n, s, crc);
  }

  /** An image the packer lets through is accepted when it arrives whole, if and only if it can be read. */
  lemma PackedIsAccepted(img: seq<bv8>, payload: seq<bv8>, failed: nat -> bool)
    requires Packable(img) && |payload| >= MAX_LENGTH && img <= payload
    ensures Validate(HeaderFor(img), payload, failed).Accepted? <==> !failed(0) && !Unread(failed, |img| / 4096)
    ensures Validate(HeaderFor(img), payload, failed).Accepted? ==>
              Validate(HeaderFor(img), payload, failed) == Accepted(|img| / 4096)
  {
    OnlyCrcDecides(img, payload, failed);
    assert payload[..|img|] == img;
    hide Validate, Packable, HeaderFor, CrcValue, Unread;
  }

  /** An image hit by one burst of up to 32 bits anywhere is refused. */
  lemma BurstIsRefused(img: seq<bv8>, payload: seq<bv8>, failed: nat -> bool, p: nat)
    requires Packable(img) && |payload| >= MAX_LENGTH && payload[..|img|] != img
    requires C.BurstAt(C.MessageBits(img), C.MessageBits(payload[..|img|]), p)
    ensures !Validate(HeaderFor(img), payload, failed).Accepted?
    ensures !failed(0) && !Unread(failed, |img| / 4096) ==> Validate(HeaderFor(img), payload, failed) == BadPayload
  {
    OnlyCrcDecides(img, payload, failed);
    hide Validate, Packable, HeaderFor, CrcValue, Unread, C.BurstAt, C.MessageBits, C.Crc;
    var got := payload[..|img|];
    C.BurstChangesCrc(img, got, p);
    if CrcValue(img) == CrcValue(got) {
      CrcValueInjective(img, got);
    }
  }

  /** Bytes of a run of sectors. */
  function Flattened(s: seq<F.Sector>): (b: seq<bv8>)
    ensures |b| == 4096 * |s|
    decreases |s|
  {
    if |s| == 0 then [] else Flattened(s[..|s| - 1]) + s[|s| - 1]
  }

  const PAYLOAD_SECTOR: nat := PAYLOAD_ADDR / 4096
  const HDR_SECTOR: nat := HDR_ADDR / 4096
  const MAX_SECTORS: nat := MAX_LENGTH / 4096

  datatype Result = Refused(why: Verdict) | Halted | Migrated(sectors: nat)

  /** The header and the payload area of a flash. */
  function HeaderAt(flash: seq<F.Sector>): (h: seq<bv8>)
    requires |flash| >= PAYLOAD_SECTOR + MAX_SECTORS
    ensures |h| == 28
  {
    flash[HDR_SECTOR][..28]
  }

  function PayloadAt(flash: seq<F.Sector>): (p: seq<bv8>)
    requires |flash| >= PAYLOAD_SECTOR + MAX_SECTORS
    ensures |p| == MAX_LENGTH
  {
    Flattened(flash[PAYLOAD_SECTOR..PAYLOAD_SECTOR + MAX_SECTORS])
  }

  /**
   What a run may turn flash `was` into: refused and untouched, or rewritten below the header; halted
   on the way only if there was a fault, an erase, read or write that failed or went wrong.
  */
  predicate Outcome(was: seq<F.Sector>, now: seq<F.Sector>, failed: nat -> bool, fault: bool, r: Result) {
    && |now| == |was| >= PAYLOAD_SECTOR + MAX_SECTORS && now[HDR_SECTOR..] == was[HDR_SECTOR..]
    && var v := Validate(HeaderAt(was), PayloadAt(was), failed);
    && (!v.Accepted? ==> r == Refused(v) && now == was)
    && (v.Accepted? ==> (r == Halted && fault) || r == Migrated(v.sectors))
    && (r.Migrated? ==> r.sectors <= MAX_SECTORS && forall k :: 0 <= k < r.sectors ==> now[k] == was[PAYLOAD_SECTOR + k])
  }

  /** The device from reset to its last act: validate, then rewrite. */
  method Run(flash: F.Flash, failed: nat -> bool) returns (r: Result)
    requires |flash.sectors| >= PAYLOAD_SECTOR + MAX_SECTORS
    modifies flash
    ensures Outcome(old(flash.sectors), flash.sectors, failed, flash.fault, r)
    ensures old(flash.fault) ==> flash.fault
  {
    hide Validate, HeaderAt, PayloadAt;
    ghost var was := flash.sectors;
    var h, payload := HeaderAt(flash.sectors), PayloadAt(flash.sectors);
    var v := Check(h, payload, failed);
    if !v.Accepted? {
      return Refused(v);
    }
    AcceptedFits(h, payload, failed);
    var outcome := flash.Migrate(PAYLOAD_SECTOR, v.sectors);
    r := if outcome == F.Green then Migrated(v.sectors) else Halted;
    MigratedOutcome(was, flash.sectors, v.sectors, outcome);
  }

  /** What the three passes promise, read for this flash. */
  lemma MigratedOutcome(was: seq<F.Sector>, now: seq<F.Sector>, count: nat, outcome: F.Outcome)
    requires |now| == |was| >= PAYLOAD_SECTOR + MAX_SECTORS && 1 <= count <= MAX_SECTORS
    requires forall k :: F.Touched(count) <= k < |was| ==> now[k] == was[k]
    requires outcome == F.Green ==> F.Holds(now, was, PAYLOAD_SECTOR, 0, F.Touched(count))
    ensures now[HDR_SECTOR..] == was[HDR_SECTOR..]
    ensures outcome == F.Green ==> forall k :: 0 <= k < count ==> now[k] == was[PAYLOAD_SECTOR + k]
  {
  }

  lemma {:induction false} FlattenedPrefix(s: seq<F.Sector>, k: nat)
    requires k <= |s|
    ensures Flattened(s)[..4096 * k] == Flattened(s[..k])
    decreases |s|
  {
    if k < |s| {
      FlattenedPrefix(s[..|s| - 1], k);
      assert s[..|s| - 1][..k] == s[..k];
    } else {
      assert s[..k] == s;
    }
  }

  /** What the packer wrote for an image is in the flash: its header, and the image behind it. */
  predicate Uploaded(img: seq<bv8>, flash: seq<F.Sector>) {
    && |flash| >= PAYLOAD_SECTOR + MAX_SECTORS && |img| < WORD
    && HeaderAt(flash) == HeaderFor(img) && img <= PayloadAt(flash)
  }

  lemma SameSectors(was: seq<F.Sector>, now: seq<F.Sector>, n: nat)
    requires |now| == |was| >= PAYLOAD_SECTOR + MAX_SECTORS && n <= MAX_SECTORS
    requires forall k :: 0 <= k < n ==> now[k] == was[PAYLOAD_SECTOR + k]
    ensures Flattened(now[..n]) == PayloadAt(was)[..4096 * n]
  {
    var area := was[PAYLOAD_SECTOR..PAYLOAD_SECTOR + MAX_SECTORS];
    assert forall k :: 0 <= k < n ==> area[k] == was[PAYLOAD_SECTOR + k];
    assert now[..n] == area[..n];
    hide Flattened;
    FlattenedPrefix(area, n);
  }

  lemma LowFlashIsImage(img: seq<bv8>, was: seq<F.Sector>, now: seq<F.Sector>, n: nat)
    requires |now| == |was| >= PAYLOAD_SECTOR + MAX_SECTORS && |img| == 4096 * n && n <= MAX_SECTORS
    requires forall k :: 0 <= k < n ==> now[k] == was[PAYLOAD_SECTOR + k]
    ensures Uploaded(img, was) ==> Flattened(now[..n]) == img
  {
    hide Flattened, HeaderAt, HeaderFor, PayloadAt;
    SameSectors(was, now, n);
    if Uploaded(img, was) {
      assert PayloadAt(was)[..|img|] == img;
    }
  }

  /**
   From packer to flash: an image the packer lets through, uploaded with its header, is refused only
   if a read fails, and then the flash is untouched. Otherwise, unless a driver call failed or garbled a
   sector, the device reports success; and if it reports success, low flash is the image.
  */
  lemma UploadMigrates(img: seq<bv8>, was: seq<F.Sector>, now: seq<F.Sector>, failed: nat -> bool,
                       fault: bool, r: Result)
    requires Packable(img) && |now| == |was| >= PAYLOAD_SECTOR + MAX_SECTORS
    ensures Uploaded(img, was) && Outcome(was, now, failed, fault, r) ==>
              && (r.Refused? <==> failed(0) || Unread(failed, |img| / 4096))
              && (r.Refused? ==> now == was)
              && (r.Migrated? ==> r.sectors == |img| / 4096 && Flattened(now[..|img| / 4096]) == img)
              && (!r.Refused? && !fault ==> r.Migrated?)
              && now[HDR_SECTOR..] == was[HDR_SECTOR..]
  {
    hide Validate, PayloadAt, HeaderAt, HeaderFor, Unread, Flattened;
    if Uploaded(img, was) && Outcome(was, now, failed, fault, r) {
      PackedIsAccepted(img, PayloadAt(was), failed);
      if r.Migrated? {
        LowFlashIsImage(img, was, now, |img| / 4096);
      }
    }
  }

  lemma AcceptedFits(h: seq<bv8>, payload: seq<bv8>, failed: nat -> bool)
    requires |h| == 28 && |payload| >= MAX_LENGTH && Validate(h, payload, failed).Accepted?
    ensures 1 <= Validate(h, payload, failed).sectors <= MAX_SECTORS < HDR_SECTOR < PAYLOAD_SECTOR
    ensures Read32(h, 12) <= 4096 * Validate(h, payload, failed).sectors
    ensures CrcValue(payload[..Read32(h, 12)]) == Read32(h, 20)
  {
    hide Read32, CrcValue;
  }
}
