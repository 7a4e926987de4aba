/**
 * The virtio block device configuration space: the packed `Config` record
 * with its nested `Geometry` and `ZoneCharacteristic` records, and their
 * byte views (the guest sees each record as raw little-endian memory).
 * Field order and widths follow the declarations in src/config.rs.
 */
module BlkConfig {
  import opened Bytes
  import opened Layout
  import opened Wrappers

  /** A `[u8; 3]` padding array. */
  type Pad3 = s: seq<u8> | |s| == 3 witness [0, 0, 0]

  /** Legacy cylinder/head/sector geometry of the device. */
  datatype Geometry = Geometry(cylinders: u16, heads: u8, sectors: u8)

  /** Characteristics of a zoned block device. */
  datatype ZoneCharacteristic = ZoneCharacteristic(
    zoneSectors: u32,
    maxOpenZones: u32,
    maxActiveZones: u32,
    maxAppendSectors: u32,
    writeGranularity: u32,
    model: u8,
    unused2: Pad3)

  /**
   * The device configuration record. `capacity` counts 512-byte sectors.
   * `maxDiscardSectors` and `maxDiscardSeg` are declared in the source as
   * `max_discared_sectors` and `max_discard_seq`.
   */
  datatype Config = Config(
    capacity: u64,
    sizeMax: u32,
    segMax: u32,
    geometry: Geometry,
    blkSize: u32,
    physicalBlockExp: u8,
    alignmentOffset: u8,
    minIoSize: u16,
    optIoSize: u16,
    wce: u8,
    unused: u8,
    numQueues: u16,
    maxDiscardSectors: u32,
    maxDiscardSeg: u32,
    discardSectorAlignment: u32,
    maxWriteZeroesSectors: u32,
    maxWriteZeroesSeg: u32,
    writeZeroesMayUnmap: u8,
    unused1: Pad3,
    maxSecureEraseSectors: u32,
    maxSecureEraseSeg: u32,
    secureEraseSectorAlignment: u32,
    zoned: ZoneCharacteristic)

  const GeometrySize := 4
  const ZoneSize := 24
  const ConfigSize := 94

  /** The derived `Default`: every field, nested ones included, is zero. */
  function DefaultGeometry(): Geometry
  {
    Geometry(0, 0, 0)
  }

  function DefaultZone(): ZoneCharacteristic
  {
    ZoneCharacteristic(0, 0, 0, 0, 0, 0, [0, 0, 0])
  }

  function DefaultConfig(): Config
  {
    Config(0, 0, 0, DefaultGeometry(), 0, 0, 0, 0, 0, 0, 0, 0, 0, 0, 0, 0, 0, 0, [0, 0, 0], 0, 0, 0,
           DefaultZone())
  }

  // ---------------------------------------------------------------------
  // Geometry: cylinders (2 bytes), heads (1), sectors (1)
  // ---------------------------------------------------------------------

  const GeometryWidths: seq<nat> := [2, 1, 1]

  lemma GeometryWidthsSize()
    ensures Size(GeometryWidths) == GeometrySize
  {
  }

  function GeometryFields(g: Geometry): seq<nat>
  {
    [g.cylinders, g.heads, g.sectors]
  }

  function GeometryOf(v: seq<nat>): Geometry
    requires Fits(v, GeometryWidths)
  {
    Pow256Widths();
    Geometry(v[0], v[1], v[2])
  }

  /** The byte view of a `Geometry`. */
  function EncodeGeometry(g: Geometry): (b: seq<u8>)
    ensures |b| == GeometrySize
  {
    SerializeLength(GeometryFields(g), GeometryWidths);
    Serialize(GeometryFields(g), GeometryWidths)
  }

  /** The `Geometry` whose byte view is `b`. */
  function GeometryFromBytes(b: seq<u8>): Geometry
    requires |b| == GeometrySize
  {
    GeometryOf(Parse(b, GeometryWidths))
  }

  /** Reads a `Geometry` from exactly 4 bytes; any other length has no view. */
  function DecodeGeometry(b: seq<u8>): (r: Option<Geometry>)
    ensures r.Some? <==> |b| == GeometrySize
  {
    if |b| != GeometrySize then None else Some(GeometryFromBytes(b))
  }

  /** Cylinders as two little-endian bytes, then heads, then sectors. */
  lemma GeometryBytes(g: Geometry)
    ensures EncodeGeometry(g) == LeBytes(g.cylinders, 2) + [g.heads, g.sectors]
  {
    LeBytesOne(g.heads);
    LeBytesOne(g.sectors);
    SerializeCons(g.sectors, [], 1, []);
    SerializeCons(g.heads, [g.sectors], 1, [1]);
    SerializeCons(g.cylinders, [g.heads, g.sectors], 2, [1, 1]);
  }

  lemma GeometryRoundTrip(g: Geometry)
    ensures DecodeGeometry(EncodeGeometry(g)) == Some(g)
  {
    Pow256Widths();
    ParseSerialize(GeometryFields(g), GeometryWidths);
  }

  lemma GeometryBytesRoundTrip(b: seq<u8>)
    requires |b| == GeometrySize
    ensures DecodeGeometry(b) == Some(GeometryFromBytes(b))
    ensures EncodeGeometry(GeometryFromBytes(b)) == b
  {
    GeometryWidthsSize();
    var v := Parse(b, GeometryWidths);
    assert GeometryFields(GeometryOf(v)) == v;
    SerializeParse(b, GeometryWidths);
  }

  // ---------------------------------------------------------------------
  // ZoneCharacteristic: five u32s, model (1 byte), three unused bytes
  // ---------------------------------------------------------------------

  const ZoneWidths: seq<nat> := [4, 4, 4, 4, 4, 1, 1, 1, 1]

  lemma ZoneWidthsSize()
    ensures Size(ZoneWidths) == ZoneSize
  {
  }

  function ZoneFields(z: ZoneCharacteristic): seq<nat>
  {
    [z.zoneSectors, z.maxOpenZones, z.maxActiveZones, z.maxAppendSectors,
     z.writeGranularity, z.model, z.unused2[0], z.unused2[1], z.unused2[2]]
  }

  function ZoneOf(v: seq<nat>): ZoneCharacteristic
    requires Fits(v, ZoneWidths)
  {
    Pow256Widths();
    ZoneCharacteristic(v[0], v[1], v[2], v[3], v[4], v[5], [v[6], v[7], v[8]])
  }

  /** The byte view of a `ZoneCharacteristic`. */
  function EncodeZone(z: ZoneCharacteristic): (b: seq<u8>)
    ensures |b| == ZoneSize
  {
    SerializeLength(ZoneFields(z), ZoneWidths);
    Serialize(ZoneFields(z), ZoneWidths)
  }

  /** The `ZoneCharacteristic` whose byte view is `b`. */
  function ZoneFromBytes(b: seq<u8>): ZoneCharacteristic
    requires |b| == ZoneSize
  {
    ZoneOf(Parse(b, ZoneWidths))
  }

  /** Reads a `ZoneCharacteristic` from exactly 24 bytes; any other length has no view. */
  function DecodeZone(b: seq<u8>): (r: Option<ZoneCharacteristic>)
    ensures r.Some? <==> |b| == ZoneSize
  {
    if |b| != ZoneSize then None else Some(ZoneFromBytes(b))
  }

  /** The five u32 fields of a zone record, as bytes 0 to 19 of its view. */
  lemma ZoneWords(z: ZoneCharacteristic)
    ensures Serialize(ZoneFields(z)[..5], ZoneWidths[..5])
         == LeBytes(z.zoneSectors, 4) + LeBytes(z.maxOpenZones, 4) + LeBytes(z.maxActiveZones, 4)
          + LeBytes(z.maxAppendSectors, 4) + LeBytes(z.writeGranularity, 4)
  {
    assert ZoneFields(z)[..5] == [z.zoneSectors, z.maxOpenZones, z.maxActiveZones, z.maxAppendSectors, z.writeGranularity];
    assert ZoneWidths[..5] == [4, 4, 4, 4, 4];
    SerializeCons(z.writeGranularity, [], 4, []);
    SerializeCons(z.maxAppendSectors, [z.writeGranularity], 4, [4]);
    SerializeCons(z.maxActiveZones, [z.maxAppendSectors, z.writeGranularity], 4, [4, 4]);
    SerializeCons(z.maxOpenZones, [z.maxActiveZones, z.maxAppendSectors, z.writeGranularity], 4, [4, 4, 4]);
    SerializeCons(z.zoneSectors, [z.maxOpenZones, z.maxActiveZones, z.maxAppendSectors, z.writeGranularity], 4, [4, 4, 4, 4]);
  }

  /** The model byte and the three unused bytes, as bytes 20 to 23 of the view. */
  lemma ZoneTrailer(z: ZoneCharacteristic)
    ensures Serialize(ZoneFields(z)[5..], ZoneWidths[5..]) == [z.model] + z.unused2
  {
    assert ZoneFields(z)[5..] == [z.model, z.unused2[0], z.unused2[1], z.unused2[2]];
    assert ZoneWidths[5..] == [1, 1, 1, 1];
    assert z.unused2 == [z.unused2[0], z.unused2[1], z.unused2[2]];
    LeBytesOne(z.model);
    LeBytesOne(z.unused2[0]);
    LeBytesOne(z.unused2[1]);
    LeBytesOne(z.unused2[2]);
    SerializeCons(z.unused2[2], [], 1, []);
    SerializeCons(z.unused2[1], [z.unused2[2]], 1, [1]);
    SerializeCons(z.unused2[0], [z.unused2[1], z.unused2[2]], 1, [1, 1]);
    SerializeCons(z.model, [z.unused2[0], z.unused2[1], z.unused2[2]], 1, [1, 1, 1]);
  }

  /** Five little-endian u32s, then the model byte, then the three unused bytes. */
  lemma ZoneBytes(z: ZoneCharacteristic)
    ensures EncodeZone(z)
         == LeBytes(z.zoneSectors, 4) + LeBytes(z.maxOpenZones, 4) + LeBytes(z.maxActiveZones, 4)
          + LeBytes(z.maxAppendSectors, 4) + LeBytes(z.writeGranularity, 4) + [z.model] + z.unused2
  {
    var v := ZoneFields(z);
    var w := ZoneWidths;
    ZoneWords(z);
    ZoneTrailer(z);
    SerializeAppend(v[..5], w[..5], v[5..], w[5..]);
    assert v[..5] + v[5..] == v && w[..5] + w[5..] == w;
  }

  lemma ZoneOfFields(z: ZoneCharacteristic)
    ensures Fits(ZoneFields(z), ZoneWidths) && ZoneOf(ZoneFields(z)) == z
  {
    Pow256Widths();
    assert z.unused2 == [z.unused2[0], z.unused2[1], z.unused2[2]];
  }

  lemma ZoneRoundTrip(z: ZoneCharacteristic)
    ensures DecodeZone(EncodeZone(z)) == Some(z)
  {
    ZoneOfFields(z);
    ParseSerialize(ZoneFields(z), ZoneWidths);
  }

  lemma ZoneBytesRoundTrip(b: seq<u8>)
    requires |b| == ZoneSize
    ensures DecodeZone(b) == Some(ZoneFromBytes(b))
    ensures EncodeZone(ZoneFromBytes(b)) == b
  {
    ZoneWidthsSize();
    var v := Parse(b, ZoneWidths);
    assert ZoneFields(ZoneOf(v)) == v;
    SerializeParse(b, ZoneWidths);
  }

  // ---------------------------------------------------------------------
  // Config: head (bytes 0-15), geometry (16-19), mid (20-41),
  // tail (42-69), zoned (70-93)
  // ---------------------------------------------------------------------

  /** capacity, size_max, seg_max. */
  const HeadWidths: seq<nat> := [8, 4, 4]

  /** blk_size through max_discard_seg. */
  const MidWidths: seq<nat> := [4, 1, 1, 2, 2, 1, 1, 2, 4, 4]

  /** discard_sector_alignment through secure_erase_sector_alignment. */
  const TailWidths: seq<nat> := [4, 4, 4, 1, 1, 1, 1, 4, 4, 4]

  /** The three segments are 16, 22 and 28 bytes long: no padding anywhere. */
  lemma HeadSize()
    ensures Size(HeadWidths) == 16
  {
  }

  lemma MidSize()
    ensures Size(MidWidths) == 22
  {
  }

  lemma TailSize()
    ensures Size(TailWidths) == 28
  {
  }

  function HeadFields(c: Config): seq<nat>
  {
    [c.capacity, c.sizeMax, c.segMax]
  }

  function MidFields(c: Config): seq<nat>
  {
    [c.blkSize, c.physicalBlockExp, c.alignmentOffset, c.minIoSize, c.optIoSize,
     c.wce, c.unused, c.numQueues, c.maxDiscardSectors, c.maxDiscardSeg]
  }

  function TailFields(c: Config): seq<nat>
  {
    [c.discardSectorAlignment, c.maxWriteZeroesSectors, c.maxWriteZeroesSeg,
     c.writeZeroesMayUnmap, c.unused1[0], c.unused1[1], c.unused1[2],
     c.maxSecureEraseSectors, c.maxSecureEraseSeg, c.secureEraseSectorAlignment]
  }

  function ConfigOf(h: seq<nat>, g: Geometry, m: seq<nat>, t: seq<nat>, z: ZoneCharacteristic): Config
    requires Fits(h, HeadWidths) && Fits(m, MidWidths) && Fits(t, TailWidths)
  {
    Pow256Widths();
    Config(h[0], h[1], h[2], g, m[0], m[1], m[2], m[3], m[4], m[5], m[6], m[7], m[8], m[9],
           t[0], t[1], t[2], t[3], [t[4], t[5], t[6]], t[7], t[8], t[9], z)
  }

  function HeadBytes(c: Config): (b: seq<u8>)
    ensures |b| == 16
  {
    SerializeLength(HeadFields(c), HeadWidths);
    Serialize(HeadFields(c), HeadWidths)
  }

  function MidBytes(c: Config): (b: seq<u8>)
    ensures |b| == 22
  {
    SerializeLength(MidFields(c), MidWidths);
    Serialize(MidFields(c), MidWidths)
  }

  function TailBytes(c: Config): (b: seq<u8>)
    ensures |b| == 28
  {
    SerializeLength(TailFields(c), TailWidths);
    Serialize(TailFields(c), TailWidths)
  }

  function HeadOf(b: seq<u8>): (h: seq<nat>)
    requires |b| == 16
    ensures Fits(h, HeadWidths)
  {
    Parse(b, HeadWidths)
  }

  function MidOf(b: seq<u8>): (m: seq<nat>)
    requires |b| == 22
    ensures Fits(m, MidWidths)
  {
    Parse(b, MidWidths)
  }

  function TailOf(b: seq<u8>): (t: seq<nat>)
    requires |b| == 28
    ensures Fits(t, TailWidths)
  {
    Parse(b, TailWidths)
  }

  lemma HeadRoundTrip(s: seq<u8>)
    requires |s| == 16
    ensures Serialize(HeadOf(s), HeadWidths) == s
  {
    HeadSize();
    SerializeParse(s, HeadWidths);
  }

  lemma MidRoundTrip(s: seq<u8>)
    requires |s| == 22
    ensures Serialize(MidOf(s), MidWidths) == s
  {
    MidSize();
    SerializeParse(s, MidWidths);
  }

  lemma TailRoundTrip(s: seq<u8>)
    requires |s| == 28
    ensures Serialize(TailOf(s), TailWidths) == s
  {
    TailSize();
    SerializeParse(s, TailWidths);
  }

  /** The byte view of a `Config`: the packed fields in declaration order, nested records inline. */
  function Encode(c: Config): (b: seq<u8>)
    ensures |b| == ConfigSize
  {
    HeadBytes(c) + EncodeGeometry(c.geometry) + MidBytes(c) + TailBytes(c) + EncodeZone(c.zoned)
  }

  /** The `Config` whose byte view is `b`, read field by field at the fixed offsets. */
  function ConfigFromBytes(b: seq<u8>): Config
    requires |b| == ConfigSize
  {
    ConfigOf(HeadOf(b[..16]), GeometryFromBytes(b[16..20]), MidOf(b[20..42]), TailOf(b[42..70]),
             ZoneFromBytes(b[70..94]))
  }

  /** Reads a `Config` from exactly 94 bytes; any other length has no view. */
  function Decode(b: seq<u8>): (r: Option<Config>)
    ensures r.Some? <==> |b| == ConfigSize
  {
    if |b| != ConfigSize then None else Some(ConfigFromBytes(b))
  }

  lemma ConfigOfFields(c: Config)
    ensures Fits(HeadFields(c), HeadWidths) && Fits(MidFields(c), MidWidths) && Fits(TailFields(c), TailWidths)
    ensures ConfigOf(HeadFields(c), c.geometry, MidFields(c), TailFields(c), c.zoned) == c
  {
    Pow256Widths();
    assert c.unused1 == [c.unused1[0], c.unused1[1], c.unused1[2]];
  }

  lemma FieldsOfConfigOf(h: seq<nat>, g: Geometry, m: seq<nat>, t: seq<nat>, z: ZoneCharacteristic)
    requires Fits(h, HeadWidths) && Fits(m, MidWidths) && Fits(t, TailWidths)
    ensures HeadFields(ConfigOf(h, g, m, t, z)) == h
    ensures MidFields(ConfigOf(h, g, m, t, z)) == m
    ensures TailFields(ConfigOf(h, g, m, t, z)) == t
    ensures ConfigOf(h, g, m, t, z).geometry == g && ConfigOf(h, g, m, t, z).zoned == z
  {
  }

  /** The nested records sit inline: geometry at bytes 16 to 19, zoned at 70 to 93. */
  lemma EncodeParts(c: Config)
    ensures Encode(c)[..16] == HeadBytes(c)
    ensures Encode(c)[16..20] == EncodeGeometry(c.geometry)
    ensures Encode(c)[20..42] == MidBytes(c)
    ensures Encode(c)[42..70] == TailBytes(c)
    ensures Encode(c)[70..94] == EncodeZone(c.zoned)
  {
  }

  /** Decoding the encoding of any record gives the record back. */
  lemma DecodeEncode(c: Config)
    ensures Decode(Encode(c)) == Some(c)
  {
    EncodeParts(c);
    ConfigOfFields(c);
    ParseSerialize(HeadFields(c), HeadWidths);
    ParseSerialize(MidFields(c), MidWidths);
    ParseSerialize(TailFields(c), TailWidths);
    GeometryRoundTrip(c.geometry);
    ZoneRoundTrip(c.zoned);
  }

  /** Every 94-byte string is the view of exactly the record it decodes to. */
  lemma EncodeDecode(b: seq<u8>)
    requires |b| == ConfigSize
    ensures Decode(b) == Some(ConfigFromBytes(b))
    ensures Encode(ConfigFromBytes(b)) == b
  {
    var h, m, t := HeadOf(b[..16]), MidOf(b[20..42]), TailOf(b[42..70]);
    var c := ConfigFromBytes(b);
    FieldsOfConfigOf(h, GeometryFromBytes(b[16..20]), m, t, ZoneFromBytes(b[70..94]));
    HeadRoundTrip(b[..16]);
    MidRoundTrip(b[20..42]);
    TailRoundTrip(b[42..70]);
    GeometryBytesRoundTrip(b[16..20]);
    ZoneBytesRoundTrip(b[70..94]);
    var b20, b42, b70 := b[..20], b[..42], b[..70];
    assert b20 == b[..16] + b[16..20];
    assert b42 == b20 + b[20..42];
    assert b70 == b42 + b[42..70];
    assert b == b70 + b[70..94];
  }

  /** The byte view determines the record: distinct records have distinct views. */
  lemma EncodeInjective(c1: Config, c2: Config)
    requires Encode(c1) == Encode(c2)
    ensures c1 == c2
  {
    DecodeEncode(c1);
    DecodeEncode(c2);
  }

  // ---------------------------------------------------------------------
  // Field layout of the whole record
  // ---------------------------------------------------------------------

  /** capacity (8 bytes), size_max (4), seg_max (4). */
  lemma HeadLayout(c: Config)
    ensures HeadBytes(c) == LeBytes(c.capacity, 8) + LeBytes(c.sizeMax, 4) + LeBytes(c.segMax, 4)
  {
    SerializeCons(c.segMax, [], 4, []);
    SerializeCons(c.sizeMax, [c.segMax], 4, [4]);
    SerializeCons(c.capacity, [c.sizeMax, c.segMax], 8, [4, 4]);
  }

  /** blk_size (4), physical_block_exp (1), alignment_offset (1), min_io_size (2), opt_io_size (2). */
  lemma MidLayoutFront(c: Config)
    ensures Serialize(MidFields(c)[..5], MidWidths[..5])
         == LeBytes(c.blkSize, 4) + [c.physicalBlockExp, c.alignmentOffset]
          + LeBytes(c.minIoSize, 2) + LeBytes(c.optIoSize, 2)
  {
    assert MidFields(c)[..5] == [c.blkSize, c.physicalBlockExp, c.alignmentOffset, c.minIoSize, c.optIoSize];
    assert MidWidths[..5] == [4, 1, 1, 2, 2];
    LeBytesOne(c.physicalBlockExp);
    LeBytesOne(c.alignmentOffset);
    SerializeCons(c.optIoSize, [], 2, []);
    SerializeCons(c.minIoSize, [c.optIoSize], 2, [2]);
    SerializeCons(c.alignmentOffset, [c.minIoSize, c.optIoSize], 1, [2, 2]);
    SerializeCons(c.physicalBlockExp, [c.alignmentOffset, c.minIoSize, c.optIoSize], 1, [1, 2, 2]);
    SerializeCons(c.blkSize, [c.physicalBlockExp, c.alignmentOffset, c.minIoSize, c.optIoSize], 4, [1, 1, 2, 2]);
  }

  /** wce (1), unused (1), num_queues (2), max_discard_sectors (4), max_discard_seg (4). */
  lemma MidBackDisplay(c: Config)
    ensures MidFields(c)[5..] == [c.wce, c.unused, c.numQueues, c.maxDiscardSectors, c.maxDiscardSeg]
    ensures MidWidths[5..] == [1, 1, 2, 4, 4]
  {
  }

  lemma MidLayoutBack(c: Config)
    ensures Serialize(MidFields(c)[5..], MidWidths[5..])
         == [c.wce, c.unused] + LeBytes(c.numQueues, 2)
          + LeBytes(c.maxDiscardSectors, 4) + LeBytes(c.maxDiscardSeg, 4)
  {
    MidBackDisplay(c);
    LeBytesOne(c.wce);
    LeBytesOne(c.unused);
    SerializeCons(c.maxDiscardSeg, [], 4, []);
    SerializeCons(c.maxDiscardSectors, [c.maxDiscardSeg], 4, [4]);
    SerializeCons(c.numQueues, [c.maxDiscardSectors, c.maxDiscardSeg], 2, [4, 4]);
    SerializeCons(c.unused, [c.numQueues, c.maxDiscardSectors, c.maxDiscardSeg], 1, [2, 4, 4]);
    SerializeCons(c.wce, [c.unused, c.numQueues, c.maxDiscardSectors, c.maxDiscardSeg], 1, [1, 2, 4, 4]);
  }

  /** The mid segment is its first five fields followed by its last five. */
  lemma MidSplit(c: Config)
    ensures MidBytes(c)
         == Serialize(MidFields(c)[..5], MidWidths[..5]) + Serialize(MidFields(c)[5..], MidWidths[5..])
  {
    var v, w := MidFields(c), MidWidths;
    SerializeAppend(v[..5], w[..5], v[5..], w[5..]);
    assert v[..5] + v[5..] == v && w[..5] + w[5..] == w;
  }

  /** discard_sector_alignment, max_write_zeroes_sectors, max_write_zeroes_seg (4 each). */
  lemma TailLayoutFront(c: Config)
    ensures Serialize(TailFields(c)[..3], TailWidths[..3])
         == LeBytes(c.discardSectorAlignment, 4) + LeBytes(c.maxWriteZeroesSectors, 4)
          + LeBytes(c.maxWriteZeroesSeg, 4)
  {
    assert TailFields(c)[..3] == [c.discardSectorAlignment, c.maxWriteZeroesSectors, c.maxWriteZeroesSeg];
    assert TailWidths[..3] == [4, 4, 4];
    SerializeCons(c.maxWriteZeroesSeg, [], 4, []);
    SerializeCons(c.maxWriteZeroesSectors, [c.maxWriteZeroesSeg], 4, [4]);
    SerializeCons(c.discardSectorAlignment, [c.maxWriteZeroesSectors, c.maxWriteZeroesSeg], 4, [4, 4]);
  }

  /** write_zeroes_may_unmap (1), unused1 (3). */
  lemma TailLayoutMiddle(c: Config)
    ensures Serialize(TailFields(c)[3..7], TailWidths[3..7]) == [c.writeZeroesMayUnmap] + c.unused1
  {
    assert TailFields(c)[3..7] == [c.writeZeroesMayUnmap, c.unused1[0], c.unused1[1], c.unused1[2]];
    assert TailWidths[3..7] == [1, 1, 1, 1];
    assert c.unused1 == [c.unused1[0], c.unused1[1], c.unused1[2]];
    LeBytesOne(c.writeZeroesMayUnmap);
    LeBytesOne(c.unused1[0]);
    LeBytesOne(c.unused1[1]);
    LeBytesOne(c.unused1[2]);
    SerializeCons(c.unused1[2], [], 1, []);
    SerializeCons(c.unused1[1], [c.unused1[2]], 1, [1]);
    SerializeCons(c.unused1[0], [c.unused1[1], c.unused1[2]], 1, [1, 1]);
    SerializeCons(c.writeZeroesMayUnmap, [c.unused1[0], c.unused1[1], c.unused1[2]], 1, [1, 1, 1]);
  }

  /** max_secure_erase_sectors, max_secure_erase_seg, secure_erase_sector_alignment (4 each). */
  lemma TailLayoutBack(c: Config)
    ensures Serialize(TailFields(c)[7..], TailWidths[7..])
         == LeBytes(c.maxSecureEraseSectors, 4) + LeBytes(c.maxSecureEraseSeg, 4)
          + LeBytes(c.secureEraseSectorAlignment, 4)
  {
    assert TailFields(c)[7..] == [c.maxSecureEraseSectors, c.maxSecureEraseSeg, c.secureEraseSectorAlignment];
    assert TailWidths[7..] == [4, 4, 4];
    SerializeCons(c.secureEraseSectorAlignment, [], 4, []);
    SerializeCons(c.maxSecureEraseSeg, [c.secureEraseSectorAlignment], 4, [4]);
    SerializeCons(c.maxSecureEraseSectors, [c.maxSecureEraseSeg, c.secureEraseSectorAlignment], 4, [4, 4]);
  }

  /** The tail segment is its first three fields, then four single bytes, then three fields. */
  lemma TailSplit(c: Config)
    ensures TailBytes(c)
         == Serialize(TailFields(c)[..3], TailWidths[..3]) + Serialize(TailFields(c)[3..7], TailWidths[3..7])
          + Serialize(TailFields(c)[7..], TailWidths[7..])
  {
    var v, w := TailFields(c), TailWidths;
    SerializeAppend(v[..3], w[..3], v[3..7], w[3..7]);
    assert v[..3] + v[3..7] == v[..7] && w[..3] + w[3..7] == w[..7];
    SerializeAppend(v[..7], w[..7], v[7..], w[7..]);
    assert v[..7] + v[7..] == v && w[..7] + w[7..] == w;
  }

  /** capacity, size_max, seg_max and geometry sit at bytes 0 to 19. */
  lemma HeadOffsets(c: Config)
    ensures var b := Encode(c);
      && b[0..8] == LeBytes(c.capacity, 8)
      && b[8..12] == LeBytes(c.sizeMax, 4)
      && b[12..16] == LeBytes(c.segMax, 4)
      && b[16..20] == EncodeGeometry(c.geometry)
  {
    var b := Encode(c);
    EncodeParts(c);
    HeadLayout(c);
    SliceOfSlice(b, 0, 16, 0, 8);
    SliceOfSlice(b, 0, 16, 8, 12);
    SliceOfSlice(b, 0, 16, 12, 16);
  }

  /** Offsets inside the mid segment, which starts at byte 20 of the record. */
  lemma MidSegmentOffsets(c: Config)
    ensures var m := MidBytes(c);
      && m[0..4] == LeBytes(c.blkSize, 4)
      && m[4] == c.physicalBlockExp
      && m[5] == c.alignmentOffset
      && m[6..8] == LeBytes(c.minIoSize, 2)
      && m[8..10] == LeBytes(c.optIoSize, 2)
      && m[10] == c.wce
      && m[11] == c.unused
      && m[12..14] == LeBytes(c.numQueues, 2)
      && m[14..18] == LeBytes(c.maxDiscardSectors, 4)
      && m[18..22] == LeBytes(c.maxDiscardSeg, 4)
  {
    var m := MidBytes(c);
    var front := LeBytes(c.blkSize, 4) + [c.physicalBlockExp, c.alignmentOffset]
               + LeBytes(c.minIoSize, 2) + LeBytes(c.optIoSize, 2);
    var back := [c.wce, c.unused] + LeBytes(c.numQueues, 2)
              + LeBytes(c.maxDiscardSectors, 4) + LeBytes(c.maxDiscardSeg, 4);
    assert m == front + back by {
      MidSplit(c);
      MidLayoutFront(c);
      MidLayoutBack(c);
    }
    assert m[0..10] == front && m[10..22] == back;
    assert m[0..4] == front[0..4] && m[6..8] == front[6..8] && m[8..10] == front[8..10];
    assert m[12..14] == back[2..4] && m[14..18] == back[4..8] && m[18..22] == back[8..12];
  }

  /** blk_size through max_discard_seg sit at bytes 20 to 41, little-endian. */
  lemma MidOffsets(c: Config)
    ensures var b := Encode(c);
      && b[20..24] == LeBytes(c.blkSize, 4)
      && b[24] == c.physicalBlockExp
      && b[25] == c.alignmentOffset
      && b[26..28] == LeBytes(c.minIoSize, 2)
      && b[28..30] == LeBytes(c.optIoSize, 2)
      && b[30] == c.wce
      && b[31] == c.unused
      && b[32..34] == LeBytes(c.numQueues, 2)
      && b[34..38] == LeBytes(c.maxDiscardSectors, 4)
      && b[38..42] == LeBytes(c.maxDiscardSeg, 4)
  {
    var b := Encode(c);
    EncodeParts(c);
    MidSegmentOffsets(c);
    SliceOfSlice(b, 20, 42, 0, 4);
    SliceOfSlice(b, 20, 42, 6, 8);
    SliceOfSlice(b, 20, 42, 8, 10);
    SliceOfSlice(b, 20, 42, 12, 14);
    SliceOfSlice(b, 20, 42, 14, 18);
    SliceOfSlice(b, 20, 42, 18, 22);
  }

  /** Offsets inside the tail segment, which starts at byte 42 of the record. */
  lemma TailSegmentOffsets(c: Config)
    ensures var t := TailBytes(c);
      && t[0..4] == LeBytes(c.discardSectorAlignment, 4)
      && t[4..8] == LeBytes(c.maxWriteZeroesSectors, 4)
      && t[8..12] == LeBytes(c.maxWriteZeroesSeg, 4)
      && t[12] == c.writeZeroesMayUnmap
      && t[13..16] == c.unused1
      && t[16..20] == LeBytes(c.maxSecureEraseSectors, 4)
      && t[20..24] == LeBytes(c.maxSecureEraseSeg, 4)
      && t[24..28] == LeBytes(c.secureEraseSectorAlignment, 4)
  {
    var t := TailBytes(c);
    var front := LeBytes(c.discardSectorAlignment, 4) + LeBytes(c.maxWriteZeroesSectors, 4)
               + LeBytes(c.maxWriteZeroesSeg, 4);
    var middle := [c.writeZeroesMayUnmap] + c.unused1;
    var back := LeBytes(c.maxSecureEraseSectors, 4) + LeBytes(c.maxSecureEraseSeg, 4)
              + LeBytes(c.secureEraseSectorAlignment, 4);
    assert t == front + middle + back by {
      TailSplit(c);
      TailLayoutFront(c);
      TailLayoutMiddle(c);
      TailLayoutBack(c);
    }
    assert t[0..12] == front && t[12..16] == middle && t[16..28] == back;
    assert t[0..4] == front[0..4] && t[4..8] == front[4..8] && t[8..12] == front[8..12];
    assert t[13..16] == middle[1..4];
    assert t[16..20] == back[0..4] && t[20..24] == back[4..8] && t[24..28] == back[8..12];
  }

  /** discard_sector_alignment through secure_erase_sector_alignment sit at bytes 42 to 69. */
  lemma TailOffsets(c: Config)
    ensures var b := Encode(c);
      && b[42..46] == LeBytes(c.discardSectorAlignment, 4)
      && b[46..50] == LeBytes(c.maxWriteZeroesSectors, 4)
      && b[50..54] == LeBytes(c.maxWriteZeroesSeg, 4)
      && b[54] == c.writeZeroesMayUnmap
      && b[55..58] == c.unused1
      && b[58..62] == LeBytes(c.maxSecureEraseSectors, 4)
      && b[62..66] == LeBytes(c.maxSecureEraseSeg, 4)
      && b[66..70] == LeBytes(c.secureEraseSectorAlignment, 4)
  {
    var b := Encode(c);
    EncodeParts(c);
    TailSegmentOffsets(c);
    SliceOfSlice(b, 42, 70, 0, 4);
    SliceOfSlice(b, 42, 70, 4, 8);
    SliceOfSlice(b, 42, 70, 8, 12);
    SliceOfSlice(b, 42, 70, 13, 16);
    SliceOfSlice(b, 42, 70, 16, 20);
    SliceOfSlice(b, 42, 70, 20, 24);
    SliceOfSlice(b, 42, 70, 24, 28);
  }

  // ---------------------------------------------------------------------
  // Defaults and units
  // ---------------------------------------------------------------------

  lemma DefaultGeometryZeros()
    ensures EncodeGeometry(DefaultGeometry()) == Zeros(GeometrySize)
  {
    GeometryWidthsSize();
    SerializeZeros(GeometryFields(DefaultGeometry()), GeometryWidths);
  }

  lemma DefaultZoneZeros()
    ensures EncodeZone(DefaultZone()) == Zeros(ZoneSize)
  {
    ZoneWidthsSize();
    SerializeZeros(ZoneFields(DefaultZone()), ZoneWidths);
  }

  lemma SegmentZeros(vals: seq<nat>, widths: seq<nat>, n: nat)
    requires |vals| == |widths| && Size(widths) == n
    requires forall i :: 0 <= i < |vals| ==> vals[i] == 0
    ensures Serialize(vals, widths) == Zeros(n)
  {
    SerializeZeros(vals, widths);
  }

  lemma HeadZeros(c: Config)
    requires HeadFields(c) == [0, 0, 0]
    ensures HeadBytes(c) == Zeros(16)
  {
    HeadSize();
    SegmentZeros(HeadFields(c), HeadWidths, 16);
  }

  lemma MidZeros(c: Config)
    requires MidFields(c) == [0, 0, 0, 0, 0, 0, 0, 0, 0, 0]
    ensures MidBytes(c) == Zeros(22)
  {
    MidSize();
    SegmentZeros(MidFields(c), MidWidths, 22);
  }

  lemma TailZeros(c: Config)
    requires TailFields(c) == [0, 0, 0, 0, 0, 0, 0, 0, 0, 0]
    ensures TailBytes(c) == Zeros(28)
  {
    TailSize();
    SegmentZeros(TailFields(c), TailWidths, 28);
  }

  /** The derived default record, nested defaults included, is 94 zero bytes. */
  lemma DefaultConfigZeros()
    ensures Encode(DefaultConfig()) == Zeros(ConfigSize)
  {
    HeadZeros(DefaultConfig());
    MidZeros(DefaultConfig());
    TailZeros(DefaultConfig());
    DefaultGeometryZeros();
    DefaultZoneZeros();
    ZerosAppend(16, 4);
    ZerosAppend(20, 22);
    ZerosAppend(42, 28);
    ZerosAppend(70, 24);
  }

  /** The 94 zero bytes decode to the derived default record. */
  lemma ZerosDecodeToDefault()
    ensures Decode(Zeros(ConfigSize)) == Some(DefaultConfig())
  {
    DefaultConfigZeros();
    DecodeEncode(DefaultConfig());
  }

  /** A capacity of 1048576 sectors occupies bytes 0 to 7 as 00 00 10 00 00 00 00 00. */
  lemma CapacityBytes(c: Config)
    requires c.capacity == 1048576
    ensures Encode(c)[0..8] == [0x00, 0x00, 0x10, 0x00, 0x00, 0x00, 0x00, 0x00]
  {
    HeadOffsets(c);
  }

  /** The device size in bytes: `capacity` sectors of 512 (that is, 1 << 9) bytes each. */
  function SizeInBytes(c: Config): (n: nat)
    ensures n % 512 == 0 && n / 512 == c.capacity
  {
    c.capacity * 512
  }

  /**
   * Shifting a 64-bit word left by 9 multiplies it by 512, wrapping as the word does.
   * The conversion form, `((c.capacity as bv64) << 9) as int == SizeInBytes(c)`, is not proved here.
   */
  lemma ShiftIsTimes512(x: bv64)
    ensures x << 9 == x * 512
  {
  }

  /** Capacities below 2^55 sectors have a size in bytes that fits a `u64`. */
  lemma SizeFitsU64(c: Config)
    requires c.capacity < 0x80_0000_0000_0000
    ensures SizeInBytes(c) < 0x1_0000_0000_0000_0000
  {
  }
}
