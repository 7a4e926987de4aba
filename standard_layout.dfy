/**
 * The block configuration record as section 5.2.4 of Virtio 1.2 lays it out.
 *
 * The standard (and the Linux header the record declaration points to) gives
 * `opt_io_size` 32 bits; the record in `BlkConfig` gives it 16. Every field
 * from `wce` on therefore sits two bytes earlier there than a driver expects,
 * and the record is 94 bytes where the standard's is 96. This module states
 * the standard layout, proves its round trips and where `num_queues` lands,
 * and exhibits the displacement in `BlkConfig.Encode`.
 */
module StandardLayout {
  import opened Bytes
  import opened Layout
  import opened Wrappers
  import opened BlkConfig

  /**
   * blk_size, physical_block_exp, alignment_offset, min_io_size, opt_io_size
   * (4 bytes), wce, unused, num_queues, max_discard_sectors, max_discard_seg.
   */
  const StdMidWidths: seq<nat> := [4, 1, 1, 2, 4, 1, 1, 2, 4, 4]

  const StdConfigSize := 96

  lemma StdMidSize()
    ensures Size(StdMidWidths) == 24
  {
  }

  /**
   * The standard record. The fields `BlkConfig.Config` shares with it keep
   * their types and sit in the same segments; the middle segment, which holds
   * the widened `opt_io_size`, is kept as its field list.
   */
  datatype StdConfig = StdConfig(head: seq<nat>, geometry: Geometry, mid: seq<nat>, tail: seq<nat>,
                                 zoned: ZoneCharacteristic)

  predicate Valid(s: StdConfig)
  {
    Fits(s.head, HeadWidths) && Fits(s.mid, StdMidWidths) && Fits(s.tail, TailWidths)
  }

  function StdHeadBytes(h: seq<nat>): (b: seq<u8>)
    requires Fits(h, HeadWidths)
    ensures |b| == 16
  {
    HeadSize();
    SerializeLength(h, HeadWidths);
    Serialize(h, HeadWidths)
  }

  function StdMidBytes(m: seq<nat>): (b: seq<u8>)
    requires Fits(m, StdMidWidths)
    ensures |b| == 24
  {
    StdMidSize();
    SerializeLength(m, StdMidWidths);
    Serialize(m, StdMidWidths)
  }

  function StdTailBytes(t: seq<nat>): (b: seq<u8>)
    requires Fits(t, TailWidths)
    ensures |b| == 28
  {
    TailSize();
    SerializeLength(t, TailWidths);
    Serialize(t, TailWidths)
  }

  /** The standard byte view: 16 + 4 + 24 + 28 + 24 bytes. */
  function EncodeStd(s: StdConfig): (b: seq<u8>)
    requires Valid(s)
    ensures |b| == StdConfigSize
  {
    StdHeadBytes(s.head) + EncodeGeometry(s.geometry) + StdMidBytes(s.mid) + StdTailBytes(s.tail)
      + EncodeZone(s.zoned)
  }

  function StdMidOf(b: seq<u8>): (m: seq<nat>)
    requires |b| == 24
    ensures Fits(m, StdMidWidths)
  {
    StdMidSize();
    Parse(b, StdMidWidths)
  }

  lemma StdMidRoundTrip(b: seq<u8>)
    requires |b| == 24
    ensures StdMidBytes(StdMidOf(b)) == b
  {
    StdMidSize();
    SerializeParse(b, StdMidWidths);
  }

  function StdFromBytes(b: seq<u8>): (s: StdConfig)
    requires |b| == StdConfigSize
    ensures Valid(s)
  {
    StdConfig(HeadOf(b[..16]), GeometryFromBytes(b[16..20]), StdMidOf(b[20..44]), TailOf(b[44..72]),
              ZoneFromBytes(b[72..96]))
  }

  /** Reads the standard record from exactly 96 bytes; any other length has no view. */
  function DecodeStd(b: seq<u8>): (r: Option<StdConfig>)
    ensures r.Some? <==> |b| == StdConfigSize
  {
    if |b| != StdConfigSize then None else Some(StdFromBytes(b))
  }

  lemma StdEncodeParts(s: StdConfig)
    requires Valid(s)
    ensures EncodeStd(s)[..16] == StdHeadBytes(s.head)
    ensures EncodeStd(s)[16..20] == EncodeGeometry(s.geometry)
    ensures EncodeStd(s)[20..44] == StdMidBytes(s.mid)
    ensures EncodeStd(s)[44..72] == StdTailBytes(s.tail)
    ensures EncodeStd(s)[72..96] == EncodeZone(s.zoned)
  {
  }

  /** Decoding the standard view of any valid record gives the record back. */
  lemma StdDecodeEncode(s: StdConfig)
    requires Valid(s)
    ensures DecodeStd(EncodeStd(s)) == Some(s)
  {
    StdEncodeParts(s);
    ParseSerialize(s.head, HeadWidths);
    ParseSerialize(s.mid, StdMidWidths);
    ParseSerialize(s.tail, TailWidths);
    GeometryRoundTrip(s.geometry);
    ZoneRoundTrip(s.zoned);
  }

  /** Every 96-byte string is the standard view of the record it decodes to. */
  lemma StdEncodeDecode(b: seq<u8>)
    requires |b| == StdConfigSize
    ensures EncodeStd(StdFromBytes(b)) == b
  {
    HeadRoundTrip(b[..16]);
    StdMidRoundTrip(b[20..44]);
    TailRoundTrip(b[44..72]);
    GeometryBytesRoundTrip(b[16..20]);
    ZoneBytesRoundTrip(b[72..96]);
    var b20, b44, b72 := b[..20], b[..44], b[..72];
    assert b20 == b[..16] + b[16..20];
    assert b44 == b20 + b[20..44];
    assert b72 == b44 + b[44..72];
    assert b == b72 + b[72..96];
  }

  /** A record in the standard layout; `opt_io_size` widens to 32 bits without change of value. */
  function Widen(c: Config): (s: StdConfig)
    ensures Valid(s)
    ensures s.head == HeadFields(c) && s.geometry == c.geometry && s.mid == MidFields(c)
    ensures s.tail == TailFields(c) && s.zoned == c.zoned
    ensures s.mid[7] == c.numQueues && s.mid[4] == c.optIoSize
  {
    ConfigOfFields(c);
    Pow256Widths();
    StdConfig(HeadFields(c), c.geometry, MidFields(c), TailFields(c), c.zoned)
  }

  /** Under the standard, `num_queues` sits at bytes 14 and 15 of the middle segment. */
  lemma StdMidNumQueues(m: seq<nat>)
    requires Fits(m, StdMidWidths)
    ensures StdMidBytes(m)[14..16] == LeBytes(m[7], 2)
  {
    var w := StdMidWidths;
    assert w[..7] == [4, 1, 1, 2, 4, 1, 1];
    FieldAt(m, w, 7);
  }

  /** A driver reading `num_queues` at its standard offset, bytes 34 and 35, sees the record's value. */
  lemma StdNumQueuesVisible(c: Config)
    ensures FromLe(EncodeStd(Widen(c))[34..36]) == c.numQueues
  {
    var s := Widen(c);
    var b := EncodeStd(s);
    StdEncodeParts(s);
    StdMidNumQueues(s.mid);
    SliceOfSlice(b, 20, 44, 14, 16);
    Pow256Widths();
    FromLeBytes(c.numQueues, 2);
  }

  /**
   * As written, a driver following the standard takes the low half of
   * `max_discard_sectors` for the queue count, whatever the record holds.
   */
  lemma AsWrittenStandardReaderQueueCount(c: Config)
    ensures FromLe(Encode(c)[34..36]) == c.maxDiscardSectors % 0x1_0000
  {
    var b := Encode(c);
    MidOffsets(c);
    assert b[34..36] == b[34..38][..2];
    LowBytes(c.maxDiscardSectors);
  }

  /** The first two of four little-endian bytes read as the value modulo 2^16. */
  lemma LowBytes(v: u32)
    ensures FromLe(LeBytes(v, 4)[..2]) == v % 0x1_0000
  {
    var s := LeBytes(v, 4);
    var lo, hi := v % 256, (v / 256) % 256;
    assert s == [lo] + LeBytes(v / 256, 3);
    assert LeBytes(v / 256, 3) == [hi] + LeBytes(v / 256 / 256, 2);
    assert s[..2] == [lo, hi];
    assert FromLe([lo, hi]) == lo + 256 * FromLe([hi]);
    LowBytesValue(v);
  }

  lemma LowBytesValue(v: nat)
    ensures v % 256 + 256 * ((v / 256) % 256) == v % 0x1_0000
  {
    var q, r := v / 256, v % 256;
    var a, b := q / 256, q % 256;
    assert v == 256 * q + r;
    assert q == 256 * a + b;
    assert v == 0x1_0000 * a + (256 * b + r);
    assert 0 <= 256 * b + r < 0x1_0000;
  }

  /**
   * As written, a record announcing one queue (with no discard limit) is sent
   * with the count at bytes 32 and 33, while a driver following the standard
   * reads bytes 34 and 35 and finds zero queues.
   */
  lemma AsWrittenNumQueuesMisplaced(c: Config)
    requires c.numQueues == 1 && c.maxDiscardSectors == 0
    ensures |Encode(c)| == ConfigSize != StdConfigSize
    ensures FromLe(Encode(c)[32..34]) == 1
    ensures FromLe(Encode(c)[34..36]) == 0
    ensures FromLe(EncodeStd(Widen(c))[34..36]) == 1
  {
    var b := Encode(c);
    MidOffsets(c);
    Pow256Widths();
    FromLeBytes(1, 2);
    LeBytesZero(4);
    assert b[34..36] == b[34..38][..2];
    assert b[34..36] == [0, 0];
    StdNumQueuesVisible(c);
  }
}
