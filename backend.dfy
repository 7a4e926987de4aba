/**
 * The vhost-user block backend's answers to the front-end's queries.
 *
 * The backend holds one `Config` and no other state. Every query takes
 * `&self` and none of them writes through it, so each is a function of the
 * backend value; the two that look like updates (`acked_features`,
 * `set_config`) return the backend they leave behind, which is the one they
 * were given.
 */
module Backend {
  import opened Bytes
  import opened Wrappers
  import opened BlkConfig

  datatype BlockBackend = BlockBackend(config: Config)

  /** Stands for `std::io::Error`; no query here ever produces one. */
  datatype IoError = IoError(kind: nat)

  /** Stands for an eventfd the daemon could wait on to stop a worker. */
  datatype EventFd = EventFd(fd: nat)

  /** The backend the daemon is started with: the derived default record. */
  function MainBackend(): (b: BlockBackend)
    ensures b.config == DefaultConfig()
  {
    BlockBackend(DefaultConfig())
  }

  // ---------------------------------------------------------------------
  // Queues
  // ---------------------------------------------------------------------

  /** The number of virtqueues is the record's `num_queues`, as sent at bytes 32 and 33. */
  function NumQueues(b: BlockBackend): (n: nat)
    ensures n < 0x1_0000
    ensures n == FromLe(Encode(b.config)[32..34])
  {
    MidOffsets(b.config);
    Pow256Widths();
    FromLeBytes(b.config.numQueues, 2);
    b.config.numQueues
  }

  predicate IsPowerOfTwo(n: nat)
  {
    if n <= 1 then n == 1 else n % 2 == 0 && IsPowerOfTwo(n / 2)
  }

  /**
   * The largest ring the backend accepts. Section 2.7 of Virtio 1.2 requires a
   * split virtqueue's size to be a power of two no larger than 32768.
   */
  function MaxQueueSize(b: BlockBackend): (n: nat)
    ensures n == 128
    ensures IsPowerOfTwo(n) && n <= 32768
  {
    assert IsPowerOfTwo(1) && IsPowerOfTwo(2) && IsPowerOfTwo(4) && IsPowerOfTwo(8);
    assert IsPowerOfTwo(16) && IsPowerOfTwo(32) && IsPowerOfTwo(64);
    128
  }

  /** Bit `k` of a 64-bit word. */
  function Bit(k: nat): (w: bv64)
    requires k < 64
  {
    1 << k
  }

  predicate HasBit(w: bv64, k: nat)
    requires k < 64
  {
    w & Bit(k) != 0
  }

  /**
   * One mask per worker thread: bit `q` of mask `t` set means that thread `t`
   * serves queue `q`. The backend asks for a single worker serving queues 0 to 31.
   */
  function QueuesPerThread(b: BlockBackend): (masks: seq<bv64>)
    ensures |masks| == 1
    ensures forall q :: 0 <= q < 64 ==> (HasBit(masks[0], q) <==> q < 32)
  {
    [0xffff_ffff]
  }

  /** The workers that serve queue `q`. */
  function Workers(masks: seq<bv64>, q: nat): set<nat>
    requires q < 64
  {
    set t | 0 <= t < |masks| && HasBit(masks[t], q)
  }

  /** Queues 0 to 31 are served by worker 0 alone; higher queues by no worker. */
  lemma WorkersOfQueue(b: BlockBackend, q: nat)
    requires q < 64
    ensures Workers(QueuesPerThread(b), q) == if q < 32 then {0} else {}
  {
    var masks := QueuesPerThread(b);
    if q < 32 {
      assert 0 in Workers(masks, q);
    }
  }

  /** Every queue the record announces has a worker exactly when it announces at most 32 queues. */
  lemma AllQueuesServed(b: BlockBackend)
    ensures (forall q :: 0 <= q < NumQueues(b) && q < 64 ==> Workers(QueuesPerThread(b), q) != {})
        <==> NumQueues(b) <= 32
  {
    if NumQueues(b) > 32 {
      WorkersOfQueue(b, 32);
    } else {
      forall q | 0 <= q < NumQueues(b) && q < 64
        ensures Workers(QueuesPerThread(b), q) != {}
      {
        WorkersOfQueue(b, q);
      }
    }
  }

  /** No worker gets an exit event. */
  function ExitEvent(b: BlockBackend, threadIndex: nat): (e: Option<EventFd>)
    ensures e.None?
  {
    None
  }

  // ---------------------------------------------------------------------
  // Feature negotiation
  // ---------------------------------------------------------------------

  const SizeMaxBit: nat := 1
  const SegMaxBit: nat := 2
  const GeometryBit: nat := 4
  const ReadOnlyBit: nat := 5
  const BlkSizeBit: nat := 6
  const FlushBit: nat := 9
  const TopologyBit: nat := 10
  const ConfigWceBit: nat := 11
  const MultiQueueBit: nat := 12
  const DiscardBit: nat := 13
  const WriteZeroesBit: nat := 14
  const EventIdxBit: nat := 29
  const Version1Bit: nat := 32

  /** The feature bits the backend offers, by their virtio numbers. */
  const Offered: set<nat> := {SizeMaxBit, SegMaxBit, GeometryBit, BlkSizeBit, FlushBit, ConfigWceBit,
                              MultiQueueBit, WriteZeroesBit, EventIdxBit, Version1Bit}

  /** The offered feature word, one bit per offered feature. */
  function Features(b: BlockBackend): (f: bv64)
    ensures f == 0x1_2000_5A56
  {
    Bit(SizeMaxBit) | Bit(SegMaxBit) | Bit(GeometryBit) | Bit(BlkSizeBit) | Bit(ConfigWceBit)
      | Bit(MultiQueueBit) | Bit(WriteZeroesBit) | Bit(EventIdxBit) | Bit(Version1Bit) | Bit(FlushBit)
  }

  /** A bit is set in the feature word exactly when its feature is offered. */
  lemma FeaturesAreOffered(b: BlockBackend)
    ensures forall k :: 0 <= k < 64 ==> (HasBit(Features(b), k) <==> k in Offered)
  {
    forall k | 0 <= k < 32
      ensures HasBit(Features(b), k) <==> k in Offered
    {
      LowFeatureBits(k);
    }
    forall k | 32 <= k < 64
      ensures HasBit(Features(b), k) <==> k in Offered
    {
      HighFeatureBits(k);
    }
  }

  lemma LowFeatureBits(k: nat)
    requires k < 32
    ensures (0x1_2000_5A56 as bv64) & Bit(k) != 0 <==> k in {1, 2, 4, 6, 9, 11, 12, 14, 29}
  {
  }

  lemma HighFeatureBits(k: nat)
    requires 32 <= k < 64
    ensures (0x1_2000_5A56 as bv64) & Bit(k) != 0 <==> k == 32
  {
  }

  /** Neither read-only, discard nor topology is offered, although the record has room for the last two. */
  lemma NoReadOnlyDiscardOrTopology(b: BlockBackend)
    ensures !HasBit(Features(b), ReadOnlyBit)
    ensures !HasBit(Features(b), DiscardBit)
    ensures !HasBit(Features(b), TopologyBit)
  {
    FeaturesAreOffered(b);
  }

  /** The front-end's acknowledgement is dropped: the backend is left as it was. */
  function AckedFeatures(b: BlockBackend, features: bv64): (b': BlockBackend)
    ensures b'.config == b.config
  {
    b
  }

  /** Acknowledging any features, offered or not, changes no answer the backend gives. */
  lemma AckedFeaturesUnobservable(b: BlockBackend, features: bv64, offset: u32, size: u32)
    ensures var b' := AckedFeatures(b, features);
      && Features(b') == Features(b)
      && NumQueues(b') == NumQueues(b)
      && GetConfig(b', offset, size) == GetConfig(b, offset, size)
  {
  }

  // ---------------------------------------------------------------------
  // Configuration space
  // ---------------------------------------------------------------------

  /** The whole byte view of the record, whatever range was asked for. */
  function GetConfig(b: BlockBackend, offset: u32, size: u32): (r: seq<u8>)
    ensures |r| == ConfigSize
    ensures Decode(r) == Some(b.config)
  {
    DecodeEncode(b.config);
    Encode(b.config)
  }

  /** The requested offset and size make no difference to the answer. */
  lemma GetConfigIgnoresRange(b: BlockBackend, offset1: u32, size1: u32, offset2: u32, size2: u32)
    ensures GetConfig(b, offset1, size1) == GetConfig(b, offset2, size2)
  {
  }

  /** Backends with different records answer differently. */
  lemma GetConfigInjective(b1: BlockBackend, b2: BlockBackend, offset: u32, size: u32)
    requires GetConfig(b1, offset, size) == GetConfig(b2, offset, size)
    ensures b1 == b2
  {
    EncodeInjective(b1.config, b2.config);
  }

  /** Asking for 8 bytes at offset 0 with a capacity of 1048576 sectors begins 00 00 10 00 00 00 00 00. */
  lemma GetConfigCapacity(b: BlockBackend)
    requires b.config.capacity == 1048576
    ensures GetConfig(b, 0, 8)[0..8] == [0x00, 0x00, 0x10, 0x00, 0x00, 0x00, 0x00, 0x00]
  {
    CapacityBytes(b.config);
  }

  /** A write to the configuration space always succeeds and is discarded. */
  function SetConfig(b: BlockBackend, offset: u32, buf: seq<u8>): (r: (Outcome<IoError>, BlockBackend))
    ensures r.0.Pass?
    ensures r.1.config == b.config
  {
    (Pass, b)
  }

  /** Whatever is written, at any offset, the next read returns the bytes from before the write. */
  lemma SetConfigNotObserved(b: BlockBackend, offset: u32, buf: seq<u8>, readOffset: u32, size: u32)
    ensures GetConfig(SetConfig(b, offset, buf).1, readOffset, size) == GetConfig(b, readOffset, size)
  {
  }

  /** Writing back what was read (the round trip a driver performs) leaves the record unchanged. */
  lemma GetThenSetConfig(b: BlockBackend, offset: u32, size: u32)
    ensures SetConfig(b, offset, GetConfig(b, offset, size)) == (Pass, b)
  {
  }

  /** The daemon's backend announces no queues and sends 94 zero bytes. */
  lemma MainBackendConfig(b: BlockBackend, offset: u32, size: u32)
    requires b == MainBackend()
    ensures NumQueues(b) == 0
    ensures GetConfig(b, offset, size) == Zeros(ConfigSize)
  {
    DefaultConfigZeros();
  }
}
