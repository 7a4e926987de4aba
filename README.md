# metis block backend: configuration record and backend queries

A model of the vhost-user virtio block backend in metis: the packed
`Config` record (with its nested `Geometry` and `ZoneCharacteristic`) that the
backend hands to the front-end as the device's configuration space, and the
`BlockBackend` queries the vhost-user daemon asks of it (queue count, ring
size, feature bits, configuration reads and writes, worker mapping, exit
events).

The code is pure data plus accessors that take `&self`, so the model is
datatypes, functions and lemmas:

- `Bytes` (bytes.dfy): byte and fixed-width integer types, the n-byte
  little-endian encoding `LeBytes` and its inverse `FromLe`.
- `Layout` (layout.dfy): a packed record as a list of field values and a list
  of field widths; `Serialize` lays the fields end to end with no padding,
  `Parse` reads them back. Both round trips and the position of every field
  are proved once here, by induction.
- `BlkConfig` (config.dfy): the three records, their byte views
  (`EncodeGeometry`, `EncodeZone`, `Encode`) and the readings of a byte string
  (`DecodeGeometry`, `DecodeZone`, `Decode`), which succeed exactly on
  strings of the record's size, as reading a `ByteValued` value from a
  slice does. The 94-byte record is handled as five segments: head (bytes
  0-15), geometry (16-19), middle (20-41), tail (42-69) and zone (70-93).
- `Backend` (backend.dfy): `BlockBackend` and its queries.
- `StandardLayout` (standard_layout.dfy): the record as section 5.2.4 of
  Virtio 1.2 lays it out, for the finding below.

The vhost-user front-end passes an offset and a size to `get_config` and an
offset and a buffer to `set_config`. `get_config` ignores both and returns
the whole record; `set_config` returns `Ok(())` and writes nothing.

## Model

| member | source | states |
|---|---|---|
| Bytes.FromLeBytes | src/config.rs:88-89 | reading back the n-byte little-endian encoding of any value below 256^n gives the value |
| Bytes.LeBytesFromLe | src/config.rs:88-89 | every byte string is the little-endian encoding of the number it reads as |
| Layout.SerializeLength | src/config.rs:5 | a packed record is exactly as long as the sum of its field widths, with no padding |
| Layout.ParseSerialize | src/config.rs:5 | reading a packed record's bytes gives back every field that fits its width |
| Layout.SerializeParse | src/config.rs:5 | every byte string of the record's size is the packed bytes of the fields it reads as |
| Layout.FieldAt | src/config.rs:5 | field i occupies the bytes from the sum of the earlier widths, little-endian, within the record |
| Layout.SerializeAppend | src/config.rs:5 | packing two field lists one after the other gives the concatenation of their bytes |
| BlkConfig.EncodeGeometry | src/config.rs:66-73 | the geometry's byte view is 4 bytes |
| BlkConfig.GeometryBytes | src/config.rs:69-73 | cylinders as 2 little-endian bytes, then heads, then sectors |
| BlkConfig.DecodeGeometry | src/config.rs:91-92 | a geometry is read from a byte string exactly when it is 4 bytes long |
| BlkConfig.GeometryRoundTrip | src/config.rs:91-92 | reading the byte view of any geometry gives it back |
| BlkConfig.GeometryBytesRoundTrip | src/config.rs:91-92 | every 4-byte string is the view of the geometry it reads as |
| BlkConfig.EncodeZone | src/config.rs:75-86 | the zone record's byte view is 24 bytes |
| BlkConfig.ZoneBytes | src/config.rs:78-86 | five 4-byte little-endian words, then model, then the three unused bytes |
| BlkConfig.DecodeZone | src/config.rs:94-95 | a zone record is read from a byte string exactly when it is 24 bytes long |
| BlkConfig.ZoneRoundTrip | src/config.rs:94-95 | reading the byte view of any zone record gives it back |
| BlkConfig.ZoneBytesRoundTrip | src/config.rs:94-95 | every 24-byte string is the view of the zone record it reads as |
| BlkConfig.Encode | src/config.rs:4-64 | the configuration record's byte view is 94 bytes |
| BlkConfig.Decode | src/config.rs:88-89 | a record is read from a byte string exactly when it is 94 bytes long |
| BlkConfig.DecodeEncode | src/config.rs:88-89 | reading the byte view of any record gives the record back |
| BlkConfig.EncodeDecode | src/config.rs:88-89 | every 94-byte string is read as some record, and is that record's byte view |
| BlkConfig.EncodeInjective | src/config.rs:88-89 | two records with the same byte view are equal |
| BlkConfig.EncodeParts | src/config.rs:6-64 | bytes 16-19 hold the geometry's view and bytes 70-93 the zone record's view |
| BlkConfig.HeadOffsets | src/config.rs:8-14 | capacity at bytes 0-7, size_max at 8-11, seg_max at 12-15, geometry at 16-19, all little-endian |
| BlkConfig.MidOffsets | src/config.rs:16-38 | blk_size at 20-23, physical_block_exp at 24, alignment_offset at 25, min_io_size at 26-27, opt_io_size at 28-29, wce at 30, unused at 31, num_queues at 32-33, max_discard_sectors at 34-37, max_discard_seg at 38-41 |
| BlkConfig.TailOffsets | src/config.rs:41-61 | discard_sector_alignment at 42-45, the write-zeroes limits at 46-53, write_zeroes_may_unmap at 54, unused1 at 55-57, the secure-erase fields at 58-69 |
| BlkConfig.DefaultGeometryZeros | src/config.rs:67 | the derived default geometry is 4 zero bytes |
| BlkConfig.DefaultZoneZeros | src/config.rs:76 | the derived default zone record is 24 zero bytes |
| BlkConfig.DefaultConfigZeros | src/config.rs:4 | the derived default record, nested defaults included, is 94 zero bytes |
| BlkConfig.ZerosDecodeToDefault | src/config.rs:4 | 94 zero bytes read as the derived default record |
| BlkConfig.CapacityBytes | src/config.rs:7-8 | a capacity of 1048576 sectors is sent as 00 00 10 00 00 00 00 00 |
| BlkConfig.SizeInBytes | src/config.rs:7-8 | the device size in bytes is a multiple of 512 whose quotient by 512 is the capacity |
| BlkConfig.ShiftIsTimes512 | src/config.rs:7 | on 64-bit words, shifting left by 9 (the `1<<9` of a sector) is multiplying by 512 |
| BlkConfig.SizeFitsU64 | src/config.rs:7-8 | a capacity below 2^55 sectors gives a size in bytes below 2^64, so it fits a `u64` |
| Backend.MainBackend | src/main.rs:19-21 | the daemon's backend holds the derived default record |
| Backend.MainBackendConfig | src/main.rs:19-21 | that backend announces no queues and sends 94 zero bytes |
| Backend.NumQueues | src/main.rs:41-43 | the queue count is below 65536 and is what a reader finds at bytes 32-33 of the sent record |
| Backend.MaxQueueSize | src/main.rs:45-48 | 128 for every backend, a power of two no larger than 32768 |
| Backend.Features | src/main.rs:50-62 | the offered feature word is 0x1_2000_5A56 for every backend |
| Backend.FeaturesAreOffered | src/main.rs:50-62 | bit k of the feature word is set exactly when k is one of size_max, seg_max, geometry, blk_size, flush, config_wce, mq, write_zeroes, event_idx, version_1 |
| Backend.NoReadOnlyDiscardOrTopology | src/main.rs:50-62 | the read-only, discard and topology bits are never offered |
| Backend.AckedFeatures | src/main.rs:86 | acknowledging features leaves the record as it was |
| Backend.AckedFeaturesUnobservable | src/main.rs:86 | after any acknowledgement, offered or not, features, queue count and configuration reads are unchanged |
| Backend.GetConfig | src/main.rs:88-91 | the answer is always 94 bytes and reads back as the backend's record |
| Backend.GetConfigIgnoresRange | src/main.rs:88-91 | the requested offset and size do not change the answer |
| Backend.GetConfigInjective | src/main.rs:88-91 | backends that answer alike hold the same record |
| Backend.GetConfigCapacity | src/main.rs:88-91 | a read of 8 bytes at offset 0 with capacity 1048576 begins 00 00 10 00 00 00 00 00 |
| Backend.SetConfig | src/main.rs:93-95 | every write succeeds and the record is left as it was |
| Backend.SetConfigNotObserved | src/main.rs:93-95 | after any write, any read returns the bytes from before the write |
| Backend.GetThenSetConfig | src/main.rs:93-95 | writing back what was read succeeds and changes nothing |
| Backend.QueuesPerThread | src/main.rs:99-101 | one worker, whose mask has bit q set exactly for q below 32 |
| Backend.WorkersOfQueue | src/main.rs:99-101 | queues 0 to 31 are served by worker 0 alone, queues 32 to 63 by no worker |
| Backend.AllQueuesServed | src/main.rs:99-101 | every announced queue has a worker exactly when the record announces at most 32 queues |
| Backend.ExitEvent | src/main.rs:103-105 | no worker is given an exit event |
| StandardLayout.AsWrittenNumQueuesMisplaced | src/config.rs:26 | as written, a record with one queue is sent with the count at bytes 32-33, and bytes 34-35, where the standard puts it, read as 0 |
| StandardLayout.AsWrittenStandardReaderQueueCount | src/config.rs:26 | as written, for every record, bytes 34-35, where the standard puts num_queues, read as max_discard_sectors modulo 2^16 |
| StandardLayout.EncodeStd | src/config.rs:25-32 | the standard record's byte view is 96 bytes |
| StandardLayout.DecodeStd | src/config.rs:25-32 | a standard record is read from a byte string exactly when it is 96 bytes long |
| StandardLayout.StdDecodeEncode | src/config.rs:25-32 | reading the standard view of any valid standard record gives it back |
| StandardLayout.StdEncodeDecode | src/config.rs:25-32 | every 96-byte string is the standard view of the record it reads as |
| StandardLayout.Widen | src/config.rs:25-32 | every record fits the standard layout with every field carried over unchanged; only the width of opt_io_size differs |
| StandardLayout.StdNumQueuesVisible | src/config.rs:31-32 | in the standard layout, bytes 34-35 read as the record's num_queues |

## Left out

- `protocol_features`, `set_event_idx`, `update_memory` and `handle_event` (src/main.rs:64-84) only panic with `todo!()`; they have no behaviour to model.
- `set_backend_req_fd` (src/main.rs:97) ignores its argument and returns nothing.
- `main` (src/main.rs:17-30): creating the guest memory map, the daemon, the listening socket and waiting for it are I/O. Only the backend it builds is modelled, as `MainBackend`.
- The log line `get_config` writes (src/main.rs:89) is I/O and is not modelled.
- The vhost-user daemon, the guest memory and the locking around the backend are not modelled. The file descriptors behind `EventFd` and the error kinds behind `std::io::Error` are stand-ins only.
- src/kernel.rs is not part of this model.
- `ByteValued` views the record's memory in place, so the code stores each field in host byte order. The model assumes a little-endian host, where that order matches the little-endian layout virtio requires. On a big-endian host every multi-byte field would be sent byte-reversed; that case is not modelled.

## Findings

| source | as written | input that shows it | evidently intended | confidence | as-written member | corrected member |
|---|---|---|---|---|---|---|
| src/config.rs:26 | `opt_io_size` is a `u16`, so `wce` and every later field sit two bytes before their standard offsets and the record is 94 bytes | a record with `num_queues` = 1 and `max_discard_sectors` = 0: the count is sent at bytes 32-33, and bytes 34-35 read as 0 | `opt_io_size` is 32 bits, as in section 5.2.4 of Virtio 1.2 and the Linux `virtio_blk.h` the declaration cites; the record is 96 bytes and `num_queues` is at bytes 34-35 | high, not executed | StandardLayout.AsWrittenNumQueuesMisplaced | StandardLayout.StdNumQueuesVisible |

`Backend.GetConfig` keeps the as-written 94-byte view, because that is what
the code sends. The corrected layout lives in `StandardLayout`: it has its
own round trips, and `Widen` maps every record onto it.
