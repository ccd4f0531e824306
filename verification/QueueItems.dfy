/** The records stored in a queue account and their byte images: `QueueItem`
    (96 bytes), `CompactAccountMeta` (33 bytes) and the `Queue` header (12 bytes). */
module QueueItems {
  import opened Bytes

  const HEADER_SIZE: nat := 12
  const ITEM_SIZE: nat := 96
  const META_SIZE: nat := 33
  const USED_OFFSET: nat := 91
  const DISC_OFFSET_OFFSET: nat := 72

  /** The queue header that lives in the first 12 bytes of the account body. */
  datatype Header = Header(itemCount: u32, cursor: u32, index: byte, paused: byte, padding: (byte, byte))

  datatype QueueItem = QueueItem(
    slot: u64,
    id: Bytes32,
    callbackProgramId: Bytes32,
    discOffset: u32,
    metasOffset: u32,
    argsOffset: u32,
    discLen: u16,
    metasLen: u16,
    argsLen: u16,
    priorityRequest: byte,
    used: byte,
    identityMode: byte,
    identityBump: byte,
    createdAt: u16)

  datatype CompactMeta = CompactMeta(pubkey: Bytes32, isWritable: byte)

  function EncodeHeader(h: Header): (r: seq<byte>)
    ensures |r| == HEADER_SIZE
  {
    LE(h.itemCount, 4) + LE(h.cursor, 4) + [h.index, h.paused, h.padding.0, h.padding.1]
  }

  function DecodeHeader(b: seq<byte>): (h: Header)
    requires |b| == HEADER_SIZE
  {
    Header(U32Of(b[0..4]), U32Of(b[4..8]), b[8], b[9], (b[10], b[11]))
  }

  /** Where each field sits in the 12-byte header. */
  lemma HeaderLayout(h: Header)
    ensures var b := EncodeHeader(h);
            && b[0..4] == LE(h.itemCount, 4) && b[4..8] == LE(h.cursor, 4)
            && b[8] == h.index && b[9] == h.paused && b[10] == h.padding.0 && b[11] == h.padding.1
  {
    hide LE;
  }

  lemma HeaderRoundTrip(h: Header)
    ensures DecodeHeader(EncodeHeader(h)) == h
  {
    Pow256Values();
    UnLELE(h.itemCount, 4);
    UnLELE(h.cursor, 4);
    var b := EncodeHeader(h);
    assert b[0..4] == LE(h.itemCount, 4);
    assert b[4..8] == LE(h.cursor, 4);
  }

  lemma HeaderBytesRoundTrip(b: seq<byte>)
    requires |b| == HEADER_SIZE
    ensures EncodeHeader(DecodeHeader(b)) == b
  {
    LEUnLE(b[0..4]);
    LEUnLE(b[4..8]);
    assert b == b[0..4] + b[4..8] + [b[8], b[9], b[10], b[11]];
  }

  /** Bytes 0..72: slot, id, callback program id. */
  function KeyPart(it: QueueItem): (r: seq<byte>)
    ensures |r| == 72
  {
    LE(it.slot, 8) + it.id + it.callbackProgramId
  }

  /** Bytes 72..90: the three offsets and the three lengths. */
  function ExtentPart(it: QueueItem): (r: seq<byte>)
    ensures |r| == 18
  {
    LE(it.discOffset, 4) + LE(it.metasOffset, 4) + LE(it.argsOffset, 4)
    + LE(it.discLen, 2) + LE(it.metasLen, 2) + LE(it.argsLen, 2)
  }

  /** Bytes 90..96: priority, used, identity mode, identity bump, creation stamp. */
  function FlagPart(it: QueueItem): (r: seq<byte>)
    ensures |r| == 6
  {
    [it.priorityRequest, it.used, it.identityMode, it.identityBump] + LE(it.createdAt, 2)
  }

  function EncodeItem(it: QueueItem): (r: seq<byte>)
    ensures |r| == ITEM_SIZE
  {
    KeyPart(it) + ExtentPart(it) + FlagPart(it)
  }

  function DecodeItem(b: seq<byte>): (it: QueueItem)
    requires |b| == ITEM_SIZE
  {
    QueueItem(
      U64Of(b[0..8]), b[8..40], b[40..72],
      U32Of(b[72..76]), U32Of(b[76..80]), U32Of(b[80..84]),
      U16Of(b[84..86]), U16Of(b[86..88]), U16Of(b[88..90]),
      b[90], b[91], b[92], b[93],
      U16Of(b[94..96]))
  }

  /** Where each field sits in the 96-byte image (`#[repr(C)]`, no padding). */
  lemma ItemLayout(it: QueueItem)
    ensures var b := EncodeItem(it);
            && b[0..8] == LE(it.slot, 8) && b[8..40] == it.id && b[40..72] == it.callbackProgramId
            && b[72..76] == LE(it.discOffset, 4) && b[76..80] == LE(it.metasOffset, 4)
            && b[80..84] == LE(it.argsOffset, 4)
            && b[84..86] == LE(it.discLen, 2) && b[86..88] == LE(it.metasLen, 2)
            && b[88..90] == LE(it.argsLen, 2)
            && b[90] == it.priorityRequest && b[91] == it.used
            && b[92] == it.identityMode && b[93] == it.identityBump
            && b[94..96] == LE(it.createdAt, 2)
  {
    var b := EncodeItem(it);
    assert b[0..72] == KeyPart(it);
    assert b[72..90] == ExtentPart(it);
    assert b[90..96] == FlagPart(it);
    assert b[0..8] == b[0..72][0..8] && b[8..40] == b[0..72][8..40] && b[40..72] == b[0..72][40..72];
    assert b[72..76] == b[72..90][0..4] && b[76..80] == b[72..90][4..8] && b[80..84] == b[72..90][8..12];
    assert b[84..86] == b[72..90][12..14] && b[86..88] == b[72..90][14..16] && b[88..90] == b[72..90][16..18];
    assert b[94..96] == b[90..96][4..6];
  }

  lemma ItemRoundTrip(it: QueueItem)
    ensures DecodeItem(EncodeItem(it)) == it
  {
    ItemLayout(it);
    Pow256Values();
    UnLELE(it.slot, 8);
    UnLELE(it.discOffset, 4);
    UnLELE(it.metasOffset, 4);
    UnLELE(it.argsOffset, 4);
    UnLELE(it.discLen, 2);
    UnLELE(it.metasLen, 2);
    UnLELE(it.argsLen, 2);
    UnLELE(it.createdAt, 2);
  }

  lemma KeyPartBytes(b: seq<byte>)
    requires |b| == ITEM_SIZE
    ensures KeyPart(DecodeItem(b)) == b[0..72]
  {
    LEUnLE(b[0..8]);
    assert b[0..72] == b[0..8] + b[8..40] + b[40..72];
  }

  lemma ExtentPartBytes(b: seq<byte>)
    requires |b| == ITEM_SIZE
    ensures ExtentPart(DecodeItem(b)) == b[72..90]
  {
    LEUnLE(b[72..76]);
    LEUnLE(b[76..80]);
    LEUnLE(b[80..84]);
    LEUnLE(b[84..86]);
    LEUnLE(b[86..88]);
    LEUnLE(b[88..90]);
    assert b[72..84] == b[72..76] + b[76..80] + b[80..84];
    assert b[72..90] == b[72..84] + b[84..86] + b[86..88] + b[88..90];
  }

  lemma FlagPartBytes(b: seq<byte>)
    requires |b| == ITEM_SIZE
    ensures FlagPart(DecodeItem(b)) == b[90..96]
  {
    LEUnLE(b[94..96]);
    assert b[90..96] == [b[90], b[91], b[92], b[93]] + b[94..96];
  }

  lemma ItemBytesRoundTrip(b: seq<byte>)
    requires |b| == ITEM_SIZE
    ensures EncodeItem(DecodeItem(b)) == b
  {
    KeyPartBytes(b);
    ExtentPartBytes(b);
    FlagPartBytes(b);
    assert b == b[0..72] + b[72..90] + b[90..96];
  }

  /** Clearing the used flag of a stored item changes exactly one byte, and it
      changes only that field of what is read back. */
  lemma ClearUsedByte(b: seq<byte>)
    requires |b| == ITEM_SIZE
    ensures EncodeItem(DecodeItem(b).(used := 0)) == b[USED_OFFSET := 0]
    ensures DecodeItem(b[USED_OFFSET := 0]) == DecodeItem(b).(used := 0)
  {
    var it := DecodeItem(b);
    ItemBytesRoundTrip(b);
    assert KeyPart(it.(used := 0)) == KeyPart(it);
    assert ExtentPart(it.(used := 0)) == ExtentPart(it);
    assert FlagPart(it.(used := 0)) == FlagPart(it)[1 := 0];
    assert EncodeItem(it.(used := 0)) == EncodeItem(it)[USED_OFFSET := 0];
    ItemRoundTrip(it.(used := 0));
  }

  function EncodeMeta(m: CompactMeta): (r: seq<byte>)
    ensures |r| == META_SIZE
  {
    m.pubkey + [m.isWritable]
  }

  function EncodeMetas(ms: seq<CompactMeta>): (r: seq<byte>)
    ensures |r| == META_SIZE * |ms|
  {
    if ms == [] then [] else EncodeMeta(ms[0]) + EncodeMetas(ms[1..])
  }

  function DecodeMetas(b: seq<byte>): (ms: seq<CompactMeta>)
    requires |b| % META_SIZE == 0
    ensures META_SIZE * |ms| == |b|
  {
    if |b| < META_SIZE then [] else [CompactMeta(b[0..32], b[32])] + DecodeMetas(b[META_SIZE..])
  }

  /** Meta k takes 33 bytes: its key, then its writable flag. */
  lemma {:induction false} MetaLayout(ms: seq<CompactMeta>, k: nat)
    requires k < |ms|
    ensures EncodeMetas(ms)[33 * k..33 * k + 32] == ms[k].pubkey && EncodeMetas(ms)[33 * k + 32] == ms[k].isWritable
  {
    var b := EncodeMetas(ms);
    if k == 0 {
      assert b[0..32] == ms[0].pubkey;
    } else {
      MetaLayout(ms[1..], k - 1);
      var rest := EncodeMetas(ms[1..]);
      assert b == EncodeMeta(ms[0]) + rest;
      assert b[33 * k..33 * k + 32] == rest[33 * (k - 1)..33 * (k - 1) + 32];
    }
  }

  lemma {:induction false} MetasRoundTrip(ms: seq<CompactMeta>)
    ensures DecodeMetas(EncodeMetas(ms)) == ms
  {
    if ms != [] {
      MetasRoundTrip(ms[1..]);
      var b := EncodeMetas(ms);
      assert b[META_SIZE..] == EncodeMetas(ms[1..]);
      assert b[0..32] == ms[0].pubkey;
      assert ms == [ms[0]] + ms[1..];
    }
  }
}
