/** Account bytes: loading and storing a queue, and the chunked creation of a
    queue account. */
module Initialization {
  import opened Bytes
  import opened QueueItems
  import opened QueueSpec
  import opened QueueInvariant

  const MAX_EXTRA_BYTES: nat := 10240
  const DISCRIMINATOR_SIZE: nat := 8

  /** `AccountDiscriminator::Queue.to_bytes()`. */
  function QueueDiscriminator(): (r: seq<byte>)
    ensures |r| == DISCRIMINATOR_SIZE
  {
    [3, 0, 0, 0, 0, 0, 0, 0]
  }

  function Zeros(n: nat): (r: seq<byte>)
    ensures |r| == n && forall i :: 0 <= i < n ==> r[i] == 0
  {
    seq(n, i => 0)
  }

  /** `QueueAccount::load` on full account data. */
  function Load(data: seq<byte>): Result<QueueData>
  {
    if |data| < DISCRIMINATOR_SIZE || data[..DISCRIMINATOR_SIZE] != QueueDiscriminator() then Err(InvalidAccountData)
    else
      var body := data[DISCRIMINATOR_SIZE..];
      if |body| < HEADER_SIZE then Err(InvalidAccountData)
      else
        var h := DecodeHeader(body[..HEADER_SIZE]);
        Ok(QueueData(if h.cursor == 0 then h.(cursor := ITEMS_START) else h, body))
  }

  /** The account data a queue stands for: the header overlays the first bytes. */
  function Store(q: QueueData): seq<byte>
    requires |q.acc| >= HEADER_SIZE
  {
    QueueDiscriminator() + (EncodeHeader(q.header) + q.acc[HEADER_SIZE..])
  }

  /** The buffer with the header written back over its first 12 bytes. */
  function Synced(q: QueueData): QueueData
    requires |q.acc| >= HEADER_SIZE
  {
    q.(acc := EncodeHeader(q.header) + q.acc[HEADER_SIZE..])
  }

  /** Storing and loading gives the queue back. */
  lemma StoreLoad(q: QueueData)
    requires |q.acc| >= HEADER_SIZE && q.header.cursor != 0
    ensures Load(Store(q)) == Ok(Synced(q))
  {
    hide EncodeHeader, DecodeHeader;
    var body := EncodeHeader(q.header) + q.acc[HEADER_SIZE..];
    assert Store(q)[..DISCRIMINATOR_SIZE] == QueueDiscriminator();
    assert Store(q)[DISCRIMINATOR_SIZE..] == body;
    assert body[..HEADER_SIZE] == EncodeHeader(q.header);
    HeaderRoundTrip(q.header);
  }

  lemma {:induction false} ScanFrame(acc: seq<byte>, acc': seq<byte>, pos: nat, end: nat)
    requires |acc| == |acc'| && end <= |acc|
    requires forall j :: pos <= j < |acc| ==> acc[j] == acc'[j]
    ensures Scan(acc, pos, end) == Scan(acc', pos, end)
    decreases |acc| - pos
  {
    if pos + ITEM_SIZE <= end {
      assert acc[pos..pos + ITEM_SIZE] == acc'[pos..pos + ITEM_SIZE];
      hide DecodeItem;
      ScanFrame(acc, acc', EntryAt(acc, pos).next, end);
    }
  }

  /** Keeping the header apart from the buffer loses nothing: no entry depends on
      the header's bytes. */
  lemma SyncedSameEntries(q: QueueData)
    requires |q.acc| >= HEADER_SIZE
    ensures Entries(Synced(q)) == Entries(q)
    ensures WellFormed(Synced(q)) <==> WellFormed(q)
  {
    hide EncodeHeader;
    ScanFrame(q.acc, Synced(q).acc, ITEMS_START, ScanEnd(q));
  }

  // ------------------------------------------------------- chunked creation

  /** A freshly initialised queue of `target` account bytes. */
  function Fresh(target: nat, index: byte): QueueData
    requires target >= DISCRIMINATOR_SIZE + HEADER_SIZE
  {
    QueueData(Header(0, ITEMS_START, index, 0, (0, 0)), Zeros(target - DISCRIMINATOR_SIZE))
  }

  lemma FreshWellFormed(target: nat, index: byte)
    requires DISCRIMINATOR_SIZE + HEADER_SIZE <= target <= MAX_QUEUE_ACCOUNT_SIZE
    ensures WellFormed(Fresh(target, index)) && Entries(Fresh(target, index)) == []
  {
  }

  /** The queue account as the runtime sees it. */
  datatype RawAccount = RawAccount(owned: bool, data: seq<byte>)

  predicate IsZeroed(data: seq<byte>) { forall i :: 0 <= i < |data| ==> data[i] == 0 }

  function Resized(data: seq<byte>, n: nat): (r: seq<byte>)
    ensures |r| == n
  {
    if n <= |data| then data[..n] else data + Zeros(n - |data|)
  }

  /** `process_initialize_oracle_queue`; `registered` says whether the oracle's data
      account exists.  The flag returned tells whether the queue was finalised, in
      which case the oracle's count of open queues goes up by one. */
  function InitializeQueue(a: RawAccount, target: u32, index: byte, registered: bool): Result<(RawAccount, bool)>
  {
    if !IsZeroed(a.data) then Err(AccountAlreadyInitialized)
    else if target > MAX_QUEUE_ACCOUNT_SIZE then Err(QueueSizeTooLarge)
    else if target - |a.data| > MAX_EXTRA_BYTES then
      Ok((RawAccount(true, Resized(a.data, |a.data| + MAX_EXTRA_BYTES)), false))
    else
      var data := Resized(a.data, target);
      if target < DISCRIMINATOR_SIZE then Err(Panicked)
      else
        match Load(QueueDiscriminator() + data[DISCRIMINATOR_SIZE..])
        case Err(error) => Err(error)
        case Ok(q) =>
          if !registered then Err(InvalidAccountOwner)
          else Ok((RawAccount(true, Store(q.(header := q.header.(index := index)))), true))
  }

  function ChunkCount(target: nat): nat { (target + MAX_EXTRA_BYTES - 1) / MAX_EXTRA_BYTES }

  lemma ChunkBounds(target: nat)
    requires target > 0
    ensures ChunkCount(target) > 0
    ensures (ChunkCount(target) - 1) * MAX_EXTRA_BYTES < target <= ChunkCount(target) * MAX_EXTRA_BYTES
  {
  }

  lemma ZeroHeader()
    ensures DecodeHeader(Zeros(HEADER_SIZE)) == Header(0, 0, 0, 0, (0, 0))
  {
    var b := Zeros(HEADER_SIZE);
    assert b[0..4] == [0, 0, 0, 0] && b[4..8] == [0, 0, 0, 0];
    ZeroLE();
  }

  lemma ZeroLE()
    ensures UnLE([0, 0, 0, 0]) == 0
  {
    assert [0, 0, 0, 0][1..] == [0, 0, 0];
    assert [0, 0, 0][1..] == [0, 0];
    assert [0, 0][1..] == [0];
  }

  /** The finalising call on a zeroed account creates the fresh queue. */
  lemma FinalisingCall(a: RawAccount, target: u32, index: byte)
    requires IsZeroed(a.data)
    requires DISCRIMINATOR_SIZE + HEADER_SIZE <= target <= MAX_QUEUE_ACCOUNT_SIZE
    requires target - |a.data| <= MAX_EXTRA_BYTES
    ensures InitializeQueue(a, target, index, true) == Ok((RawAccount(true, Store(Fresh(target, index))), true))
    ensures |Store(Fresh(target, index))| == target
  {
    hide EncodeHeader, DecodeHeader;
    var body := Zeros(target - DISCRIMINATOR_SIZE);
    var data := QueueDiscriminator() + body;
    assert Resized(a.data, target)[DISCRIMINATOR_SIZE..] == body;
    assert data[..DISCRIMINATOR_SIZE] == QueueDiscriminator();
    assert data[DISCRIMINATOR_SIZE..] == body;
    assert body[..HEADER_SIZE] == Zeros(HEADER_SIZE);
    ZeroHeader();
  }

  /** The account after the first k of the instructions the SDK builds. */
  function AfterCalls(k: nat, target: u32, index: byte): Result<(RawAccount, bool)>
  {
    if k == 0 then Ok((RawAccount(false, []), false))
    else
      match AfterCalls(k - 1, target, index)
      case Err(error) => Err(error)
      case Ok((a, _)) => InitializeQueue(a, target, index, true)
  }

  lemma {:induction false} GrowingCalls(k: nat, target: u32, index: byte)
    requires DISCRIMINATOR_SIZE + HEADER_SIZE <= target <= MAX_QUEUE_ACCOUNT_SIZE
    requires k < ChunkCount(target)
    ensures AfterCalls(k, target, index) == Ok((RawAccount(k > 0, Zeros(k * MAX_EXTRA_BYTES)), false))
  {
    ChunkBounds(target);
    if k > 0 {
      GrowingCalls(k - 1, target, index);
      var before := Zeros((k - 1) * MAX_EXTRA_BYTES);
      assert target - |before| > MAX_EXTRA_BYTES;
      assert Resized(before, |before| + MAX_EXTRA_BYTES) == Zeros(k * MAX_EXTRA_BYTES);
    }
  }

  /** Chunked creation: every instruction but the last grows the still zeroed
      account by 10240 bytes, the last one reaches exactly the target and initialises
      the queue, and one more is refused. */
  lemma ChunkedInitialization(target: u32, index: byte)
    requires 20 <= target <= 524288
    ensures var n := (target + 10239) / 10240;
            && (forall k :: 0 <= k < n ==>
                AfterCalls(k, target, index) == Ok((RawAccount(k > 0, Zeros(k * 10240)), false)))
            && AfterCalls(n, target, index) == Ok((RawAccount(true, Store(Fresh(target, index))), true))
            && |Store(Fresh(target, index))| == target
            && AfterCalls(n + 1, target, index) == Err(AccountAlreadyInitialized)
  {
    var n := ChunkCount(target);
    forall k | 0 <= k < n
      ensures AfterCalls(k, target, index) == Ok((RawAccount(k > 0, Zeros(k * MAX_EXTRA_BYTES)), false))
    {
      GrowingCalls(k, target, index);
    }
    LastCalls(target, index);
  }

  lemma LastCalls(target: u32, index: byte)
    requires DISCRIMINATOR_SIZE + HEADER_SIZE <= target <= MAX_QUEUE_ACCOUNT_SIZE
    ensures AfterCalls(ChunkCount(target), target, index) == Ok((RawAccount(true, Store(Fresh(target, index))), true))
    ensures |Store(Fresh(target, index))| == target
    ensures AfterCalls(ChunkCount(target) + 1, target, index) == Err(AccountAlreadyInitialized)
  {
    hide ChunkCount, InitializeQueue, Store;
    ChunkBounds(target);
    var n := ChunkCount(target);
    GrowingCalls(n - 1, target, index);
    FinalisingCall(RawAccount(n - 1 > 0, Zeros((n - 1) * MAX_EXTRA_BYTES)), target, index);
    RefusedWhenStored(Fresh(target, index), target, index);
  }

  lemma RefusedWhenStored(q: QueueData, target: u32, index: byte)
    requires |q.acc| >= HEADER_SIZE
    ensures InitializeQueue(RawAccount(true, Store(q)), target, index, true) == Err(AccountAlreadyInitialized)
  {
    assert Store(q)[0] == 3;
  }
}
