/** The queue account as a value: a header and the account body, and what each
    queue operation does to them.  Everything is driven by the lengths stored in
    the bytes, so every function here is total on arbitrary bytes. */
module QueueSpec {
  import opened Bytes
  import opened QueueItems

  const ITEMS_START: nat := 16
  const MAX_QUEUE_ACCOUNT_SIZE: nat := 512 * 1024
  const MAX_CALLBACK_ACCOUNTS: nat := 25
  const MAX_ARGS_LEN: nat := 512

  datatype Error =
    | ArgumentSizeTooLarge
    | AccountDataTooSmall
    | InvalidQueueIndex
    | InvalidAccountData
    | QueuePaused
    | QueueNotEmpty
    | QueueAlreadyInUse
    | QueueSizeTooLarge
    | RandomnessRequestNotFound
    | InvalidCallbackAccounts
    | OracleMustProvideInDifferentSlot
    | InvalidProof
    | InvalidSeeds
    | CallbackFailed
    | InsufficientFunds
    | InvalidArgument
    | InvalidInstructionData
    | InvalidAccountOwner
    | AccountAlreadyInitialized
    | Panicked

  datatype Result<+T> = Ok(value: T) | Err(error: Error)

  /** `acc` is the account body (the data after the 8-byte discriminator).  Its
      first 12 bytes are the header, which is kept decoded beside it. */
  datatype QueueData = QueueData(header: Header, acc: seq<byte>)

  /** One step of a scan: the item found at `pos` and where the next one starts. */
  datatype Entry = Entry(pos: nat, next: nat, item: QueueItem)

  function Min(a: int, b: int): int { if a < b then a else b }

  /** `(x + 7) & !7`. */
  function AlignUp(x: nat): nat { (x + 7) / 8 * 8 }

  /** Bytes an item occupies with its payload, before alignment. */
  function Total(it: QueueItem): nat
  {
    ITEM_SIZE + it.discLen + META_SIZE * it.metasLen + it.argsLen
  }

  function ItemNext(pos: nat, it: QueueItem): (next: nat)
    ensures next >= pos + ITEM_SIZE
  {
    AlignUp(pos + Total(it))
  }

  function EntryAt(acc: seq<byte>, pos: nat): (e: Entry)
    requires pos + ITEM_SIZE <= |acc|
    ensures e.pos == pos && e.next >= pos + ITEM_SIZE && e.next % 8 == 0
  {
    var it := DecodeItem(acc[pos..pos + ITEM_SIZE]);
    Entry(pos, ItemNext(pos, it), it)
  }

  /** The items a scan starting at `pos` meets before `end`. */
  function Scan(acc: seq<byte>, pos: nat, end: nat): seq<Entry>
    requires end <= |acc|
    decreases |acc| - pos
  {
    if pos + ITEM_SIZE > end then []
    else [EntryAt(acc, pos)] + Scan(acc, EntryAt(acc, pos).next, end)
  }

  function ScanEnd(q: QueueData): nat { Min(|q.acc|, q.header.cursor) }

  /** Every item of the queue, live or free, in position order. */
  function Entries(q: QueueData): seq<Entry> { Scan(q.acc, ITEMS_START, ScanEnd(q)) }

  function Last(es: seq<Entry>): Entry requires es != [] { es[|es| - 1] }

  predicate IsUsed(e: Entry) { e.item.used == 1 }

  /** The live items among `es`, in order. */
  function Used(es: seq<Entry>): seq<Entry>
  {
    if es == [] then []
    else Used(es[..|es| - 1]) + if IsUsed(Last(es)) then [Last(es)] else []
  }

  /** The live requests of the queue: what every lookup speaks about. */
  function Live(q: QueueData): seq<Entry> { Used(Entries(q)) }

  /** The first of the live entries with that id. */
  function FindById(live: seq<Entry>, id: Bytes32): (r: Option<(nat, QueueItem)>)
    ensures r.None? <==> forall k :: 0 <= k < |live| ==> live[k].item.id != id
    ensures r.Some? ==> r.value.0 < |live| && live[r.value.0].item == r.value.1 && r.value.1.id == id
  {
    if live == [] then None
    else
      var found := FindById(live[..|live| - 1], id);
      if found.None? && Last(live).item.id == id then Some((|live| - 1, Last(live).item)) else found
  }

  /** End of the last live item, aligned; the start of the item area if none. */
  function LastUsedEnd(es: seq<Entry>): nat
  {
    if es == [] then ITEMS_START
    else if IsUsed(Last(es)) then Last(es).next
    else LastUsedEnd(es[..|es| - 1])
  }

  /** Drop the free items after the last live one. */
  function TrimHoles(es: seq<Entry>): seq<Entry>
  {
    if es == [] || IsUsed(Last(es)) then es else TrimHoles(es[..|es| - 1])
  }

  function Trim(q: QueueData): QueueData
  {
    q.(header := q.header.(cursor := Min(q.header.cursor, LastUsedEnd(Entries(q)))))
  }

  // ---------------------------------------------------------------- removal

  function SatSub(x: u32, n: nat): u32 { if n <= x then x - n else 0 }

  function Cleared(e: Entry): Entry { e.(item := e.item.(used := 0)) }

  datatype Removed = Removed(q: QueueData, item: QueueItem)

  /** Positions of scanned items are inside the buffer. */
  lemma {:induction false} ScanInBounds(acc: seq<byte>, pos: nat, end: nat)
    requires end <= |acc|
    ensures forall e :: e in Scan(acc, pos, end) ==> pos <= e.pos && e.pos + ITEM_SIZE <= end
    decreases |acc| - pos
  {
    if pos + ITEM_SIZE <= end {
      ScanInBounds(acc, EntryAt(acc, pos).next, end);
    }
  }

  lemma {:induction false} UsedAreEntries(es: seq<Entry>)
    ensures |Used(es)| <= |es|
    ensures forall e :: e in Used(es) <==> e in es && IsUsed(e)
  {
    if es != [] {
      UsedAreEntries(es[..|es| - 1]);
      assert es == es[..|es| - 1] + [Last(es)];
    }
  }

  /** Remove the live item with the given logical index: clear its flag in place
      and trim the free items at the end. */
  function Remove(q: QueueData, index: nat): (r: Result<Removed>)
    ensures r.Ok? <==> index < |Live(q)|
  {
    if index < |Live(q)| then
      var e := Live(q)[index];
      assert e.pos + ITEM_SIZE <= |q.acc| by {
        UsedAreEntries(Entries(q));
        ScanInBounds(q.acc, ITEMS_START, ScanEnd(q));
      }
      var h := q.header.(itemCount := SatSub(q.header.itemCount, 1));
      Ok(Removed(Trim(QueueData(h, q.acc[e.pos + USED_OFFSET := 0])), Cleared(e).item))
    else Err(InvalidQueueIndex)
  }

  /** A live entry picked by `w`. */
  predicate Matches(e: Entry, w: Entry -> bool) { IsUsed(e) && w(e) }

  function ClearIf(e: Entry, w: Entry -> bool): Entry { if Matches(e, w) then Cleared(e) else e }

  function ClearWhere(es: seq<Entry>, w: Entry -> bool): (r: seq<Entry>)
    ensures |r| == |es|
    ensures forall i :: 0 <= i < |es| ==> r[i] == ClearIf(es[i], w)
  {
    seq(|es|, i requires 0 <= i < |es| => ClearIf(es[i], w))
  }

  /** The items a purge reports, in the order it reports them. */
  function Reported(es: seq<Entry>, w: Entry -> bool): (r: seq<QueueItem>)
    ensures |r| <= |es|
  {
    if es == [] then []
    else Reported(es[..|es| - 1], w) + if Matches(Last(es), w) then [Cleared(Last(es)).item] else []
  }

  predicate IsClearedByte(es: seq<Entry>, w: Entry -> bool, j: int)
  {
    exists i :: 0 <= i < |es| && Matches(es[i], w) && j == es[i].pos + USED_OFFSET
  }

  /** The buffer with the used flag of every matching item cleared. */
  function ClearBytes(acc: seq<byte>, es: seq<Entry>, w: Entry -> bool): (r: seq<byte>)
    ensures |r| == |acc|
    ensures forall j :: 0 <= j < |acc| ==> r[j] == if IsClearedByte(es, w, j) then 0 else acc[j]
  {
    seq(|acc|, j requires 0 <= j < |acc| => if IsClearedByte(es, w, j) then 0 else acc[j])
  }

  datatype Purged = Purged(q: QueueData, removed: seq<QueueItem>)

  /** Remove every live entry picked by `w` in one pass and trim once. */
  function RemoveWhere(q: QueueData, w: Entry -> bool): Purged
  {
    var es := Entries(q);
    var removed := Reported(es, w);
    var h := q.header.(
      itemCount := SatSub(q.header.itemCount, |removed|),
      cursor := Min(q.header.cursor, LastUsedEnd(ClearWhere(es, w))));
    Purged(QueueData(h, ClearBytes(q.acc, es, w)), removed)
  }

  function OnItem(pred: QueueItem -> bool): Entry -> bool { (e: Entry) => pred(e.item) }

  /** `remove_items_matching`. */
  function RemoveMatching(q: QueueData, pred: QueueItem -> bool): Purged { RemoveWhere(q, OnItem(pred)) }

  // -------------------------------------------------------------- insertion

  /** What the caller asks to have stored. */
  datatype Payload = Payload(disc: seq<byte>, metas: seq<CompactMeta>, args: seq<byte>)

  function PayloadBytes(p: Payload): (r: seq<byte>)
    ensures |r| == |p.disc| + META_SIZE * |p.metas| + |p.args|
  {
    p.disc + EncodeMetas(p.metas) + p.args
  }

  function TotalNeeded(p: Payload): nat { ITEM_SIZE + |PayloadBytes(p)| }

  function RequiredSpan(p: Payload): nat { AlignUp(TotalNeeded(p)) }

  /** `write_item_at`: the base item with its extents filled in.  The offsets are
      cast to u32 and the lengths to u16. */
  function PlacedItem(base: QueueItem, pos: nat, p: Payload): QueueItem
  {
    base.(
      discOffset := (pos + ITEM_SIZE) % 0x1_0000_0000,
      metasOffset := (pos + ITEM_SIZE + |p.disc|) % 0x1_0000_0000,
      argsOffset := (pos + ITEM_SIZE + |p.disc| + META_SIZE * |p.metas|) % 0x1_0000_0000,
      discLen := |p.disc| % 0x1_0000,
      metasLen := |p.metas| % 0x1_0000,
      argsLen := |p.args| % 0x1_0000,
      used := 1)
  }

  function WriteItem(acc: seq<byte>, pos: nat, item: QueueItem, p: Payload): (r: seq<byte>)
    requires pos + TotalNeeded(p) <= |acc|
    ensures |r| == |acc|
  {
    Overwrite(acc, pos, EncodeItem(item) + PayloadBytes(p))
  }

  datatype Hole = Hole(pos: nat, logicalIndex: nat)

  /** The first free item whose span is exactly `span`, with the number of live
      items before it. */
  function FirstHole(es: seq<Entry>, span: nat): Option<Hole>
  {
    if es == [] then None
    else
      var before := es[..|es| - 1];
      var found := FirstHole(before, span);
      if found.None? && !IsUsed(Last(es)) && Last(es).next - Last(es).pos == span
      then Some(Hole(Last(es).pos, |Used(before)|))
      else found
  }

  datatype Added = Added(q: QueueData, index: nat, pos: nat)

  function SatInc(x: u32): u32 { if x < U32_MAX then x + 1 else x }

  /** Write the request over a free item. */
  function ReuseHole(q: QueueData, hole: Hole, base: QueueItem, p: Payload, idFromPos: u32 -> Bytes32): Result<Added>
    requires hole.pos < q.header.cursor
  {
    if hole.pos + TotalNeeded(p) > |q.acc| then Err(AccountDataTooSmall)
    else
      var item := PlacedItem(base.(id := idFromPos(hole.pos)), hole.pos, p);
      var h := q.header.(itemCount := SatInc(q.header.itemCount));
      Ok(Added(QueueData(h, WriteItem(q.acc, hole.pos, item, p)), hole.logicalIndex, hole.pos))
  }

  /** Write the request at the aligned cursor, zeroing the padding before it. */
  function AppendItem(q: QueueData, base: QueueItem, p: Payload, idFromPos: u32 -> Bytes32): Result<Added>
    requires |q.acc| < 0x1_0000_0000
  {
    var pos := AlignUp(q.header.cursor);
    if pos + TotalNeeded(p) > |q.acc| then Err(AccountDataTooSmall)
    else
      var padding := seq(pos - q.header.cursor, i => 0);
      var item := PlacedItem(base.(id := idFromPos(pos)), pos, p);
      var acc := WriteItem(Overwrite(q.acc, q.header.cursor, padding), pos, item, p);
      var h := q.header.(cursor := pos + TotalNeeded(p), itemCount := SatInc(q.header.itemCount));
      Ok(Added(QueueData(h, acc), q.header.itemCount, pos))
  }

  /** `add_item_with_id`. */
  function AddItem(q: QueueData, base: QueueItem, p: Payload, idFromPos: u32 -> Bytes32): Result<Added>
    requires |q.acc| < 0x1_0000_0000
  {
    if |p.metas| > MAX_CALLBACK_ACCOUNTS || |p.args| > MAX_ARGS_LEN then Err(ArgumentSizeTooLarge)
    else
      var hole := FirstHole(Entries(q), RequiredSpan(p));
      var trimmed := Trim(q);
      if hole.Some? && hole.value.pos < trimmed.header.cursor
      then ReuseHole(trimmed, hole.value, base, p, idFromPos)
      else AppendItem(trimmed, base, p, idFromPos)
  }

  // ---------------------------------------------------- payload as read back

  /** What the payload accessors of an item return. */
  predicate PayloadReadable(acc: seq<byte>, it: QueueItem)
  {
    && it.discOffset + it.discLen <= |acc|
    && it.metasOffset + META_SIZE * it.metasLen <= |acc|
    && it.argsOffset + it.argsLen <= |acc|
  }

  function ReadPayload(acc: seq<byte>, it: QueueItem): Payload
    requires PayloadReadable(acc, it)
  {
    Payload(
      acc[it.discOffset..it.discOffset + it.discLen],
      DecodeMetas(acc[it.metasOffset..it.metasOffset + META_SIZE * it.metasLen]),
      acc[it.argsOffset..it.argsOffset + it.argsLen])
  }
}
