/** Insertion: exactly when it succeeds, where the item goes, and that the
    invariant and every other request's payload are kept. */
module QueueInsertion {
  import opened Bytes
  import opened QueueItems
  import opened QueueSpec
  import opened QueueTiling
  import opened QueueRemoval
  import opened QueueInvariant

  predicate WithinLimits(p: Payload)
  {
    |p.metas| <= MAX_CALLBACK_ACCOUNTS && |p.args| <= MAX_ARGS_LEN
  }

  predicate IsHole(e: Entry, span: nat) { !IsUsed(e) && e.next - e.pos == span }

  /** A free item of exactly the required span lies below the last live item. */
  predicate HasExactHole(q: QueueData, span: nat)
  {
    exists i :: 0 <= i < |Entries(q)| && IsHole(Entries(q)[i], span)
  }

  /** The entry that storing a request at `pos` creates. */
  function NewEntry(pos: nat, base: QueueItem, p: Payload): Entry
  {
    Entry(pos, pos + RequiredSpan(p), PlacedItem(base, pos, p))
  }

  predicate TailFits(q: QueueData, p: Payload)
  {
    AlignUp(q.header.cursor) + TotalNeeded(p) <= |q.acc|
  }

  lemma {:induction false} FirstHoleIndex(es: seq<Entry>, span: nat) returns (i: nat)
    ensures FirstHole(es, span).Some? <==> i < |es|
    ensures i < |es| ==> IsHole(es[i], span) && FirstHole(es, span) == Some(Hole(es[i].pos, |Used(es[..i])|))
    ensures forall j :: 0 <= j < i && j < |es| ==> !IsHole(es[j], span)
  {
    if es == [] {
      i := 0;
    } else {
      var before := es[..|es| - 1];
      i := FirstHoleIndex(before, span);
      if i < |before| {
        assert before[..i] == es[..i];
      } else if IsHole(Last(es), span) {
        i := |es| - 1;
      } else {
        i := |es|;
      }
    }
  }

  /** Where the parts of a written item are found. */
  lemma WrittenParts(acc: seq<byte>, pos: nat, item: QueueItem, p: Payload)
    requires pos + TotalNeeded(p) <= |acc|
    ensures var acc' := WriteItem(acc, pos, item, p);
            var d := pos + ITEM_SIZE;
            var m := d + |p.disc|;
            var a := m + META_SIZE * |p.metas|;
            && acc'[pos..d] == EncodeItem(item)
            && acc'[d..m] == p.disc
            && acc'[m..a] == EncodeMetas(p.metas)
            && acc'[a..a + |p.args|] == p.args
  {
    hide EncodeItem, EncodeMetas;
    var acc' := WriteItem(acc, pos, item, p);
    var d := pos + ITEM_SIZE;
    StoredConcat(acc', pos, EncodeItem(item), PayloadBytes(p));
    hide WriteItem;
    StoredConcat(acc', d, p.disc + EncodeMetas(p.metas), p.args);
    StoredConcat(acc', d, p.disc, EncodeMetas(p.metas));
  }

  lemma FitsU16(x: nat)
    requires x < 0x1_0000
    ensures x % 0x1_0000 == x
  {
  }

  lemma FitsU32(x: nat)
    requires x < 0x1_0000_0000
    ensures x % 0x1_0000_0000 == x
  {
  }

  /** Within the limits no cast in `write_item_at` loses anything. */
  lemma PlacedExtents(base: QueueItem, pos: nat, p: Payload)
    requires pos + TotalNeeded(p) < 0x1_0000_0000
    requires |p.disc| < 0x1_0000 && WithinLimits(p)
    ensures var it := PlacedItem(base, pos, p);
            && it.discOffset == pos + ITEM_SIZE
            && it.metasOffset == pos + ITEM_SIZE + |p.disc|
            && it.argsOffset == pos + ITEM_SIZE + |p.disc| + META_SIZE * |p.metas|
            && it.discLen == |p.disc| && it.metasLen == |p.metas| && it.argsLen == |p.args|
            && Total(it) == TotalNeeded(p)
  {
    FitsU16(|p.disc|);
    FitsU16(|p.metas|);
    FitsU16(|p.args|);
    FitsU32(pos + ITEM_SIZE);
    FitsU32(pos + ITEM_SIZE + |p.disc|);
    FitsU32(pos + ITEM_SIZE + |p.disc| + META_SIZE * |p.metas|);
  }

  lemma WrittenPayload(acc: seq<byte>, pos: nat, base: QueueItem, p: Payload)
    requires pos + TotalNeeded(p) <= |acc| < 0x1_0000_0000
    requires |p.disc| < 0x1_0000 && WithinLimits(p)
    ensures var item := PlacedItem(base, pos, p);
            var acc' := WriteItem(acc, pos, item, p);
            PayloadReadable(acc', item) && ReadPayload(acc', item) == p
  {
    hide EncodeItem, EncodeMetas, WriteItem, DecodeMetas, PayloadBytes, PlacedItem;
    PlacedExtents(base, pos, p);
    WrittenParts(acc, pos, PlacedItem(base, pos, p), p);
    MetasRoundTrip(p.metas);
  }

  /** The payload reads back as given exactly when the discriminator's length fits
      its 16-bit field: nothing below the program's own limit checks that. */
  lemma PayloadStoredIffDiscFits(acc: seq<byte>, pos: nat, base: QueueItem, p: Payload)
    requires pos + TotalNeeded(p) <= |acc| < 0x1_0000_0000 && WithinLimits(p)
    ensures var item := PlacedItem(base, pos, p);
            var acc' := WriteItem(acc, pos, item, p);
            |p.disc| < 0x1_0000 <==> PayloadReadable(acc', item) && ReadPayload(acc', item) == p
  {
    hide EncodeItem, EncodeMetas, WriteItem, DecodeMetas, PayloadBytes;
    if |p.disc| < 0x1_0000 {
      WrittenPayload(acc, pos, base, p);
    }
  }

  /** The entry a scan finds where an item has just been written. */
  lemma WrittenEntry(acc: seq<byte>, pos: nat, base: QueueItem, p: Payload)
    requires pos % 8 == 0 && pos + TotalNeeded(p) <= |acc| < 0x1_0000_0000
    requires |p.disc| < 0x1_0000 && WithinLimits(p)
    ensures var item := PlacedItem(base, pos, p);
            var e := Entry(pos, pos + RequiredSpan(p), item);
            && EntryAt(WriteItem(acc, pos, item, p), pos) == e
            && Canonical(e)
            && Total(item) == TotalNeeded(p)
  {
    hide DecodeItem, EncodeItem, WriteItem, EncodeMetas, PayloadBytes, PlacedItem, AlignUp, Total;
    var item := PlacedItem(base, pos, p);
    PlacedExtents(base, pos, p);
    WrittenParts(acc, pos, item, p);
    ItemRoundTrip(item);
    AlignUpNearest(TotalNeeded(p), pos);
  }

  /** An item is read from its own 96 bytes only. */
  lemma EntryFrame(acc: seq<byte>, acc': seq<byte>, pos: nat)
    requires |acc| == |acc'| && pos + ITEM_SIZE <= |acc|
    requires forall j :: pos <= j < pos + ITEM_SIZE ==> acc[j] == acc'[j]
    ensures EntryAt(acc', pos) == EntryAt(acc, pos)
  {
    hide DecodeItem;
    assert acc[pos..pos + ITEM_SIZE] == acc'[pos..pos + ITEM_SIZE];
  }

  lemma ChainReplaced(es: seq<Entry>, from: nat, to: nat, i: nat, e: Entry)
    requires Chain(es, from, to) && i < |es|
    requires e.pos == es[i].pos && e.next == es[i].next
    ensures Chain(es[i := e], from, to)
  {
  }

  lemma ChainAppended(es: seq<Entry>, from: nat, to: nat, e: Entry)
    requires Chain(es, from, to)
    requires e.pos == to && e.next >= e.pos + ITEM_SIZE && e.next % 8 == 0
    ensures Chain(es + [e], from, e.next)
  {
  }

  // ----------------------------------------------------------- reuse a hole

  /** Bytes outside the hole's extent are not touched by a reuse. */
  lemma ReuseFrame(q: QueueData, i: nat, item: QueueItem, p: Payload)
    requires WellFormed(q) && i < |Entries(q)| && IsHole(Entries(q)[i], RequiredSpan(p))
    ensures i < |Entries(q)| - 1
    ensures Entries(q)[i].pos + TotalNeeded(p) <= |q.acc|
    ensures var acc' := WriteItem(q.acc, Entries(q)[i].pos, item, p);
            forall j :: 0 <= j < |q.acc| && !(Entries(q)[i].pos <= j < Entries(q)[i].next) ==> acc'[j] == q.acc[j]
  {
    TilingInvariant(q, i);
    TilingInvariant(q, |Entries(q)| - 1);
    hide Entries, EncodeItem, PayloadBytes;
    AlignUpNearest(TotalNeeded(p), 0);
  }

  /** Rewriting one tile in place replaces that entry and no other. */
  lemma ReplaceTile(q: QueueData, i: nat, acc': seq<byte>, e: Entry, h: Header)
    requires WellFormed(q) && i < |Entries(q)| - 1
    requires h.cursor == q.header.cursor && |acc'| == |q.acc|
    requires e.pos == Entries(q)[i].pos && e.next == Entries(q)[i].next
    requires e.pos + ITEM_SIZE <= |acc'| && e == EntryAt(acc', e.pos)
    requires forall j :: 0 <= j < |q.acc| && !(e.pos <= j < e.next) ==> acc'[j] == q.acc[j]
    ensures Entries(QueueData(h, acc')) == Entries(q)[i := e]
  {
    hide Entries, EntryAt, WellFormed;
    var es := Entries(q);
    var to := AlignUp(q.header.cursor);
    WellFormedTiles(q);
    ChainReplaced(es, ITEMS_START, to, i, e);
    forall j | 0 <= j < |es| && j != i ensures es[j] == EntryAt(acc', es[j].pos) {
      if j < i { ChainStep(es, ITEMS_START, to, j, i); } else { ChainStep(es, ITEMS_START, to, i, j); }
      EntryFrame(q.acc, acc', es[j].pos);
    }
    TilingInvariant(q, |es| - 1);
    assert Holds(acc', es[i := e]);
    TilesScan(acc', es[i := e], ITEMS_START, to, ScanEnd(q));
    EntriesAre(QueueData(h, acc'));
  }

  lemma EntriesAre(q: QueueData)
    ensures Entries(q) == Scan(q.acc, ITEMS_START, ScanEnd(q))
  {
  }

  lemma ReuseEntries(q: QueueData, i: nat, base: QueueItem, p: Payload, h: Header)
    requires WellFormed(q) && i < |Entries(q)| && IsHole(Entries(q)[i], RequiredSpan(p))
    requires |p.disc| < 0x1_0000 && WithinLimits(p)
    requires h.cursor == q.header.cursor
    requires Entries(q)[i].pos + TotalNeeded(p) <= |q.acc|
    ensures var e := NewEntry(Entries(q)[i].pos, base, p);
            && Entries(QueueData(h, WriteItem(q.acc, e.pos, e.item, p))) == Entries(q)[i := e]
            && Canonical(e)
  {
    hide Entries, EntryAt, WriteItem, WellFormed, PayloadBytes, PlacedItem;
    WellFormedSize(q);
    var es := Entries(q);
    var e := NewEntry(es[i].pos, base, p);
    TilingInvariant(q, i);
    WrittenEntry(q.acc, e.pos, base, p);
    ReuseFrame(q, i, e.item, p);
    ReplaceTile(q, i, WriteItem(q.acc, e.pos, e.item, p), e, h);
  }

  // --------------------------------------------------- append after the last

  /** Writing an item at the aligned cursor adds that entry and changes no other. */
  lemma AppendTile(q: QueueData, acc': seq<byte>, e: Entry, h: Header)
    requires WellFormed(q) && |acc'| == |q.acc|
    requires e.pos == AlignUp(q.header.cursor)
    requires e.pos + ITEM_SIZE <= |acc'| && e == EntryAt(acc', e.pos)
    requires h.cursor == e.pos + Total(e.item) <= |acc'|
    requires forall j :: 0 <= j < q.header.cursor ==> acc'[j] == q.acc[j]
    ensures Entries(QueueData(h, acc')) == Entries(q) + [e]
  {
    hide Entries, EntryAt, WellFormed;
    var es := Entries(q);
    WellFormedTiles(q);
    NextIsAligned(acc', e);
    ChainAppended(es, ITEMS_START, e.pos, e);
    forall j | 0 <= j < |es| ensures es[j] == EntryAt(acc', es[j].pos) {
      TilingInvariant(q, j);
      EntryFrame(q.acc, acc', es[j].pos);
    }
    assert Holds(acc', es + [e]);
    TilesScan(acc', es + [e], ITEMS_START, e.next, h.cursor);
    EntriesAre(QueueData(h, acc'));
  }

  /** The buffer after an append: padding zeroed, then the item written. */
  ghost function AppendBytes(q: QueueData, item: QueueItem, p: Payload): seq<byte>
    requires TailFits(q, p)
  {
    WriteItem(Padded(q), AlignUp(q.header.cursor), item, p)
  }

  ghost function Padded(q: QueueData): (r: seq<byte>)
    requires AlignUp(q.header.cursor) <= |q.acc|
    ensures |r| == |q.acc|
    ensures forall j :: 0 <= j < q.header.cursor ==> r[j] == q.acc[j]
  {
    Overwrite(q.acc, q.header.cursor, seq(AlignUp(q.header.cursor) - q.header.cursor, i => 0))
  }

  lemma AppendFrame(q: QueueData, item: QueueItem, p: Payload)
    requires TailFits(q, p)
    ensures |AppendBytes(q, item, p)| == |q.acc|
    ensures forall j :: 0 <= j < q.header.cursor ==> AppendBytes(q, item, p)[j] == q.acc[j]
  {
    hide EncodeItem, PayloadBytes, Padded;
  }

  lemma AppendedEntry(q: QueueData, base: QueueItem, p: Payload)
    requires WellFormed(q) && TailFits(q, p)
    requires |p.disc| < 0x1_0000 && WithinLimits(p)
    ensures var e := NewEntry(AlignUp(q.header.cursor), base, p);
            && e.pos + ITEM_SIZE <= |AppendBytes(q, e.item, p)|
            && EntryAt(AppendBytes(q, e.item, p), e.pos) == e
            && Canonical(e)
            && Total(e.item) == TotalNeeded(p)
  {
    hide Entries, EntryAt, WriteItem, WellFormed, PayloadBytes, PlacedItem, Total, Padded, AlignUp;
    WellFormedSize(q);
    AlignUpNearest(q.header.cursor, 0);
    WrittenEntry(Padded(q), AlignUp(q.header.cursor), base, p);
  }

  lemma AppendEntries(q: QueueData, base: QueueItem, p: Payload, h: Header)
    requires WellFormed(q) && TailFits(q, p)
    requires |p.disc| < 0x1_0000 && WithinLimits(p)
    requires h.cursor == AlignUp(q.header.cursor) + TotalNeeded(p)
    ensures var e := NewEntry(AlignUp(q.header.cursor), base, p);
            Entries(QueueData(h, AppendBytes(q, e.item, p))) == Entries(q) + [e]
  {
    hide Entries, EntryAt, WellFormed, PayloadBytes, PlacedItem, Total, AppendBytes, AlignUp;
    var e := NewEntry(AlignUp(q.header.cursor), base, p);
    AppendedEntry(q, base, p);
    AppendFrame(q, e.item, p);
    AppendTile(q, AppendBytes(q, e.item, p), e, h);
  }

  // ------------------------------------------------------------ the outcome

  /** The invariant survives replacing a free entry by a live one. */
  lemma ReplacedKeepsInvariant(q: QueueData, i: nat, e: Entry, q': QueueData)
    requires WellFormed(q) && i < |Entries(q)| - 1 && !IsUsed(Entries(q)[i])
    requires IsUsed(e) && Canonical(e)
    requires Entries(q') == Entries(q)[i := e] && |q'.acc| == |q.acc|
    requires q'.header == q.header.(itemCount := SatInc(q.header.itemCount))
    ensures WellFormed(q')
    ensures var k := |Used(Entries(q)[..i])|;
            k <= |Live(q)| && Live(q') == Live(q)[..k] + [e] + Live(q)[k..]
  {
    hide Entries, Used;
    EntriesBound(q);
    UsedReplaced(Entries(q), i, e);
  }

  lemma UsedReplaced(es: seq<Entry>, i: nat, e: Entry)
    requires i < |es| && !IsUsed(es[i]) && IsUsed(e)
    ensures var k := |Used(es[..i])|;
            k <= |Used(es)| && Used(es[i := e]) == Used(es)[..k] + [e] + Used(es)[k..]
  {
    hide Used;
    UsedSplit(es, i);
    UsedSplit(es[i := e], i);
    assert es[i := e][..i] == es[..i];
    assert es[i := e][i + 1..] == es[i + 1..];
  }

  /** The invariant survives adding a live entry at the end. */
  lemma AppendedKeepsInvariant(q: QueueData, e: Entry, q': QueueData)
    requires WellFormed(q)
    requires IsUsed(e) && Canonical(e)
    requires Entries(q') == Entries(q) + [e] && |q'.acc| == |q.acc|
    requires q'.header.itemCount == SatInc(q.header.itemCount)
    requires e.pos + Total(e.item) == q'.header.cursor <= |q'.acc|
    requires q'.header.cursor <= e.next
    ensures WellFormed(q')
    ensures Live(q') == Live(q) + [e]
  {
    hide Entries, Used;
    EntriesBound(q);
    UsedConcat(Entries(q), [e]);
    UsedSingle(e);
  }

  /** What a successful insertion promises. */
  ghost predicate Inserted(q: QueueData, e: Entry, r: Added)
  {
    && WellFormed(r.q)
    && r.pos == e.pos
    && r.index <= |Live(q)|
    && Live(r.q) == Live(q)[..r.index] + [e] + Live(q)[r.index..]
    && r.q.header == q.header.(cursor := r.q.header.cursor, itemCount := r.q.header.itemCount)
  }

  /** The base item with the id derived from the insertion position. */
  function WithId(base: QueueItem, idFromPos: u32 -> Bytes32, pos: u32): QueueItem
  {
    base.(id := idFromPos(pos))
  }

  lemma AddItemReuses(q: QueueData, base: QueueItem, p: Payload, idFromPos: u32 -> Bytes32, hole: Hole)
    requires Trimmed(q) && WithinLimits(p) && |q.acc| < 0x1_0000_0000
    requires FirstHole(Entries(q), RequiredSpan(p)) == Some(hole)
    requires hole.pos < q.header.cursor && hole.pos + TotalNeeded(p) <= |q.acc|
    ensures var item := PlacedItem(WithId(base, idFromPos, hole.pos), hole.pos, p);
            AddItem(q, base, p, idFromPos) == Ok(Added(
              QueueData(q.header.(itemCount := SatInc(q.header.itemCount)), WriteItem(q.acc, hole.pos, item, p)),
              hole.logicalIndex, hole.pos))
  {
    hide Trim, Entries, FirstHole, WriteItem, PlacedItem, PayloadBytes;
  }

  lemma AddItemAppends(q: QueueData, base: QueueItem, p: Payload, idFromPos: u32 -> Bytes32)
    requires Trimmed(q) && WithinLimits(p) && |q.acc| < 0x1_0000_0000
    requires FirstHole(Entries(q), RequiredSpan(p)).None?
    requires TailFits(q, p)
    ensures var pos := AlignUp(q.header.cursor);
            var item := PlacedItem(WithId(base, idFromPos, pos), pos, p);
            var h := q.header.(cursor := pos + TotalNeeded(p), itemCount := SatInc(q.header.itemCount));
            AddItem(q, base, p, idFromPos) == Ok(Added(QueueData(h, AppendBytes(q, item, p)), q.header.itemCount, pos))
  {
    hide Trim, Entries, FirstHole, WriteItem, PlacedItem, PayloadBytes;
  }

  lemma InsertByReuse(q: QueueData, base: QueueItem, p: Payload, idFromPos: u32 -> Bytes32, i: nat)
    requires WellFormed(q) && WithinLimits(p) && |p.disc| < 0x1_0000
    requires i < |Entries(q)| && IsHole(Entries(q)[i], RequiredSpan(p))
    requires FirstHole(Entries(q), RequiredSpan(p)) == Some(Hole(Entries(q)[i].pos, |Used(Entries(q)[..i])|))
    ensures Entries(q)[i].pos <= U32_MAX && |q.acc| < 0x1_0000_0000
    ensures var pos := Entries(q)[i].pos;
            var e := NewEntry(pos, WithId(base, idFromPos, pos), p);
            var r := AddItem(q, base, p, idFromPos);
            r.Ok? && Inserted(q, e, r.value) && r.value.q.header.cursor == q.header.cursor
  {
    hide WriteItem, PayloadBytes, Entries, WellFormed, Used, Total, AlignUp, AddItem, EntryAt, Trim;
    hide FirstHole, Canonical, EncodeItem, Live;
    WellFormedSize(q);
    WellFormedTiles(q);
    TilingInvariant(q, i);
    var pos := Entries(q)[i].pos;
    var e := NewEntry(pos, WithId(base, idFromPos, pos), p);
    ReuseFrame(q, i, e.item, p);
    AddItemReuses(q, base, p, idFromPos, Hole(pos, |Used(Entries(q)[..i])|));
    var h := q.header.(itemCount := SatInc(q.header.itemCount));
    ReuseEntries(q, i, WithId(base, idFromPos, pos), p, h);
    ReplacedKeepsInvariant(q, i, e, QueueData(h, WriteItem(q.acc, pos, e.item, p)));
  }

  lemma InsertByAppend(q: QueueData, base: QueueItem, p: Payload, idFromPos: u32 -> Bytes32)
    requires WellFormed(q) && WithinLimits(p) && |p.disc| < 0x1_0000
    requires FirstHole(Entries(q), RequiredSpan(p)).None?
    requires TailFits(q, p)
    ensures AlignUp(q.header.cursor) <= U32_MAX && |q.acc| < 0x1_0000_0000
    ensures var pos := AlignUp(q.header.cursor);
            var e := NewEntry(pos, WithId(base, idFromPos, pos), p);
            var r := AddItem(q, base, p, idFromPos);
            r.Ok? && Inserted(q, e, r.value) && r.value.index == |Live(q)|
  {
    hide WriteItem, PayloadBytes, Entries, WellFormed, Used, Total, AlignUp, AddItem, AppendBytes, PlacedItem;
    hide EntryAt, Trim, FirstHole, Canonical, EncodeItem, Padded, Live;
    WellFormedSize(q);
    WellFormedTiles(q);
    var pos := AlignUp(q.header.cursor);
    var base' := WithId(base, idFromPos, pos);
    var e := NewEntry(pos, base', p);
    var h := q.header.(cursor := pos + TotalNeeded(p), itemCount := SatInc(q.header.itemCount));
    AddItemAppends(q, base, p, idFromPos);
    AppendedEntry(q, base', p);
    AppendEntries(q, base', p, h);
    AppendFrame(q, e.item, p);
    AlignUpNearest(TotalNeeded(p), 0);
    PlacedIsUsed(base', pos, p);
    CountIsLive(q);
    AppendedKeepsInvariant(q, e, QueueData(h, AppendBytes(q, e.item, p)));
  }

  lemma PlacedIsUsed(base: QueueItem, pos: nat, p: Payload)
    ensures PlacedItem(base, pos, p).used == 1
  {
  }

  lemma CountIsLive(q: QueueData)
    requires WellFormed(q)
    ensures q.header.itemCount == |Live(q)|
  {
  }

  lemma AddItemRefuses(q: QueueData, base: QueueItem, p: Payload, idFromPos: u32 -> Bytes32)
    requires Trimmed(q) && |q.acc| < 0x1_0000_0000
    ensures !WithinLimits(p) ==> AddItem(q, base, p, idFromPos) == Err(ArgumentSizeTooLarge)
    ensures WithinLimits(p) && FirstHole(Entries(q), RequiredSpan(p)).None? && !TailFits(q, p)
            ==> AddItem(q, base, p, idFromPos) == Err(AccountDataTooSmall)
  {
    hide Trim, Entries, FirstHole, WriteItem, PlacedItem, PayloadBytes;
  }

  /** `pos` is where the first free item of that span starts. */
  ghost predicate FirstHoleAt(q: QueueData, span: nat, pos: nat)
  {
    exists i :: 0 <= i < |Entries(q)| && IsHole(Entries(q)[i], span) && Entries(q)[i].pos == pos
             && forall j :: 0 <= j < i ==> !IsHole(Entries(q)[j], span)
  }

  /** Where an insertion that succeeds puts the item: into the first free item of
      exactly the required span if there is one, otherwise at the aligned cursor. */
  ghost predicate PlacedAt(q: QueueData, p: Payload, pos: nat)
  {
    if HasExactHole(q, RequiredSpan(p)) then FirstHoleAt(q, RequiredSpan(p), pos)
    else TailFits(q, p) && pos == AlignUp(q.header.cursor)
  }

  // ------------------------------------ a discriminator that overflows its field

  /** An item found by the scan that is not canonical breaks the invariant. */
  lemma StrayItem(q: QueueData, es: seq<Entry>, pos: nat)
    requires Tiles(q.acc, es, ITEMS_START, pos) && pos + ITEM_SIZE <= ScanEnd(q)
    requires es != [] ==> Last(es).pos + ITEM_SIZE <= ScanEnd(q)
    requires !Canonical(EntryAt(q.acc, pos))
    ensures !WellFormed(q)
  {
    hide EntryAt, Tiles, Canonical, CursorFits, Used;
    ScanThrough(q.acc, es, ITEMS_START, pos, ScanEnd(q));
    assert Entries(q)[|es|] == EntryAt(q.acc, pos);
  }

  /** What a scan finds where an item with too long a discriminator was written. */
  lemma OversizedEntry(acc: seq<byte>, pos: nat, base: QueueItem, p: Payload)
    requires pos + TotalNeeded(p) <= |acc| < 0x1_0000_0000 && |p.disc| >= 0x1_0000
    ensures !Canonical(EntryAt(WriteItem(acc, pos, PlacedItem(base, pos, p), p), pos))
  {
    hide DecodeItem, EncodeItem, WriteItem, EncodeMetas, PayloadBytes, AlignUp, Total;
    var item := PlacedItem(base, pos, p);
    WrittenParts(acc, pos, item, p);
    ItemRoundTrip(item);
    FitsU32(pos + ITEM_SIZE);
    FitsU32(pos + ITEM_SIZE + |p.disc|);
  }

  lemma TilesFrame(acc: seq<byte>, acc': seq<byte>, es: seq<Entry>, from: nat, to: nat)
    requires Tiles(acc, es, from, to) && |acc'| == |acc|
    requires forall i, j :: 0 <= i < |es| && es[i].pos <= j < es[i].pos + ITEM_SIZE ==> acc'[j] == acc[j]
    ensures Tiles(acc', es, from, to)
  {
    hide EntryAt;
    forall i | 0 <= i < |es| ensures es[i] == EntryAt(acc', es[i].pos) {
      EntryFrame(acc, acc', es[i].pos);
    }
  }

  lemma OversizedReuse(q: QueueData, base: QueueItem, p: Payload, h: Header, i: nat)
    requires WellFormed(q) && |p.disc| >= 0x1_0000 && h.cursor == q.header.cursor
    requires i < |Entries(q)| && IsHole(Entries(q)[i], RequiredSpan(p))
    ensures var pos := Entries(q)[i].pos;
            pos + TotalNeeded(p) <= |q.acc| && !WellFormed(QueueData(h, WriteItem(q.acc, pos, PlacedItem(base, pos, p), p)))
  {
    hide WriteItem, PlacedItem, PayloadBytes, Entries, WellFormed, EntryAt, Total, AlignUp, Canonical;
    WellFormedSize(q);
    WellFormedTiles(q);
    var es := Entries(q);
    var pos := es[i].pos;
    var item := PlacedItem(base, pos, p);
    ReuseFrame(q, i, item, p);
    var acc' := WriteItem(q.acc, pos, item, p);
    TilingInvariant(q, |es| - 1);
    ChainStep(es, ITEMS_START, AlignUp(q.header.cursor), i, |es| - 1);
    forall j | 0 <= j < i ensures es[j].pos + ITEM_SIZE <= pos {
      ChainStep(es, ITEMS_START, AlignUp(q.header.cursor), j, i);
    }
    TilesPrefix(q.acc, es, ITEMS_START, AlignUp(q.header.cursor), i);
    TilesFrame(q.acc, acc', es[..i], ITEMS_START, pos);
    OversizedEntry(q.acc, pos, base, p);
    StrayItem(QueueData(h, acc'), es[..i], pos);
  }

  lemma OversizedAppend(q: QueueData, base: QueueItem, p: Payload, h: Header)
    requires WellFormed(q) && |p.disc| >= 0x1_0000 && TailFits(q, p)
    requires h.cursor == AlignUp(q.header.cursor) + TotalNeeded(p)
    ensures !WellFormed(QueueData(h, AppendBytes(q, PlacedItem(base, AlignUp(q.header.cursor), p), p)))
  {
    hide WriteItem, PlacedItem, PayloadBytes, Entries, WellFormed, EntryAt, Total, AlignUp, Canonical, Padded;
    WellFormedSize(q);
    WellFormedTiles(q);
    var es := Entries(q);
    var pos := AlignUp(q.header.cursor);
    var item := PlacedItem(base, pos, p);
    AppendFrame(q, item, p);
    AlignUpNearest(q.header.cursor, 0);
    forall j | 0 <= j < |es| ensures es[j].pos + ITEM_SIZE <= q.header.cursor {
      TilingInvariant(q, j);
      TotalAtLeast(es[j].item);
    }
    TilesFrame(q.acc, AppendBytes(q, item, p), es, ITEMS_START, pos);
    OversizedEntry(Padded(q), pos, base, p);
    StrayItem(QueueData(h, AppendBytes(q, item, p)), es, pos);
  }

  lemma TotalAtLeast(it: QueueItem)
    ensures Total(it) >= ITEM_SIZE
  {
  }

  /** Insertion succeeds exactly when the payload is within the limits and a free item
      of the required span exists or the aligned tail has room.  A success adds the
      item at its place and keeps the invariant exactly when the discriminator's length
      fits its 16-bit field. */
  lemma InsertionExact(q: QueueData, base: QueueItem, p: Payload, idFromPos: u32 -> Bytes32)
    requires WellFormed(q)
    ensures |q.acc| < 0x1_0000_0000
    ensures var r := AddItem(q, base, p, idFromPos);
            && (r.Ok? <==> WithinLimits(p) && (HasExactHole(q, RequiredSpan(p)) || TailFits(q, p)))
            && (r.Err? ==> r.error == if WithinLimits(p) then AccountDataTooSmall else ArgumentSizeTooLarge)
            && (r.Ok? ==> r.value.pos <= U32_MAX && PlacedAt(q, p, r.value.pos))
            && (r.Ok? && |p.disc| < 0x1_0000 ==>
                Inserted(q, NewEntry(r.value.pos, WithId(base, idFromPos, r.value.pos), p), r.value))
            && (r.Ok? ==> (WellFormed(r.value.q) <==> |p.disc| < 0x1_0000))
  {
    hide AddItem, PayloadBytes, Entries, WellFormed, AlignUp, Live, Used, FirstHole, RequiredSpan, TailFits;
    hide WithId, PlacedItem, WithinLimits, IsHole, Trim;
    WellFormedSize(q);
    WellFormedTiles(q);
    AddItemRefuses(q, base, p, idFromPos);
    if WithinLimits(p) {
      var i := FirstHoleIndex(Entries(q), RequiredSpan(p));
      if i < |Entries(q)| {
        if |p.disc| < 0x1_0000 {
          InsertByReuse(q, base, p, idFromPos, i);
        } else {
          OversizedByReuse(q, base, p, idFromPos, i);
        }
      } else if TailFits(q, p) {
        if |p.disc| < 0x1_0000 {
          InsertByAppend(q, base, p, idFromPos);
        } else {
          OversizedByAppend(q, base, p, idFromPos);
        }
      }
    }
  }

  lemma OversizedByReuse(q: QueueData, base: QueueItem, p: Payload, idFromPos: u32 -> Bytes32, i: nat)
    requires WellFormed(q) && WithinLimits(p) && |p.disc| >= 0x1_0000
    requires i < |Entries(q)| && IsHole(Entries(q)[i], RequiredSpan(p))
    requires FirstHole(Entries(q), RequiredSpan(p)) == Some(Hole(Entries(q)[i].pos, |Used(Entries(q)[..i])|))
    ensures |q.acc| < 0x1_0000_0000
    ensures var r := AddItem(q, base, p, idFromPos);
            r.Ok? && r.value.pos == Entries(q)[i].pos <= U32_MAX && !WellFormed(r.value.q)
  {
    hide WriteItem, PayloadBytes, Entries, WellFormed, Used, Total, AlignUp, AddItem, EntryAt, Trim, FirstHole;
    WellFormedSize(q);
    WellFormedTiles(q);
    TilingInvariant(q, i);
    TotalAtLeast(Entries(q)[i].item);
    var pos := Entries(q)[i].pos;
    var h := q.header.(itemCount := SatInc(q.header.itemCount));
    OversizedReuse(q, WithId(base, idFromPos, pos), p, h, i);
    AddItemReuses(q, base, p, idFromPos, Hole(pos, |Used(Entries(q)[..i])|));
  }

  lemma OversizedByAppend(q: QueueData, base: QueueItem, p: Payload, idFromPos: u32 -> Bytes32)
    requires WellFormed(q) && WithinLimits(p) && |p.disc| >= 0x1_0000
    requires FirstHole(Entries(q), RequiredSpan(p)).None? && TailFits(q, p)
    ensures |q.acc| < 0x1_0000_0000
    ensures var r := AddItem(q, base, p, idFromPos);
            r.Ok? && r.value.pos == AlignUp(q.header.cursor) <= U32_MAX && !WellFormed(r.value.q)
  {
    hide WriteItem, PayloadBytes, Entries, WellFormed, AlignUp, AddItem, AppendBytes, PlacedItem, Trim, FirstHole;
    WellFormedSize(q);
    WellFormedTiles(q);
    var pos := AlignUp(q.header.cursor);
    var h := q.header.(cursor := pos + TotalNeeded(p), itemCount := SatInc(q.header.itemCount));
    OversizedAppend(q, WithId(base, idFromPos, pos), p, h);
    AddItemAppends(q, base, p, idFromPos);
  }

  lemma AddItemBytes(q: QueueData, base: QueueItem, p: Payload, idFromPos: u32 -> Bytes32) returns (i: nat)
    requires WellFormed(q)
    requires |q.acc| < 0x1_0000_0000 && AddItem(q, base, p, idFromPos).Ok?
    ensures var r := AddItem(q, base, p, idFromPos).value;
            && r.pos <= U32_MAX && WithinLimits(p)
            && |r.q.acc| == |q.acc|
            && (|p.disc| < 0x1_0000 ==>
                && PayloadReadable(r.q.acc, PlacedItem(WithId(base, idFromPos, r.pos), r.pos, p))
                && ReadPayload(r.q.acc, PlacedItem(WithId(base, idFromPos, r.pos), r.pos, p)) == p)
            && (i < |Entries(q)| ==> !IsUsed(Entries(q)[i]) && r.pos == Entries(q)[i].pos)
            && (i >= |Entries(q)| ==> r.pos == AlignUp(q.header.cursor))
            && (i < |Entries(q)| ==>
                forall j :: 0 <= j < |q.acc| && !(Entries(q)[i].pos <= j < Entries(q)[i].next) ==> r.q.acc[j] == q.acc[j])
            && (i >= |Entries(q)| ==> forall j :: 0 <= j < q.header.cursor && j < |q.acc| ==> r.q.acc[j] == q.acc[j])
  {
    hide AddItem, PayloadBytes, Entries, WellFormed, AlignUp, FirstHole, RequiredSpan, WriteItem, PlacedItem;
    hide Used, EntryAt, Padded, Trim, ReadPayload, PayloadReadable, Total;
    WellFormedTiles(q);
    AddItemRefuses(q, base, p, idFromPos);
    i := FirstHoleIndex(Entries(q), RequiredSpan(p));
    if i < |Entries(q)| {
      var pos := Entries(q)[i].pos;
      TilingInvariant(q, i);
      var base' := WithId(base, idFromPos, pos);
      ReuseFrame(q, i, PlacedItem(base', pos, p), p);
      AddItemReuses(q, base, p, idFromPos, Hole(pos, |Used(Entries(q)[..i])|));
      if |p.disc| < 0x1_0000 { WrittenPayload(q.acc, pos, base', p); }
    } else {
      var pos := AlignUp(q.header.cursor);
      var base' := WithId(base, idFromPos, pos);
      AddItemAppends(q, base, p, idFromPos);
      AppendFrame(q, PlacedItem(base', pos, p), p);
      if |p.disc| < 0x1_0000 { WrittenPayload(Padded(q), pos, base', p); }
    }
  }

  /** Insertion, of whatever payload, leaves the payload of every live request as it
      was. */
  lemma PayloadSurvivesInsertion(q: QueueData, base: QueueItem, p: Payload, idFromPos: u32 -> Bytes32, k: nat)
    requires WellFormed(q)
    requires |q.acc| < 0x1_0000_0000 && AddItem(q, base, p, idFromPos).Ok?
    requires k < |Live(q)|
    ensures var acc' := AddItem(q, base, p, idFromPos).value.q.acc;
            var it := Live(q)[k].item;
            && PayloadReadable(q.acc, it) && PayloadReadable(acc', it)
            && ReadPayload(acc', it) == ReadPayload(q.acc, it)
  {
    hide AddItem, PayloadBytes, Entries, AlignUp, RequiredSpan, PlacedItem, Used, ReadPayload, Total;
    var es := Entries(q);
    var i := AddItemBytes(q, base, p, idFromPos);
    var m := LiveIndex(q, k);
    TilingInvariant(q, m);
    AlignUpNearest(es[m].pos + Total(es[m].item), 0);
    if i < m { TilingInvariant(q, i); }
    PayloadFrame(q.acc, AddItem(q, base, p, idFromPos).value.q.acc, es[m]);
  }

  /** No operation writes below the item area, so the header's own bytes are safe. */
  lemma HeaderBytesUntouched(q: QueueData, base: QueueItem, p: Payload, idFromPos: u32 -> Bytes32, w: Entry -> bool)
    requires WellFormed(q) && |q.acc| < 0x1_0000_0000
    ensures forall j :: 0 <= j < ITEMS_START && j < |q.acc| ==> RemoveWhere(q, w).q.acc[j] == q.acc[j]
    ensures AddItem(q, base, p, idFromPos).Ok? ==>
              var acc' := AddItem(q, base, p, idFromPos).value.q.acc;
              |acc'| == |q.acc| && forall j :: 0 <= j < ITEMS_START && j < |q.acc| ==> acc'[j] == q.acc[j]
  {
    hide AddItem, Entries, PlacedItem, ReadPayload, PayloadReadable, AlignUp;
    ScanBelow(q);
    if AddItem(q, base, p, idFromPos).Ok? {
      var i := AddItemBytes(q, base, p, idFromPos);
    }
  }

  lemma ScanBelow(q: QueueData)
    requires WellFormed(q)
    ensures q.header.cursor >= ITEMS_START
    ensures forall i :: 0 <= i < |Entries(q)| ==> Entries(q)[i].pos >= ITEMS_START
  {
    hide Entries, Used;
    forall i | 0 <= i < |Entries(q)| ensures Entries(q)[i].pos >= ITEMS_START {
      WellFormedTiles(q);
      ChainOrdered(Entries(q), ITEMS_START, AlignUp(q.header.cursor), i, i);
    }
  }
}
