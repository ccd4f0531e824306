/** The invariant of a queue account, what it means for a reader, and that
    removals keep it. */
module QueueInvariant {
  import opened Bytes
  import opened QueueItems
  import opened QueueSpec
  import opened QueueTiling
  import opened QueueRemoval

  /** The item's payload follows it immediately: discriminator, metas, args. */
  predicate Canonical(e: Entry)
  {
    && e.item.discOffset == e.pos + ITEM_SIZE
    && e.item.metasOffset == e.item.discOffset + e.item.discLen
    && e.item.argsOffset == e.item.metasOffset + META_SIZE * e.item.metasLen
  }

  /** Where the cursor may stand: at the start of an empty item area, or at the
      end of the last item, which is live. */
  predicate CursorFits(es: seq<Entry>, cursor: nat, len: nat)
  {
    if es == [] then cursor == ITEMS_START
    else
      && IsUsed(Last(es))
      && Last(es).pos + Total(Last(es).item) <= cursor <= Last(es).next
      && cursor <= len
  }

  predicate WellFormed(q: QueueData)
  {
    && HEADER_SIZE <= |q.acc| <= MAX_QUEUE_ACCOUNT_SIZE - 8
    && (forall i :: 0 <= i < |Entries(q)| ==> Canonical(Entries(q)[i]))
    && CursorFits(Entries(q), q.header.cursor, |q.acc|)
    && q.header.itemCount == |Live(q)|
  }

  lemma WellFormedSize(q: QueueData)
    requires WellFormed(q)
    ensures HEADER_SIZE <= |q.acc| < 0x1_0000_0000
  {
  }

  lemma WellFormedTiles(q: QueueData)
    requires WellFormed(q)
    ensures Tiles(q.acc, Entries(q), ITEMS_START, AlignUp(q.header.cursor))
    ensures Trimmed(q)
  {
    hide EntryAt;
    var es := Entries(q);
    var to := ScanTiles(q.acc, ITEMS_START, ScanEnd(q));
    if es != [] {
      NextIsAligned(q.acc, Last(es));
      AlignBetween(Last(es).pos + Total(Last(es).item), q.header.cursor);
    }
    TrimHolesPrefix(es);
  }

  lemma NextIsAligned(acc: seq<byte>, e: Entry)
    requires e.pos + ITEM_SIZE <= |acc| && e == EntryAt(acc, e.pos)
    ensures e.next == AlignUp(e.pos + Total(e.item))
  {
    hide DecodeItem;
  }

  lemma AlignBetween(x: nat, y: nat)
    requires x <= y <= AlignUp(x)
    ensures AlignUp(y) == AlignUp(x)
  {
  }

  /** The tiling invariant, spelled out: from offset 16 to the aligned cursor the
      items follow each other without gap or overlap, each 8-aligned, each with
      its payload inside its own extent and inside the buffer. */
  lemma TilingInvariant(q: QueueData, i: nat)
    requires WellFormed(q) && i < |Entries(q)|
    ensures var es := Entries(q);
            && es[i].pos % 8 == 0
            && es[i].pos == (if i == 0 then ITEMS_START else es[i - 1].next)
            && (i == |es| - 1 ==> es[i].next == AlignUp(q.header.cursor))
            && es[i].next == AlignUp(es[i].pos + Total(es[i].item))
            && es[i].pos + Total(es[i].item) <= q.header.cursor <= |q.acc|
            && (forall j :: i < j < |es| ==> es[i].next <= es[j].pos)
    ensures PayloadReadable(q.acc, Entries(q)[i].item)
  {
    hide EntryAt, Entries, AlignUp, Used;
    var es := Entries(q);
    var to := AlignUp(q.header.cursor);
    WellFormedTiles(q);
    AlignUpNearest(es[i].pos + Total(es[i].item), 0);
    ChainOrdered(es, ITEMS_START, to, i, |es| - 1);
    if i > 0 { assert es[i - 1].next == es[i].pos; }
    forall j | i < j < |es| ensures es[i].next <= es[j].pos {
      ChainStep(es, ITEMS_START, to, i, j);
    }
    NextIsAligned(q.acc, es[i]);
  }

  // ---------------------------------------------------- payloads and framing

  /** The bytes of an item's payload decide what the accessors return. */
  lemma PayloadFrame(acc: seq<byte>, acc': seq<byte>, e: Entry)
    requires Canonical(e) && |acc| == |acc'|
    requires e.pos + Total(e.item) <= |acc|
    requires forall j :: e.pos + ITEM_SIZE <= j < e.pos + Total(e.item) ==> acc[j] == acc'[j]
    ensures PayloadReadable(acc, e.item) && PayloadReadable(acc', e.item)
    ensures ReadPayload(acc, e.item) == ReadPayload(acc', e.item)
  {
    var it := e.item;
    assert acc[it.discOffset..it.discOffset + it.discLen] == acc'[it.discOffset..it.discOffset + it.discLen];
    assert acc[it.metasOffset..it.metasOffset + META_SIZE * it.metasLen]
        == acc'[it.metasOffset..it.metasOffset + META_SIZE * it.metasLen];
    assert acc[it.argsOffset..it.argsOffset + it.argsLen] == acc'[it.argsOffset..it.argsOffset + it.argsLen];
  }

  /** Clearing flags leaves every payload as it was, also those of the items
      whose flag is cleared. */
  lemma PayloadSurvivesRemoval(q: QueueData, w: Entry -> bool, i: nat)
    requires WellFormed(q) && i < |Entries(q)|
    ensures var it := Entries(q)[i].item;
            && PayloadReadable(q.acc, it)
            && PayloadReadable(RemoveWhere(q, w).q.acc, it)
            && ReadPayload(RemoveWhere(q, w).q.acc, it) == ReadPayload(q.acc, it)
  {
    var es := Entries(q);
    var acc' := ClearBytes(q.acc, es, w);
    TilingInvariant(q, i);
    hide Entries, ClearBytes;
    forall j | es[i].pos + ITEM_SIZE <= j < es[i].pos + Total(es[i].item)
      ensures acc'[j] == q.acc[j]
    {
      forall k | 0 <= k < |es| && j == es[k].pos + USED_OFFSET ensures false {
        if k < i { TilingInvariant(q, k); }
      }
    }
    PayloadFrame(q.acc, acc', es[i]);
  }

  // ------------------------------------------------------ removals keep it

  lemma {:induction false} FilterCounts(es: seq<Entry>, w: Entry -> bool)
    ensures |Filter(es, w)| + |Filter(es, Not(w))| == |es|
  {
    if es != [] {
      FilterCounts(es[..|es| - 1], w);
    }
  }

  lemma TotalOfCleared(e: Entry, w: Entry -> bool)
    ensures Total(ClearIf(e, w).item) == Total(e.item)
  {
  }

  lemma CursorIsFit(q: QueueData)
    requires WellFormed(q)
    ensures CursorFits(Entries(q), q.header.cursor, |q.acc|)
  {
  }

  lemma CursorAfterRemoval(q: QueueData, w: Entry -> bool)
    requires WellFormed(q)
    ensures CursorFits(Entries(RemoveWhere(q, w).q), RemoveWhere(q, w).q.header.cursor, |q.acc|)
  {
    hide Entries, Used, TrimHoles, LastUsedEnd, ClearBytes, Reported, WellFormed, Total;
    var es := Entries(q);
    var cs := ClearWhere(es, w);
    var ts := TrimHoles(cs);
    EntriesRemoveWhere(q, w);
    TrimHolesPrefix(cs);
    CursorIsFit(q);
    if es != [] { TilingInvariant(q, 0); }
    if ts != [] {
      var m := |ts| - 1;
      assert ts[m] == cs[m] == ClearIf(es[m], w);
      TotalOfCleared(es[m], w);
      TilingInvariant(q, m);
      AlignUpNearest(es[m].pos + Total(es[m].item), 0);
      if m < |es| - 1 {
        TilingInvariant(q, |es| - 1);
      }
    }
  }

  /** Every removal keeps the invariant. */
  lemma RemovalKeepsInvariant(q: QueueData, w: Entry -> bool)
    requires WellFormed(q)
    ensures WellFormed(RemoveWhere(q, w).q)
  {
    hide Entries, Used, TrimHoles, LastUsedEnd, ClearBytes, Filter, CursorFits;
    var es := Entries(q);
    var cs := ClearWhere(es, w);
    EntriesRemoveWhere(q, w);
    TrimHolesPrefix(cs);
    LiveAfterRemoveWhere(q, w);
    FilterCounts(Live(q), w);
    CursorAfterRemoval(q, w);
    forall i | 0 <= i < |TrimHoles(cs)| ensures Canonical(TrimHoles(cs)[i]) {
      assert TrimHoles(cs)[i] == cs[i] == ClearIf(es[i], w);
    }
  }
}
