/** The queue account as the program handles it: a header and a byte buffer that
    the operations change in place.  Every method is proved against the function
    of the same purpose in QueueSpec, on arbitrary bytes. */
module QueueAccounts {
  import opened Bytes
  import opened QueueItems
  import opened QueueSpec
  import opened QueueScan
  import opened QueueTiling
  import opened QueueInvariant

  method CopyInto(a: array<byte>, p: nat, b: seq<byte>)
    requires p + |b| <= a.Length
    modifies a
    ensures a[..] == Overwrite(old(a[..]), p, b)
  {
    forall i | 0 <= i < |b| {
      a[p + i] := b[i];
    }
    assert a[..] == Overwrite(old(a[..]), p, b);
  }

  lemma NothingSeen(es: seq<Entry>)
    ensures [] + es == es && Used([]) == []
  {
  }

  function IsIndex(index: nat): (nat, QueueItem) -> bool { (k: nat, it: QueueItem) => k == index }

  function HasId(id: Bytes32): (nat, QueueItem) -> bool { (k: nat, it: QueueItem) => it.id == id }

  lemma {:induction false} FindByIdIs(live: seq<Entry>, id: Bytes32, found: Option<Found>)
    requires FindsFirst(live, HasId(id), found)
    ensures FindById(live, id) == if found.Some? then Some((found.value.index, found.value.item)) else None
  {
    if live != [] {
      var before := live[..|live| - 1];
      if found.Some? && found.value.index < |before| {
        FindByIdIs(before, id, found);
      } else {
        FindByIdIs(before, id, None);
      }
    }
  }

  /** Writing a stored item back with its flag cleared changes that one byte. */
  lemma ClearByOverwrite(acc: seq<byte>, pos: nat)
    requires pos + ITEM_SIZE <= |acc|
    ensures Overwrite(acc, pos, EncodeItem(EntryAt(acc, pos).item.(used := 0))) == acc[pos + USED_OFFSET := 0]
  {
    var b := acc[pos..pos + ITEM_SIZE];
    ClearUsedByte(b);
    hide DecodeItem, EncodeItem;
    assert Overwrite(acc, pos, b[USED_OFFSET := 0]) == acc[pos + USED_OFFSET := 0];
  }

  /** How the purged buffer, report, count and trim position grow by one entry. */
  lemma PurgeStep(acc: seq<byte>, seen: seq<Entry>, e: Entry, w: Entry -> bool)
    requires e.pos + ITEM_SIZE <= |acc|
    ensures ClearBytes(acc, seen + [e], w)
            == if Matches(e, w) then ClearBytes(acc, seen, w)[e.pos + USED_OFFSET := 0] else ClearBytes(acc, seen, w)
    ensures Reported(seen + [e], w) == Reported(seen, w) + if Matches(e, w) then [Cleared(e).item] else []
    ensures LastUsedEnd(ClearWhere(seen + [e], w))
            == if IsUsed(e) && !w(e) then e.next else LastUsedEnd(ClearWhere(seen, w))
  {
    var es := seen + [e];
    forall j ensures IsClearedByte(es, w, j) <==> IsClearedByte(seen, w, j) || (Matches(e, w) && j == e.pos + USED_OFFSET)
    {
      if Matches(e, w) && j == e.pos + USED_OFFSET { assert es[|seen|] == e; }
      if IsClearedByte(seen, w, j) {
        var i :| 0 <= i < |seen| && Matches(seen[i], w) && j == seen[i].pos + USED_OFFSET;
        assert es[i] == seen[i];
      }
    }
    assert es[..|seen|] == seen;
    var cs := ClearWhere(es, w);
    assert cs[..|seen|] == ClearWhere(seen, w);
    assert Last(cs) == ClearIf(e, w);
  }

  /** Discriminator, metas, arguments and then the item: together one write. */
  lemma FourWrites(acc: seq<byte>, pos: nat, item: QueueItem, p: Payload)
    requires pos + TotalNeeded(p) <= |acc|
    ensures var d := pos + ITEM_SIZE;
            var m := d + |p.disc|;
            var a := m + META_SIZE * |p.metas|;
            Overwrite(Overwrite(Overwrite(Overwrite(acc, d, p.disc), m, EncodeMetas(p.metas)), a, p.args), pos, EncodeItem(item))
            == WriteItem(acc, pos, item, p)
  {
    hide EncodeItem, EncodeMetas, Overwrite;
    var d := pos + ITEM_SIZE;
    var metas := EncodeMetas(p.metas);
    OverwriteAdjacent(acc, d, p.disc, metas);
    OverwriteAdjacent(acc, d, p.disc + metas, p.args);
    OverwriteAdjacent(acc, pos, EncodeItem(item), PayloadBytes(p));
  }

  lemma NoPadding(acc: seq<byte>, p: nat, padding: seq<byte>)
    requires p <= |acc| && padding == []
    ensures Overwrite(acc, p, padding) == acc
  {
  }

  lemma NothingPurged(acc: seq<byte>, w: Entry -> bool)
    ensures ClearBytes(acc, [], w) == acc && Reported([], w) == [] && LastUsedEnd(ClearWhere([], w)) == ITEMS_START
  {
  }

  lemma LiveItemAt(q: QueueData, k: nat)
    requires k < |Live(q)|
    ensures var e := Live(q)[k]; e.pos + ITEM_SIZE <= |q.acc| && e == EntryAt(q.acc, e.pos)
  {
    hide EntryAt, Scan, Used;
    var i := UsedIndex(Entries(q), k);
    var to := ScanTiles(q.acc, ITEMS_START, ScanEnd(q));
  }

  class QueueAccount {
    var header: Header
    const acc: array<byte>

    ghost function Data(): QueueData
      reads this, acc
    {
      QueueData(header, acc[..])
    }

    constructor (h: Header, body: array<byte>)
      ensures header == h && acc == body
    {
      header := h;
      acc := body;
    }

    method ScanItems<S, R>(init: S, visit: Visitor<S, R>) returns (s: S, r: Option<R>)
      ensures (s, r) == Walk(Entries(Data()), init, visit)
    {
      hide DecodeItem, Scan, Used, ItemNext;
      s, r := init, None;
      var usedIndex := 0;
      var cursor := ITEMS_START;
      var end := Min(acc.Length, header.cursor);
      ghost var seen: seq<Entry> := [];
      ghost var bytes := acc[..];
      NothingSeen(Scan(bytes, cursor, end));
      while cursor + ITEM_SIZE <= end
        invariant seen + Scan(bytes, cursor, end) == Entries(Data())
        invariant usedIndex == |Used(seen)|
        invariant r.None? && Walk(seen, init, visit) == (s, r)
        decreases acc.Length - cursor
      {
        assert acc[cursor..cursor + ITEM_SIZE] == bytes[cursor..cursor + ITEM_SIZE];
        var item := DecodeItem(acc[cursor..cursor + ITEM_SIZE]);
        var next := ItemNext(cursor, item);
        ghost var e := EntryAt(bytes, cursor);
        ScanStep(bytes, seen, cursor, end);
        WalkAppend(seen, e, init, visit);
        var visited := visit(s, usedIndex, cursor, next, item);
        s, r := visited.0, visited.1;
        if r.Some? {
          WalkStops(seen + [e], Scan(bytes, next, end), init, visit);
          return;
        }
        if item.used == 1 {
          usedIndex := usedIndex + 1;
        }
        seen := seen + [e];
        cursor := next;
      }
      ScanDone(bytes, seen, cursor, end);
    }

    method TrimTrailingHoles()
      modifies this
      ensures Data() == Trim(old(Data()))
    {
      var last, _ := ScanItems(ITEMS_START, TrimVisitor());
      WalkTrim(Entries(Data()));
      if last < header.cursor {
        header := header.(cursor := last);
      }
    }

    /** All live items, in position order. */
    method IterItems() returns (items: seq<QueueItem>)
      ensures items == Items(Live(Data()))
    {
      var found, _ := ScanItems([], IterVisitor());
      WalkIter(Entries(Data()));
      items := found;
    }

    /** The live item with that logical index. */
    method GetItemByIndex(index: nat) returns (r: Option<QueueItem>)
      ensures r == if index < |Live(Data())| then Some(Live(Data())[index].item) else None
    {
      hide Used, Entries, Walk, FindVisitor;
      var _, found := ScanItems((), FindVisitor(IsIndex(index)));
      WalkFindsFirst(Entries(Data()), IsIndex(index));
      r := if found.Some? then Some(found.value.item) else None;
    }

    /** The first live item with that id, and its logical index. */
    method FindItemById(id: Bytes32) returns (r: Option<(nat, QueueItem)>)
      ensures r == FindById(Live(Data()), id)
    {
      hide Used, Entries, Walk, FindVisitor;
      var _, found := ScanItems((), FindVisitor(HasId(id)));
      WalkFindsFirst(Entries(Data()), HasId(id));
      FindByIdIs(Live(Data()), id, found);
      r := if found.Some? then Some((found.value.index, found.value.item)) else None;
    }

    /** Remove the live item with that logical index. */
    method RemoveItem(index: nat) returns (r: Result<QueueItem>)
      modifies this, acc
      ensures match Remove(old(Data()), index)
              case Ok(removed) => r == Ok(removed.item) && Data() == removed.q
              case Err(error) => r == Err(error) && Data() == old(Data())
    {
      hide Used, Entries, Walk, FindVisitor, EncodeItem, DecodeItem, EntryAt, Trim;
      ghost var q := Data();
      var _, found := ScanItems((), FindVisitor(IsIndex(index)));
      WalkFindsFirst(Entries(q), IsIndex(index));
      if found.None? {
        return Err(InvalidQueueIndex);
      }
      LiveItemAt(q, index);
      var item := found.value.item.(used := 0);
      header := header.(itemCount := SatSub(header.itemCount, 1));
      ClearByOverwrite(q.acc, found.value.pos);
      CopyInto(acc, found.value.pos, EncodeItem(item));
      TrimTrailingHoles();
      r := Ok(item);
    }

    /** Remove all matching live items in one pass; returns them as reported. */
    method RemoveItemsMatching(pred: QueueItem -> bool) returns (removed: seq<QueueItem>)
      modifies this, acc
      ensures Purged(Data(), removed) == RemoveMatching(old(Data()), pred)
    {
      hide Scan, DecodeItem, EncodeItem, ItemNext, Reported, ClearBytes, ClearWhere, LastUsedEnd, Overwrite;
      ghost var w := OnItem(pred);
      ghost var q := Data();
      ghost var seen: seq<Entry> := [];
      removed := [];
      var cursor := ITEMS_START;
      var end := Min(acc.Length, header.cursor);
      var last := ITEMS_START;
      NothingSeen(Scan(q.acc, cursor, end));
      NothingPurged(q.acc, w);
      while cursor + ITEM_SIZE <= end
        invariant seen + Scan(q.acc, cursor, end) == Entries(q)
        invariant forall j :: cursor <= j < acc.Length ==> acc[j] == q.acc[j]
        invariant acc[..] == ClearBytes(q.acc, seen, w)
        invariant removed == Reported(seen, w)
        invariant last == LastUsedEnd(ClearWhere(seen, w))
        invariant header == q.header.(itemCount := SatSub(q.header.itemCount, |removed|))
        decreases acc.Length - cursor
      {
        ghost var bytes := acc[..];
        assert bytes[cursor..cursor + ITEM_SIZE] == q.acc[cursor..cursor + ITEM_SIZE];
        var item := DecodeItem(acc[cursor..cursor + ITEM_SIZE]);
        var next := ItemNext(cursor, item);
        ghost var e := EntryAt(q.acc, cursor);
        assert e == EntryAt(bytes, cursor) == Entry(cursor, next, item);
        ScanStep(q.acc, seen, cursor, end);
        PurgeStep(q.acc, seen, e, w);
        if item.used == 1 {
          if pred(item) {
            item := item.(used := 0);
            ClearByOverwrite(bytes, cursor);
            CopyInto(acc, cursor, EncodeItem(item));
            header := header.(itemCount := SatSub(header.itemCount, 1));
            removed := removed + [item];
          } else {
            last := next;
          }
        }
        seen := seen + [e];
        cursor := next;
      }
      ScanDone(q.acc, seen, cursor, end);
      if last < header.cursor {
        header := header.(cursor := last);
      }
    }

    method ScanForReusableSpan(requiredSpan: nat) returns (lastUsedEnd: nat, hole: Option<Hole>)
      ensures lastUsedEnd == LastUsedEnd(Entries(Data()))
      ensures hole == FirstHole(Entries(Data()), requiredSpan)
    {
      var found, _ := ScanItems((ITEMS_START, None), SpanVisitor(requiredSpan));
      WalkSpan(Entries(Data()), requiredSpan);
      lastUsedEnd, hole := found.0, found.1;
    }

    /** Write the payload, then the item with its extents; returns the end. */
    method WriteItemAt(pos: nat, base: QueueItem, p: Payload) returns (r: Result<nat>)
      modifies acc
      ensures pos + TotalNeeded(p) > acc.Length ==> r == Err(AccountDataTooSmall) && acc[..] == old(acc[..])
      ensures pos + TotalNeeded(p) <= acc.Length ==>
                && r == Ok(pos + TotalNeeded(p))
                && acc[..] == WriteItem(old(acc[..]), pos, PlacedItem(base, pos, p), p)
    {
      hide EncodeItem, EncodeMetas, Overwrite, PlacedItem, WriteItem;
      var discOff := pos + ITEM_SIZE;
      var metasOff := discOff + |p.disc|;
      var argsOff := metasOff + META_SIZE * |p.metas|;
      var argsEnd := argsOff + |p.args|;
      if argsEnd > acc.Length {
        return Err(AccountDataTooSmall);
      }
      FourWrites(acc[..], pos, PlacedItem(base, pos, p), p);
      CopyInto(acc, discOff, p.disc);
      CopyInto(acc, metasOff, EncodeMetas(p.metas));
      CopyInto(acc, argsOff, p.args);
      CopyInto(acc, pos, EncodeItem(PlacedItem(base, pos, p)));
      r := Ok(argsEnd);
    }

    method AppendAtCursor(base: QueueItem, p: Payload, idFromPos: u32 -> Bytes32) returns (r: Result<nat>)
      requires acc.Length < 0x1_0000_0000
      modifies this, acc
      ensures match AppendItem(old(Data()), base, p, idFromPos)
              case Ok(added) => r == Ok(added.index) && Data() == added.q
              case Err(error) => r == Err(error) && Data() == old(Data())
    {
      hide WriteItem, PlacedItem, PayloadBytes, Overwrite;
      ghost var q := Data();
      var aligned := AlignUp(header.cursor);
      if aligned + TotalNeeded(p) > acc.Length {
        return Err(AccountDataTooSmall);
      }
      var padding := seq(aligned - header.cursor, i => 0);
      if aligned != header.cursor {
        CopyInto(acc, header.cursor, padding);
        header := header.(cursor := aligned);
      } else {
        NoPadding(q.acc, header.cursor, padding);
      }
      assert acc[..] == Overwrite(q.acc, q.header.cursor, padding);
      var pos := header.cursor;
      var written := WriteItemAt(pos, base.(id := idFromPos(pos)), p);
      header := header.(cursor := written.value);
      var logicalIndex := header.itemCount;
      header := header.(itemCount := SatInc(header.itemCount));
      return Ok(logicalIndex);
    }

    /** Store a request: into the first free item of exactly the required span, or
        after the last live one.  A refusal changes nothing but the trim. */
    method AddItemWithId(base: QueueItem, p: Payload, idFromPos: u32 -> Bytes32) returns (r: Result<nat>)
      requires ITEMS_START <= header.cursor && acc.Length < 0x1_0000_0000
      modifies this, acc
      ensures match AddItem(old(Data()), base, p, idFromPos)
              case Ok(added) => r == Ok(added.index) && Data() == added.q
              case Err(error) => r == Err(error) && (Data() == old(Data()) || Data() == Trim(old(Data())))
      ensures old(WellFormed(Data())) && r.Err? ==> Data() == old(Data())
    {
      if WellFormed(Data()) { WellFormedTiles(Data()); }
      hide WellFormed, Entries, LastUsedEnd, FirstHole, WriteItem, PlacedItem, PayloadBytes, AppendItem;
      hide AlignUp;
      ghost var q := Data();
      if |p.metas| > MAX_CALLBACK_ACCOUNTS || |p.args| > MAX_ARGS_LEN {
        return Err(ArgumentSizeTooLarge);
      }
      var lastUsedEnd, hole := ScanForReusableSpan(RequiredSpan(p));
      if lastUsedEnd < header.cursor {
        header := header.(cursor := lastUsedEnd);
      }
      assert Data() == Trim(q);
      if hole.Some? && hole.value.pos < header.cursor {
        var pos := hole.value.pos;
        var written := WriteItemAt(pos, base.(id := idFromPos(pos)), p);
        if written.Err? {
          return Err(written.error);
        }
        header := header.(itemCount := SatInc(header.itemCount));
        return Ok(hole.value.logicalIndex);
      }
      r := AppendAtCursor(base, p, idFromPos);
    }
  }
}
