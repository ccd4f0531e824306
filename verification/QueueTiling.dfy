/** How scans behave: the items of a queue tile the item area back to back, and
    how the tiling changes under removal, purging and insertion. */
module QueueTiling {
  import opened Bytes
  import opened QueueItems
  import opened QueueSpec

  /** Extents that follow each other from `from` to `to`, each aligned at its end
      and long enough for an item. */
  ghost predicate Chain(es: seq<Entry>, from: nat, to: nat)
  {
    && (es == [] ==> from == to)
    && (es != [] ==> es[0].pos == from && Last(es).next == to)
    && (forall i :: 0 <= i < |es| ==> es[i].pos + ITEM_SIZE <= es[i].next && es[i].next % 8 == 0)
    && (forall i, j :: 0 <= i && j == i + 1 && j < |es| ==> es[i].next == es[j].pos)
  }

  /** Each of `es` is what the buffer holds at its position. */
  ghost predicate Holds(acc: seq<byte>, es: seq<Entry>)
  {
    forall i :: 0 <= i < |es| ==> es[i].pos + ITEM_SIZE <= |acc| && es[i] == EntryAt(acc, es[i].pos)
  }

  /** `es` are the items stored in `acc`, back to back from `from` up to `to`. */
  ghost predicate Tiles(acc: seq<byte>, es: seq<Entry>, from: nat, to: nat)
  {
    Chain(es, from, to) && Holds(acc, es)
  }

  /** AlignUp rounds up to the nearest multiple of eight. */
  lemma AlignUpNearest(x: nat, y: nat)
    requires y % 8 == 0
    ensures AlignUp(x) % 8 == 0 && x <= AlignUp(x) < x + 8
    ensures y >= x ==> y >= AlignUp(x)
    ensures AlignUp(y + x) == y + AlignUp(x)
  {
    var m := y / 8;
    assert y == 8 * m;
    ShiftedQuotient(m, x + 7);
  }

  lemma ShiftedQuotient(m: nat, z: nat)
    ensures (8 * m + z) / 8 == m + z / 8
  {
  }

  /** Tiles are disjoint, ordered and aligned. */
  lemma {:induction false} ChainOrdered(es: seq<Entry>, from: nat, to: nat, i: nat, j: nat)
    requires Chain(es, from, to)
    requires i <= j < |es|
    ensures from <= es[i].pos && es[j].next <= to
    ensures i < j ==> es[i].next <= es[j].pos
    ensures from % 8 == 0 ==> es[i].pos % 8 == 0 && to % 8 == 0
    decreases i, |es| - j
  {
    if i > 0 {
      ChainOrdered(es, from, to, i - 1, i - 1);
      assert es[i - 1].next == es[i].pos;
    }
    if j < |es| - 1 {
      ChainOrdered(es, from, to, i, j + 1);
      assert es[j].next == es[j + 1].pos;
    }
    if i < j {
      ChainStep(es, from, to, i, j);
    }
  }

  lemma {:induction false} ChainStep(es: seq<Entry>, from: nat, to: nat, i: nat, j: nat)
    requires Chain(es, from, to)
    requires i < j < |es|
    ensures es[i].next <= es[j].pos
  {
    if i < j - 1 {
      ChainStep(es, from, to, i, j - 1);
    }
    assert es[j - 1].next == es[j].pos;
  }

  lemma TilesCons(acc: seq<byte>, e: Entry, es: seq<Entry>, to: nat)
    requires e.pos + ITEM_SIZE <= |acc| && e == EntryAt(acc, e.pos)
    requires Tiles(acc, es, e.next, to)
    ensures Tiles(acc, [e] + es, e.pos, to)
  {
    hide EntryAt;
    var all := [e] + es;
    assert forall i :: 0 < i < |all| ==> all[i] == es[i - 1];
    if es != [] {
      assert Last(all) == Last(es);
    }
  }

  /** What a scan returns tiles the scanned area, up to the first point where no
      further item fits. */
  lemma {:induction false} ScanTiles(acc: seq<byte>, pos: nat, end: nat) returns (to: nat)
    requires end <= |acc|
    ensures Tiles(acc, Scan(acc, pos, end), pos, to)
    ensures end < to + ITEM_SIZE
    ensures forall e :: e in Scan(acc, pos, end) ==> e.pos + ITEM_SIZE <= end
    decreases |acc| - pos
  {
    hide EntryAt;
    if pos + ITEM_SIZE > end {
      to := pos;
    } else {
      var e := EntryAt(acc, pos);
      var tail := Scan(acc, e.next, end);
      to := ScanTiles(acc, e.next, end);
      assert Scan(acc, pos, end) == [e] + tail;
      hide Scan;
      TilesCons(acc, e, tail, to);
    }
  }

  /** A scan goes through stored tiles and on from where they end. */
  lemma {:induction false} ScanThrough(acc: seq<byte>, es: seq<Entry>, from: nat, to: nat, end: nat)
    requires Tiles(acc, es, from, to) && end <= |acc|
    requires es != [] ==> Last(es).pos + ITEM_SIZE <= end
    ensures Scan(acc, from, end) == es + Scan(acc, to, end)
    decreases |es|
  {
    hide EntryAt;
    if es == [] {
      assert es + Scan(acc, to, end) == Scan(acc, to, end);
    } else {
      ChainOrdered(es, from, to, 0, |es| - 1);
      assert Tiles(acc, es[1..], es[0].next, to);
      ScanThrough(acc, es[1..], es[0].next, to, end);
      assert es == [es[0]] + es[1..];
    }
  }

  /** Conversely a tiling is what a scan returns. */
  lemma TilesScan(acc: seq<byte>, es: seq<Entry>, from: nat, to: nat, end: nat)
    requires Tiles(acc, es, from, to)
    requires end <= |acc| && end < to + ITEM_SIZE
    requires es != [] ==> Last(es).pos + ITEM_SIZE <= end
    ensures Scan(acc, from, end) == es
  {
    hide EntryAt, Tiles;
    ScanThrough(acc, es, from, to, end);
    assert Scan(acc, to, end) == [];
  }

  /** Every scan, on any bytes whatever, advances by at least an item each time,
      so it visits at most (end - start) / 96 items. */
  lemma {:induction false} ScanBound(acc: seq<byte>, pos: nat, end: nat)
    requires end <= |acc|
    ensures ITEM_SIZE * |Scan(acc, pos, end)| <= if pos <= end then end - pos else 0
    decreases |acc| - pos
  {
    hide EntryAt;
    if pos + ITEM_SIZE <= end {
      ScanBound(acc, EntryAt(acc, pos).next, end);
    }
  }

  /** At the account size cap no scan visits more than 5461 items. */
  lemma EntriesBound(q: QueueData)
    requires |q.acc| <= MAX_QUEUE_ACCOUNT_SIZE - 8
    ensures |Live(q)| <= |Entries(q)| <= 5461
  {
    hide Scan, Used;
    ScanBound(q.acc, ITEMS_START, ScanEnd(q));
    UsedAreEntries(Entries(q));
  }

  // -------------------------------------------------------------- trimming

  lemma {:induction false} TrimHolesPrefix(es: seq<Entry>)
    ensures TrimHoles(es) <= es
    ensures TrimHoles(es) != [] ==> IsUsed(Last(TrimHoles(es)))
    ensures LastUsedEnd(es) == LastUsedEnd(TrimHoles(es))
    ensures LastUsedEnd(es) == if TrimHoles(es) == [] then ITEMS_START else Last(TrimHoles(es)).next
    ensures Used(TrimHoles(es)) == Used(es)
    ensures forall i :: |TrimHoles(es)| <= i < |es| ==> !IsUsed(es[i])
  {
    if es != [] && !IsUsed(Last(es)) {
      TrimHolesPrefix(es[..|es| - 1]);
    }
  }

  /** A tiling cut after some entry is a tiling up to that entry's end. */
  lemma TilesPrefix(acc: seq<byte>, es: seq<Entry>, from: nat, to: nat, n: nat)
    requires Tiles(acc, es, from, to) && n <= |es|
    ensures Tiles(acc, es[..n], from, if n == 0 then from else es[n - 1].next)
    ensures n < |es| ==> es[n].pos == if n == 0 then from else es[n - 1].next
    ensures n > 0 ==> es[n - 1].pos + ITEM_SIZE <= es[n - 1].next
  {
    hide EntryAt;
  }

  /** Moving the cursor back to the end of the last live item makes the scan see
      exactly the items without the trailing free ones. */
  lemma EntriesTrim(q: QueueData)
    ensures Entries(Trim(q)) == TrimHoles(Entries(q))
  {
    hide EntryAt, Scan, Used, TrimHoles, LastUsedEnd, Tiles;
    var es := Entries(q);
    var to := ScanTiles(q.acc, ITEMS_START, ScanEnd(q));
    var ts := TrimHoles(es);
    TrimHolesPrefix(es);
    var n := |ts|;
    assert ts == es[..n];
    TilesPrefix(q.acc, es, ITEMS_START, to, n);
    if n < |es| { assert es[n] in es; }
    if n > 0 { assert es[n - 1] in es; }
    TilesScan(q.acc, ts, ITEMS_START, LastUsedEnd(es), ScanEnd(Trim(q)));
  }

  lemma {:induction false} UsedConcat(a: seq<Entry>, b: seq<Entry>)
    ensures Used(a + b) == Used(a) + Used(b)
    decreases |b|
  {
    if b == [] {
      assert a + b == a;
    } else {
      UsedConcat(a, b[..|b| - 1]);
      assert (a + b)[..|a + b| - 1] == a + b[..|b| - 1];
    }
  }

  lemma UsedSingle(e: Entry)
    ensures Used([e]) == if IsUsed(e) then [e] else []
  {
    assert Used([]) == [];
    assert [e][..0] == [];
  }

  lemma UsedSplit(es: seq<Entry>, i: nat)
    requires i < |es|
    ensures Used(es) == Used(es[..i]) + (if IsUsed(es[i]) then [es[i]] else []) + Used(es[i + 1..])
  {
    SplitAt(es, i);
    UsedSingle(es[i]);
    UsedConcat(es[..i], [es[i]]);
    UsedConcat(es[..i] + [es[i]], es[i + 1..]);
  }

  lemma {:induction false} UsedRank(es: seq<Entry>, k: nat) returns (i: nat)
    requires k < |Used(es)|
    ensures i < |es| && IsUsed(es[i]) && |Used(es[..i])| == k
  {
    var before := es[..|es| - 1];
    if k < |Used(before)| {
      i := UsedRank(before, k);
      assert before[..i] == es[..i];
    } else {
      i := |es| - 1;
    }
  }

  /** The index in `es` of the live item with logical index k. */
  lemma UsedIndex(es: seq<Entry>, k: nat) returns (i: nat)
    requires k < |Used(es)|
    ensures i < |es| && es[i] == Used(es)[k] && IsUsed(es[i])
    ensures Used(es[..i]) == Used(es)[..k]
    ensures Used(es[i + 1..]) == Used(es)[k + 1..]
  {
    i := UsedRank(es, k);
    UsedSplit(es, i);
  }

  // --------------------------------------------------------------- removal

  /** Clearing flags inside a tiling leaves a tiling with the same extents. */
  lemma ClearTiles(acc: seq<byte>, es: seq<Entry>, from: nat, to: nat, w: Entry -> bool)
    requires Tiles(acc, es, from, to)
    ensures Tiles(ClearBytes(acc, es, w), ClearWhere(es, w), from, to)
  {
    hide EntryAt, ClearBytes;
    var acc' := ClearBytes(acc, es, w);
    var es' := ClearWhere(es, w);
    forall i | 0 <= i < |es|
      ensures es'[i] == EntryAt(acc', es'[i].pos)
    {
      ClearEntry(acc, es, from, to, w, i);
    }
  }

  lemma ClearEntry(acc: seq<byte>, es: seq<Entry>, from: nat, to: nat, w: Entry -> bool, i: nat)
    requires Tiles(acc, es, from, to) && i < |es|
    ensures EntryAt(ClearBytes(acc, es, w), es[i].pos) == ClearIf(es[i], w)
  {
    hide DecodeItem;
    var p := es[i].pos;
    var b := acc[p..p + ITEM_SIZE];
    var b' := ClearBytes(acc, es, w)[p..p + ITEM_SIZE];
    forall j | p <= j < p + ITEM_SIZE
      ensures IsClearedByte(es, w, j) <==> Matches(es[i], w) && j == p + USED_OFFSET
    {
      forall k | 0 <= k < |es| && j == es[k].pos + USED_OFFSET ensures k == i {
        if k < i { ChainOrdered(es, from, to, k, i); }
        if i < k { ChainOrdered(es, from, to, i, k); }
      }
    }
    if Matches(es[i], w) {
      assert b' == b[USED_OFFSET := 0];
      ClearUsedByte(b);
    } else {
      assert b' == b;
    }
  }

  /** Clearing flags without moving the cursor: the scan sees the same items,
      with the picked ones free. */
  lemma EntriesCleared(q: QueueData, w: Entry -> bool, h: Header)
    requires h.cursor == q.header.cursor
    ensures Entries(QueueData(h, ClearBytes(q.acc, Entries(q), w))) == ClearWhere(Entries(q), w)
  {
    hide EntryAt, ClearBytes, ClearWhere;
    var es := Entries(q);
    var to := ScanTiles(q.acc, ITEMS_START, ScanEnd(q));
    ClearTiles(q.acc, es, ITEMS_START, to, w);
    if es != [] {
      assert Last(ClearWhere(es, w)) == ClearIf(Last(es), w);
      assert Last(es) in es;
    }
    TilesScan(ClearBytes(q.acc, es, w), ClearWhere(es, w), ITEMS_START, to, ScanEnd(q));
  }

  ghost function ClearedData(q: QueueData, w: Entry -> bool): QueueData
  {
    var es := Entries(q);
    QueueData(q.header.(itemCount := SatSub(q.header.itemCount, |Reported(es, w)|)), ClearBytes(q.acc, es, w))
  }

  /** After a purge the scan sees the same items with the picked ones free, less
      the free ones at the end. */
  lemma EntriesRemoveWhere(q: QueueData, w: Entry -> bool)
    ensures RemoveWhere(q, w).q == Trim(ClearedData(q, w))
    ensures Entries(RemoveWhere(q, w).q) == TrimHoles(ClearWhere(Entries(q), w))
  {
    EntriesCleared(q, w, ClearedData(q, w).header);
    EntriesTrim(ClearedData(q, w));
  }
}
