/** Removal: what is left, what is reported, and that the single-pass purge is
    the same as removing the matching items one at a time in any order. */
module QueueRemoval {
  import opened QueueItems
  import opened QueueSpec
  import opened QueueTiling

  function Not(w: Entry -> bool): Entry -> bool { (e: Entry) => !w(e) }

  function Either(v: Entry -> bool, w: Entry -> bool): Entry -> bool { (e: Entry) => v(e) || w(e) }

  function AtPos(p: nat): Entry -> bool { (e: Entry) => e.pos == p }

  function Filter(es: seq<Entry>, w: Entry -> bool): seq<Entry>
  {
    if es == [] then []
    else Filter(es[..|es| - 1], w) + if w(Last(es)) then [Last(es)] else []
  }

  function ClearedItems(es: seq<Entry>): seq<QueueItem>
  {
    seq(|es|, i requires 0 <= i < |es| => Cleared(es[i]).item)
  }

  lemma ClearWherePrefix(es: seq<Entry>, w: Entry -> bool, n: nat)
    requires n <= |es|
    ensures ClearWhere(es, w)[..n] == ClearWhere(es[..n], w)
  {
  }

  lemma FilterAppend(es: seq<Entry>, e: Entry, w: Entry -> bool)
    ensures Filter(es + [e], w) == Filter(es, w) + if w(e) then [e] else []
  {
    assert (es + [e])[..|es|] == es;
  }

  lemma ClearedItemsAppend(es: seq<Entry>, e: Entry)
    ensures ClearedItems(es + [e]) == ClearedItems(es) + [Cleared(e).item]
  {
  }

  lemma UsedLast(es: seq<Entry>)
    requires es != []
    ensures IsUsed(Last(es)) ==> Used(es) == Used(es[..|es| - 1]) + [Last(es)]
    ensures !IsUsed(Last(es)) ==> Used(es) == Used(es[..|es| - 1])
  {
  }

  /** The survivors are the live entries not picked, in their old order. */
  lemma {:induction false} Survivors(es: seq<Entry>, w: Entry -> bool)
    ensures Used(ClearWhere(es, w)) == Filter(Used(es), Not(w))
  {
    if es != [] {
      var before := es[..|es| - 1];
      Survivors(before, w);
      ClearWherePrefix(es, w, |es| - 1);
      assert Last(ClearWhere(es, w)) == ClearIf(Last(es), w);
      UsedLast(es);
      UsedLast(ClearWhere(es, w));
      if IsUsed(Last(es)) {
        FilterAppend(Used(before), Last(es), Not(w));
      }
    }
  }

  /** The reported items are the picked ones, each once, in position order. */
  lemma {:induction false} Reports(es: seq<Entry>, w: Entry -> bool)
    ensures Reported(es, w) == ClearedItems(Filter(Used(es), w))
  {
    if es != [] {
      var before := es[..|es| - 1];
      Reports(before, w);
      UsedLast(es);
      if IsUsed(Last(es)) {
        FilterAppend(Used(before), Last(es), w);
        ClearedItemsAppend(Filter(Used(before), w), Last(es));
      }
    }
  }

  /** Removing leaves exactly the live entries that were not picked. */
  lemma LiveAfterRemoveWhere(q: QueueData, w: Entry -> bool)
    ensures Live(RemoveWhere(q, w).q) == Filter(Live(q), Not(w))
    ensures RemoveWhere(q, w).removed == ClearedItems(Filter(Live(q), w))
  {
    EntriesRemoveWhere(q, w);
    TrimHolesPrefix(ClearWhere(Entries(q), w));
    Survivors(Entries(q), w);
    Reports(Entries(q), w);
  }

  // ------------------------------------------------ removal of a single item

  lemma LiveIndex(q: QueueData, k: nat) returns (i: nat)
    requires k < |Live(q)|
    ensures i < |Entries(q)| && Entries(q)[i] == Live(q)[k] && IsUsed(Entries(q)[i])
    ensures Used(Entries(q)[..i]) == Live(q)[..k]
    ensures Used(Entries(q)[i + 1..]) == Live(q)[k + 1..]
    ensures forall j :: 0 <= j < |Entries(q)| && Entries(q)[j].pos == Live(q)[k].pos ==> j == i
  {
    hide EntryAt;
    var es := Entries(q);
    i := UsedIndex(es, k);
    var to := ScanTiles(q.acc, ITEMS_START, ScanEnd(q));
    forall j | 0 <= j < |es| && es[j].pos == es[i].pos ensures j == i {
      if j < i { ChainStep(es, ITEMS_START, to, j, i); }
      if i < j { ChainStep(es, ITEMS_START, to, i, j); }
    }
  }

  lemma {:induction false} ReportedNone(es: seq<Entry>, w: Entry -> bool)
    requires forall j :: 0 <= j < |es| ==> !Matches(es[j], w)
    ensures Reported(es, w) == []
  {
    if es != [] {
      ReportedNone(es[..|es| - 1], w);
    }
  }

  lemma {:induction false} ReportedOne(es: seq<Entry>, w: Entry -> bool, i: nat)
    requires i < |es| && Matches(es[i], w)
    requires forall j :: 0 <= j < |es| && Matches(es[j], w) ==> j == i
    ensures Reported(es, w) == [Cleared(es[i]).item]
  {
    if i == |es| - 1 {
      ReportedNone(es[..i], w);
    } else {
      ReportedOne(es[..|es| - 1], w, i);
    }
  }

  /** Removing by logical index is removing where the position is the item's. */
  lemma RemoveIsRemoveWhere(q: QueueData, k: nat)
    requires k < |Live(q)|
    ensures Remove(q, k) == Ok(Removed(RemoveWhere(q, AtPos(Live(q)[k].pos)).q, Cleared(Live(q)[k]).item))
  {
    hide EntryAt, Scan;
    var es := Entries(q);
    var p := Live(q)[k].pos;
    var w := AtPos(p);
    var i := LiveIndex(q, k);
    ScanInBounds(q.acc, ITEMS_START, ScanEnd(q));
    ReportedOne(es, w, i);
    forall j | 0 <= j < |q.acc|
      ensures IsClearedByte(es, w, j) <==> j == p + USED_OFFSET
    {
      assert Matches(es[i], w);
    }
    assert es[i] in es;
    assert ClearBytes(q.acc, es, w) == q.acc[p + USED_OFFSET := 0];
    EntriesRemoveWhere(q, w);
  }

  lemma {:induction false} FilterAtPos(es: seq<Entry>, k: nat)
    requires k < |es|
    requires forall j :: 0 <= j < |es| && es[j].pos == es[k].pos ==> j == k
    ensures Filter(es, Not(AtPos(es[k].pos))) == es[..k] + es[k + 1..]
  {
    var w := Not(AtPos(es[k].pos));
    if k == |es| - 1 {
      FilterAll(es[..k], w);
    } else {
      FilterAtPos(es[..|es| - 1], k);
    }
  }

  lemma {:induction false} FilterAll(es: seq<Entry>, w: Entry -> bool)
    requires forall j :: 0 <= j < |es| ==> w(es[j])
    ensures Filter(es, w) == es
  {
    if es != [] {
      FilterAll(es[..|es| - 1], w);
    }
  }

  /** Live entries have pairwise distinct positions. */
  lemma LivePositionsDistinct(q: QueueData, j: nat, k: nat)
    requires j < |Live(q)| && k < |Live(q)| && Live(q)[j].pos == Live(q)[k].pos
    ensures j == k
  {
    hide Entries;
    var i := LiveIndex(q, k);
    var i' := LiveIndex(q, j);
    assert |Live(q)[..j]| == |Live(q)[..k]|;
  }

  /** Removing by index takes exactly that request out of the live list and returns it
      with its flag cleared; there is no index beyond the list. */
  lemma LiveAfterRemove(q: QueueData, k: nat)
    ensures k < |Live(q)| ==>
              && Remove(q, k).Ok? && Remove(q, k).value.item == Live(q)[k].item.(used := 0)
              && Live(Remove(q, k).value.q) == Live(q)[..k] + Live(q)[k + 1..]
    ensures k >= |Live(q)| ==> Remove(q, k) == Err(InvalidQueueIndex)
  {
    if k < |Live(q)| { LiveAfterRemoveAt(q, k); }
  }

  lemma LiveAfterRemoveAt(q: QueueData, k: nat)
    requires k < |Live(q)|
    ensures Live(Remove(q, k).value.q) == Live(q)[..k] + Live(q)[k + 1..]
  {
    hide Entries, Live;
    RemoveIsRemoveWhere(q, k);
    LiveAfterRemoveWhere(q, AtPos(Live(q)[k].pos));
    forall j | 0 <= j < |Live(q)| && Live(q)[j].pos == Live(q)[k].pos ensures j == k {
      LivePositionsDistinct(q, j, k);
    }
    FilterAtPos(Live(q), k);
  }

  // ------------------------------------------------- one pass or many removals

  /** Only what the predicate says of the live entries matters. */
  lemma RemoveWhereCongruent(q: QueueData, v: Entry -> bool, w: Entry -> bool)
    requires forall i :: 0 <= i < |Entries(q)| && IsUsed(Entries(q)[i]) ==> v(Entries(q)[i]) == w(Entries(q)[i])
    ensures RemoveWhere(q, v) == RemoveWhere(q, w)
  {
    hide Entries;
    var es := Entries(q);
    ReportedCongruent(es, v, w);
    assert ClearWhere(es, v) == ClearWhere(es, w);
    forall j ensures IsClearedByte(es, v, j) <==> IsClearedByte(es, w, j) {
      forall i | 0 <= i < |es| ensures Matches(es[i], v) == Matches(es[i], w) {}
    }
    assert ClearBytes(q.acc, es, v) == ClearBytes(q.acc, es, w);
  }

  lemma {:induction false} ReportedCongruent(es: seq<Entry>, v: Entry -> bool, w: Entry -> bool)
    requires forall i :: 0 <= i < |es| && IsUsed(es[i]) ==> v(es[i]) == w(es[i])
    ensures Reported(es, v) == Reported(es, w)
  {
    if es != [] {
      ReportedCongruent(es[..|es| - 1], v, w);
    }
  }

  lemma {:induction false} ReportedAdds(es: seq<Entry>, v: Entry -> bool, w: Entry -> bool)
    ensures |Reported(es, v)| + |Reported(ClearWhere(es, v), w)| == |Reported(es, Either(v, w))|
  {
    if es != [] {
      ReportedAdds(es[..|es| - 1], v, w);
      ClearWherePrefix(es, v, |es| - 1);
      assert Last(ClearWhere(es, v)) == ClearIf(Last(es), v);
    }
  }

  lemma {:induction false} ReportedTrim(es: seq<Entry>, w: Entry -> bool)
    ensures Reported(TrimHoles(es), w) == Reported(es, w)
    ensures LastUsedEnd(ClearWhere(TrimHoles(es), w)) == LastUsedEnd(ClearWhere(es, w))
  {
    if es != [] && !IsUsed(Last(es)) {
      ReportedTrim(es[..|es| - 1], w);
      ClearWherePrefix(es, w, |es| - 1);
      assert Last(ClearWhere(es, w)) == Last(es);
    }
  }

  lemma {:induction false} LastUsedEndShrinks(es: seq<Entry>, from: nat, to: nat, w: Entry -> bool)
    requires Chain(es, from, to) && from >= ITEMS_START
    ensures LastUsedEnd(ClearWhere(es, w)) <= LastUsedEnd(es) <= if es == [] then ITEMS_START else to
  {
    if es != [] {
      var before := es[..|es| - 1];
      ClearWherePrefix(es, w, |es| - 1);
      assert Last(ClearWhere(es, w)) == ClearIf(Last(es), w);
      LastUsedEndShrinks(before, from, Last(es).pos, w);
    }
  }

  lemma ComposedBytes(q: QueueData, v: Entry -> bool, w: Entry -> bool)
    ensures RemoveWhere(RemoveWhere(q, v).q, w).q.acc == RemoveWhere(q, Either(v, w)).q.acc
  {
    var es := Entries(q);
    var cs := ClearWhere(es, v);
    var ts := TrimHoles(cs);
    EntriesRemoveWhere(q, v);
    TrimHolesPrefix(cs);
    hide Entries, Reported, LastUsedEnd, TrimHoles, Used, ClearWhere, ClearBytes;
    forall j
      ensures IsClearedByte(es, Either(v, w), j) <==> IsClearedByte(es, v, j) || IsClearedByte(ts, w, j)
    {
      forall i | 0 <= i < |es|
        ensures Matches(es[i], Either(v, w)) <==> Matches(es[i], v) || Matches(cs[i], w)
        ensures Matches(cs[i], w) ==> i < |ts|
      {
        assert cs[i] == ClearIf(es[i], v);
      }
      forall i | 0 <= i < |ts| ensures ts[i].pos == es[i].pos && ts[i] == cs[i] {
        assert cs[i] == ClearIf(es[i], v);
      }
    }
  }

  lemma ClearTwice(es: seq<Entry>, v: Entry -> bool, w: Entry -> bool)
    ensures ClearWhere(ClearWhere(es, v), w) == ClearWhere(es, Either(v, w))
  {
    forall i | 0 <= i < |es|
      ensures ClearIf(ClearIf(es[i], v), w) == ClearIf(es[i], Either(v, w))
    {
    }
  }

  lemma ComposedHeader(q: QueueData, v: Entry -> bool, w: Entry -> bool)
    ensures RemoveWhere(RemoveWhere(q, v).q, w).q.header == RemoveWhere(q, Either(v, w)).q.header
  {
    hide Scan, Reported, LastUsedEnd, ClearWhere, ClearBytes, TrimHoles, ClearIf, Matches, Either;
    var es := Entries(q);
    var cs := ClearWhere(es, v);
    var to := ScanTiles(q.acc, ITEMS_START, ScanEnd(q));
    EntriesRemoveWhere(q, v);
    ReportedAdds(es, v, w);
    ReportedTrim(cs, w);
    ClearTwice(es, v, w);
    ChainCleared(es, ITEMS_START, to, v);
    LastUsedEndShrinks(cs, ITEMS_START, to, w);
  }

  /** Two removals in a row are one removal. */
  lemma RemoveWhereCompose(q: QueueData, v: Entry -> bool, w: Entry -> bool)
    ensures RemoveWhere(RemoveWhere(q, v).q, w).q == RemoveWhere(q, Either(v, w)).q
  {
    hide RemoveWhere;
    ComposedHeader(q, v, w);
    ComposedBytes(q, v, w);
  }

  lemma ChainCleared(es: seq<Entry>, from: nat, to: nat, w: Entry -> bool)
    requires Chain(es, from, to)
    ensures Chain(ClearWhere(es, w), from, to)
  {
    forall i | 0 <= i < |es|
      ensures ClearWhere(es, w)[i].pos == es[i].pos && ClearWhere(es, w)[i].next == es[i].next
    {
      assert ClearWhere(es, w)[i] == ClearIf(es[i], w);
    }
  }

  /** The cursor sits at the end of the last live item or before it. */
  ghost predicate Trimmed(q: QueueData) { Trim(q) == q }

  lemma TrimIdempotent(q: QueueData)
    ensures Trimmed(Trim(q))
  {
    EntriesTrim(q);
    TrimHolesPrefix(Entries(q));
  }

  lemma RemoveWhereTrimmed(q: QueueData, w: Entry -> bool)
    ensures Trimmed(RemoveWhere(q, w).q)
  {
    hide RemoveWhere, Trim;
    EntriesRemoveWhere(q, w);
    TrimIdempotent(ClearedData(q, w));
  }

  /** With nothing to remove a purge only trims. */
  lemma RemoveNothing(q: QueueData, w: Entry -> bool)
    requires forall i :: 0 <= i < |Entries(q)| ==> !Matches(Entries(q)[i], w)
    ensures RemoveWhere(q, w) == Purged(Trim(q), [])
  {
    hide Entries;
    var es := Entries(q);
    ReportedNone(es, w);
    assert ClearWhere(es, w) == es;
    assert ClearBytes(q.acc, es, w) == q.acc;
  }

  /** `t` results from `q` by removing, one at a time and in whatever order `ks`
      says, items that match `pred`. */
  ghost predicate RemovalRun(q: QueueData, ks: seq<nat>, pred: QueueItem -> bool, t: QueueData)
    decreases |ks|
  {
    if ks == [] then q == t
    else
      && ks[0] < |Live(q)|
      && pred(Live(q)[ks[0]].item)
      && RemovalRun(Remove(q, ks[0]).value.q, ks[1..], pred, t)
  }

  /** A purge absorbs the removal of one matching item. */
  lemma PurgeAbsorbsRemove(q: QueueData, k: nat, pred: QueueItem -> bool)
    requires k < |Live(q)| && pred(Live(q)[k].item)
    ensures RemoveMatching(Remove(q, k).value.q, pred).q == RemoveMatching(q, pred).q
  {
    hide RemoveWhere, Remove, Entries;
    var w := AtPos(Live(q)[k].pos);
    RemoveIsRemoveWhere(q, k);
    RemoveWhereCompose(q, w, OnItem(pred));
    var i := LiveIndex(q, k);
    RemoveWhereCongruent(q, Either(w, OnItem(pred)), OnItem(pred));
  }

  /** The fast purge refines the slow one: removing every matching item, one at a
      time and in any order, ends with the same header and the same bytes. */
  lemma {:induction false} PurgeIsRepeatedRemoval(q: QueueData, ks: seq<nat>, pred: QueueItem -> bool, t: QueueData)
    requires Trimmed(q)
    requires RemovalRun(q, ks, pred, t)
    requires forall k :: 0 <= k < |Live(t)| ==> !pred(Live(t)[k].item)
    ensures t == RemoveMatching(q, pred).q
    decreases |ks|
  {
    if ks == [] {
      forall i | 0 <= i < |Entries(q)| ensures !Matches(Entries(q)[i], OnItem(pred)) {
        UsedAreEntries(Entries(q));
        var e := Entries(q)[i];
        assert e in Entries(q);
        if IsUsed(e) {
          var k :| 0 <= k < |Live(q)| && Live(q)[k] == e;
        }
      }
      RemoveNothing(q, OnItem(pred));
    } else {
      hide RemoveWhere, Trim, Remove;
      RemoveIsRemoveWhere(q, ks[0]);
      RemoveWhereTrimmed(q, AtPos(Live(q)[ks[0]].pos));
      PurgeAbsorbsRemove(q, ks[0], pred);
      PurgeIsRepeatedRemoval(Remove(q, ks[0]).value.q, ks[1..], pred, t);
    }
  }
}
