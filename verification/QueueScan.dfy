/** The one traversal every lookup uses, as a function of the visited entries, and
    what it returns for each of the visitors in use. */
module QueueScan {
  import opened Bytes
  import opened QueueItems
  import opened QueueSpec

  /** A visitor with its captured state threaded through: it is told the number of
      live items before this one, the item's position, the next position and the
      item, and may stop the walk with a result. */
  type Visitor<!S, !R> = (S, nat, nat, nat, QueueItem) -> (S, Option<R>)

  function Walk<S, R>(es: seq<Entry>, init: S, visit: Visitor<S, R>): (S, Option<R>)
  {
    if es == [] then (init, None)
    else
      var before := es[..|es| - 1];
      var (s, r) := Walk(before, init, visit);
      if r.Some? then (s, r) else visit(s, |Used(before)|, Last(es).pos, Last(es).next, Last(es).item)
  }

  lemma WalkAppend<S, R>(es: seq<Entry>, e: Entry, init: S, visit: Visitor<S, R>)
    ensures var (s, r) := Walk(es, init, visit);
            Walk(es + [e], init, visit) == if r.Some? then (s, r) else visit(s, |Used(es)|, e.pos, e.next, e.item)
  {
    assert (es + [e])[..|es|] == es;
  }

  /** One step of a scan moves its first entry to the entries seen. */
  lemma ScanStep(acc: seq<byte>, seen: seq<Entry>, pos: nat, end: nat)
    requires pos + ITEM_SIZE <= end <= |acc|
    ensures var e := EntryAt(acc, pos);
            && seen + Scan(acc, pos, end) == seen + [e] + Scan(acc, e.next, end)
            && |Used(seen + [e])| == |Used(seen)| + if IsUsed(e) then 1 else 0
  {
    hide EntryAt;
    var e := EntryAt(acc, pos);
    UsedAppend(seen, e);
    ConcatAssociative(seen, [e], Scan(acc, e.next, end));
  }

  lemma UsedAppend(es: seq<Entry>, e: Entry)
    ensures |Used(es + [e])| == |Used(es)| + if IsUsed(e) then 1 else 0
  {
    assert (es + [e])[..|es|] == es;
  }

  lemma ScanDone(acc: seq<byte>, seen: seq<Entry>, pos: nat, end: nat)
    requires end <= |acc| && pos + ITEM_SIZE > end
    ensures seen + Scan(acc, pos, end) == seen
  {
  }

  /** Once a visit has produced a result the rest is not looked at. */
  lemma {:induction false} WalkStops<S, R>(es: seq<Entry>, rest: seq<Entry>, init: S, visit: Visitor<S, R>)
    requires Walk(es, init, visit).1.Some?
    ensures Walk(es + rest, init, visit) == Walk(es, init, visit)
    decreases |rest|
  {
    if rest == [] {
      assert es + rest == es;
    } else {
      var before := rest[..|rest| - 1];
      WalkStops(es, before, init, visit);
      WalkAppend(es + before, Last(rest), init, visit);
      assert es + before + [Last(rest)] == es + rest;
    }
  }

  // ------------------------------------------------------------- lookups

  datatype Found = Found(index: nat, pos: nat, item: QueueItem)

  /** Stop at the first live item for which `p(logical index, item)` holds. */
  function FindVisitor(p: (nat, QueueItem) -> bool): Visitor<(), Found>
  {
    (s: (), k: nat, pos: nat, next: nat, item: QueueItem) =>
      (s, if item.used == 1 && p(k, item) then Some(Found(k, pos, item)) else None)
  }

  ghost predicate FindsFirst(live: seq<Entry>, p: (nat, QueueItem) -> bool, r: Option<Found>)
  {
    match r
    case None => forall k :: 0 <= k < |live| ==> !p(k, live[k].item)
    case Some(f) =>
      && f.index < |live|
      && live[f.index].pos == f.pos && live[f.index].item == f.item
      && p(f.index, f.item)
      && forall k :: 0 <= k < f.index ==> !p(k, live[k].item)
  }

  lemma {:induction false} WalkFindsFirst(es: seq<Entry>, p: (nat, QueueItem) -> bool)
    ensures FindsFirst(Used(es), p, Walk(es, (), FindVisitor(p)).1)
  {
    if es != [] {
      WalkFindsFirst(es[..|es| - 1], p);
    }
  }

  // -------------------------------------------- scans that look at everything

  function SpanVisitor(span: nat): Visitor<(nat, Option<Hole>), ()>
  {
    (s: (nat, Option<Hole>), k: nat, pos: nat, next: nat, item: QueueItem) =>
      if item.used == 1 then ((next, s.1), None)
      else if s.1.None? && next - pos == span then ((s.0, Some(Hole(pos, k))), None)
      else (s, None)
  }

  lemma {:induction false} WalkSpan(es: seq<Entry>, span: nat)
    ensures Walk(es, (ITEMS_START, None), SpanVisitor(span)) == ((LastUsedEnd(es), FirstHole(es, span)), None)
  {
    if es != [] {
      WalkSpan(es[..|es| - 1], span);
    }
  }

  function TrimVisitor(): Visitor<nat, ()>
  {
    (s: nat, k: nat, pos: nat, next: nat, item: QueueItem) => (if item.used == 1 then next else s, None)
  }

  lemma {:induction false} WalkTrim(es: seq<Entry>)
    ensures Walk(es, ITEMS_START, TrimVisitor()) == (LastUsedEnd(es), None)
  {
    if es != [] {
      WalkTrim(es[..|es| - 1]);
    }
  }

  function IterVisitor(): Visitor<seq<QueueItem>, ()>
  {
    (s: seq<QueueItem>, k: nat, pos: nat, next: nat, item: QueueItem) =>
      (if item.used == 1 then s + [item] else s, None)
  }

  function Items(es: seq<Entry>): (r: seq<QueueItem>)
    ensures |r| == |es|
    ensures forall i :: 0 <= i < |es| ==> r[i] == es[i].item
  {
    seq(|es|, i requires 0 <= i < |es| => es[i].item)
  }

  lemma ItemsAppend(es: seq<Entry>, e: Entry)
    ensures Items(es + [e]) == Items(es) + [e.item]
  {
  }

  lemma {:induction false} WalkIter(es: seq<Entry>)
    ensures Walk(es, [], IterVisitor()) == (Items(Used(es)), None)
  {
    if es == [] {
      assert Items([]) == [];
    } else {
      var before := es[..|es| - 1];
      WalkIter(before);
      ItemsAppend(Used(before), Last(es));
      assert Used(before) + [] == Used(before);
    }
  }
}
