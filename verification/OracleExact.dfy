/** Exactly when the oracle keeps one task per request: over all interleavings of the
    same accepted views, if and only if no view shows again what an earlier one
    dropped.  The failing interleaving lets every task run on in its send loop. */
module OracleExact {
  import opened OracleProtocol
  import opened OracleSafety

  ghost predicate HasTask(s: Oracle, id: Id) { exists i :: InSendLoop(s, i) && s.pool[i].id == id }

  ghost predicate TwoTasks(s: Oracle, id: Id)
  {
    exists i, j :: InSendLoop(s, i) && InSendLoop(s, j) && i != j && s.pool[i].id == id && s.pool[j].id == id
  }

  predicate AllSending(s: Oracle) { forall i :: 0 <= i < |s.pool| ==> s.pool[i].phase == Sending }

  /** Every task of s is still there in s'. */
  predicate SameTasks(s: Oracle, s': Oracle)
  {
    |s.pool| <= |s'.pool| && forall i :: 0 <= i < |s.pool| ==> s'.pool[i].id == s.pool[i].id
  }

  predicate NewTask(s: Oracle, s': Oracle, id: Id)
  {
    exists i :: |s.pool| <= i < |s'.pool| && s'.pool[i].id == id
  }

  // ------------------------------------------------ a view, without task steps

  /** What going through a view's items does, when no task leaves its send loop. */
  ghost predicate Spawned(v: Version, s: Oracle, s': Oracle)
  {
    && AllSending(s') && SameTasks(s, s') && s'.views == s.views
    && (forall id :: id in s.inflight ==> id in s'.inflight)
    && (forall id :: id in s'.inflight && id !in s.inflight ==> Has(v, id) && NewTask(s, s', id))
  }

  lemma SpawnedTransitive(v: Version, s: Oracle, t: Oracle, u: Oracle)
    requires Spawned(v, s, t) && Spawned(v, t, u)
    ensures Spawned(v, s, u)
  {
    hide Has;
    forall id | id in u.inflight && id !in s.inflight ensures NewTask(s, u, id) {
      if id in t.inflight {
        var i :| |s.pool| <= i < |t.pool| && t.pool[i].id == id;
        assert u.pool[i].id == id;
      }
    }
  }

  /** One item: skipped if tracked, else its task is spawned, published and started. */
  lemma SpawnOne(h: seq<Version>, steps: seq<Step>, s: Oracle, next: nat) returns (steps': seq<Step>, s': Oracle)
    requires At(h, steps, s) && AllSending(s) && s.work == Spawning(next)
    requires Showing(h, s) && next < |Shown(h, s).items|
    ensures At(h, steps', s') && Spawned(Shown(h, s), s, s') && s'.work == Spawning(next + 1)
    ensures Shown(h, s).items[next].id in s'.inflight
  {
    hide At;
    var item := Shown(h, s).items[next];
    Then(h, steps, s, Spawn);
    var s1 := Next(h, s, Spawn);
    if item.id in s.inflight {
      return steps + [Spawn], s1;
    }
    Then(h, steps + [Spawn], s1, Publish);
    var s2 := Next(h, s1, Publish);
    Then(h, steps + [Spawn] + [Publish], s2, Start);
    s' := Next(h, s2, Start);
    steps' := steps + [Spawn] + [Publish] + [Start];
    assert s'.pool[|s.pool|] == Task(item.id, Sending, false);
    assert forall i :: 0 <= i < |s.pool| ==> s'.pool[i] == s.pool[i];
    assert NewTask(s, s', item.id);
    HasItem(Shown(h, s), item);
  }

  lemma {:induction false} SpawnRest(h: seq<Version>, steps: seq<Step>, s: Oracle, next: nat)
    returns (steps': seq<Step>, s': Oracle)
    requires At(h, steps, s) && AllSending(s) && s.work == Spawning(next)
    requires Showing(h, s) && next <= |Shown(h, s).items|
    ensures At(h, steps', s') && Spawned(Shown(h, s), s, s') && s'.work.Idle?
    ensures forall n :: next <= n < |Shown(h, s).items| ==> Shown(h, s).items[n].id in s'.inflight
    decreases |Shown(h, s).items| - next
  {
    hide At, Has;
    if next == |Shown(h, s).items| {
      Then(h, steps, s, Spawn);
      steps', s' := steps + [Spawn], Next(h, s, Spawn);
    } else {
      var steps1, s1 := SpawnOne(h, steps, s, next);
      steps', s' := SpawnRest(h, steps1, s1, next + 1);
      SpawnedTransitive(Shown(h, s), s, s1, s');
    }
  }

  /** The diff keeps every task and forgets what is dropped. */
  lemma DiffTasks(h: seq<Version>, s: Oracle)
    requires s.work.Diffing? && Showing(h, s)
    ensures var s' := Next(h, s, Diff);
            && s'.work == Spawning(0) && s'.views == s.views && SameTasks(s, s')
            && (AllSending(s) ==> AllSending(s'))
            && (forall id :: id in s'.inflight <==> id in s.inflight && !Dropped(Shown(h, s), s.latest, s.inflight, id))
  {
    hide Dropped;
  }

  /** A whole view: afterwards what it shows is tracked, what it drops is not, and
      whatever became tracked has got a new task. */
  ghost predicate Processed(v: Version, view: ChainView, s: Oracle, s': Oracle)
  {
    && s'.work.Idle? && AllSending(s') && s'.views == s.views + [view] && SameTasks(s, s')
    && (forall id :: Has(v, id) ==> id in s'.inflight)
    && (forall id :: id in s'.inflight ==> Has(v, id) || (id in s.inflight && view.slot <= s.inflight[id]))
    && (forall id :: id in s'.inflight && id !in s.inflight ==> NewTask(s, s', id))
  }

  lemma ProcessView(h: seq<Version>, steps: seq<Step>, s: Oracle, view: ChainView)
    returns (steps': seq<Step>, s': Oracle)
    requires At(h, steps, s) && AllSending(s) && s.work.Idle? && view.n < |h| && !Stale(s.latest, view)
    ensures At(h, steps', s') && Processed(h[view.n], view, s, s')
  {
    hide At;
    Then(h, steps, s, AcceptView(view));
    var s1 := Next(h, s, AcceptView(view));
    Then(h, steps + [AcceptView(view)], s1, Diff);
    var s2 := Next(h, s1, Diff);
    DiffTasks(h, s1);
    assert s1 == s.(latest := view.slot, views := s.views + [view], work := Diffing);
    hide Next;
    steps', s' := SpawnRest(h, steps + [AcceptView(view)] + [Diff], s2, 0);
    ProcessedParts(h[view.n], view, s, s1, s2, s');
  }

  lemma ProcessedParts(v: Version, view: ChainView, s: Oracle, s1: Oracle, s2: Oracle, s': Oracle)
    requires s1 == s.(latest := view.slot, views := s.views + [view], work := Diffing)
    requires s2.views == s1.views && SameTasks(s1, s2) && |s2.pool| == |s1.pool|
    requires forall id :: id in s2.inflight <==> id in s1.inflight && !Dropped(v, s1.latest, s1.inflight, id)
    requires Spawned(v, s2, s') && s'.work.Idle?
    requires forall n :: 0 <= n < |v.items| ==> v.items[n].id in s'.inflight
    ensures Processed(v, view, s, s')
  {
    forall id | id in s'.inflight && id !in s.inflight ensures NewTask(s, s', id) {
      assert NewTask(s2, s', id);
    }
  }

  // ------------------------------------------- all views, without task steps

  /** A request shown again after a view dropped it. */
  ghost predicate Resurrected(h: seq<Version>, vs: seq<ChainView>, id: Id)
  {
    exists i, j, k, item :: Drops(h, vs, i, j, item) && item.id == id && j < k < |vs| && vs[k].n < |h| && Has(h[vs[k].n], id)
  }

  /** What was shown has a task; what was dropped is not tracked, or has two; and
      what was shown again has two. */
  ghost predicate Driven(h: seq<Version>, s: Oracle)
  {
    && s.work.Idle? && AllSending(s)
    && (forall i, item :: Shows(h, s.views, i, item) ==> HasTask(s, item.id))
    && (forall id :: Banned(h, s.views, id) && id in s.inflight ==> TwoTasks(s, id))
    && (forall id :: Resurrected(h, s.views, id) ==> TwoTasks(s, id))
  }

  lemma TasksStay(s: Oracle, s': Oracle, id: Id)
    requires SameTasks(s, s') && AllSending(s')
    ensures HasTask(s, id) ==> HasTask(s', id)
    ensures TwoTasks(s, id) ==> TwoTasks(s', id)
    ensures NewTask(s, s', id) ==> HasTask(s', id)
    ensures HasTask(s, id) && NewTask(s, s', id) ==> TwoTasks(s', id)
  {
    assert forall i :: InSendLoop(s, i) ==> InSendLoop(s', i) && s'.pool[i].id == s.pool[i].id;
    if NewTask(s, s', id) {
      var j :| |s.pool| <= j < |s'.pool| && s'.pool[j].id == id;
      assert InSendLoop(s', j);
    }
  }

  /** A view shown before the last was shown before; the last shows its own state. */
  lemma ShowsSplit(h: seq<Version>, vs: seq<ChainView>, view: ChainView, i: int, item: Item)
    requires Shows(h, vs + [view], i, item)
    ensures Shows(h, vs, i, item) || (i == |vs| && view.n < |h| && Has(h[view.n], item.id))
  {
    if i == |vs| { HasItem(h[view.n], item); }
  }

  /** A drop is an earlier one, or it is by the last view. */
  lemma BannedSplit(h: seq<Version>, vs: seq<ChainView>, view: ChainView, id: Id) returns (i: int, item: Item)
    requires Banned(h, vs + [view], id)
    ensures Banned(h, vs, id)
            || (Shows(h, vs, i, item) && item.id == id && view.n < |h| && !Has(h[view.n], id) && item.slot < view.slot)
  {
    hide Has;
    var j: int;
    i, j, item :| Drops(h, vs + [view], i, j, item) && item.id == id;
    if j < |vs| { assert Drops(h, vs, i, j, item); }
  }

  lemma ResurrectedSplit(h: seq<Version>, vs: seq<ChainView>, view: ChainView, id: Id)
    requires Resurrected(h, vs + [view], id)
    ensures Resurrected(h, vs, id) || (Banned(h, vs, id) && view.n < |h| && Has(h[view.n], id))
  {
    hide Has;
    var vs' := vs + [view];
    var i, j, k, item :|
      Drops(h, vs', i, j, item) && item.id == id && j < k < |vs'| && vs'[k].n < |h| && Has(h[vs'[k].n], id);
    assert Drops(h, vs, i, j, item);
    assert k < |vs| ==> vs[k] == vs'[k];
  }

  /** A tracked request carries the slot it is shown with. */
  lemma TrackedSlot(h: seq<Version>, s: Oracle, i: int, item: Item)
    requires OneSlot(h) && Tracked(h, s) && Shows(h, s.views, i, item) && item.id in s.inflight
    ensures s.inflight[item.id] == item.slot
  {
    hide Has;
    var tracked := Item(item.id, s.inflight[item.id]);
    assert Sighted(h, s.views, tracked);
    var j :| Shows(h, s.views, j, tracked);
    assert tracked in h[s.views[j].n].items && item in h[s.views[i].n].items;
  }

  lemma BannedHasTask(h: seq<Version>, s: Oracle, id: Id)
    requires Driven(h, s) && Banned(h, s.views, id)
    ensures HasTask(s, id)
  {
    hide HasTask, TwoTasks, Resurrected, Has;
    var i, j, item :| Drops(h, s.views, i, j, item) && item.id == id;
  }

  /** A dropped request that the view shows gets a second task. */
  lemma ShownAgain(h: seq<Version>, s: Oracle, view: ChainView, s': Oracle, id: Id)
    requires Driven(h, s) && view.n < |h| && Processed(h[view.n], view, s, s')
    requires Banned(h, s.views, id) && Has(h[view.n], id)
    ensures TwoTasks(s', id)
  {
    BannedHasTask(h, s, id);
    hide HasTask, TwoTasks, Resurrected, Has, Banned, NewTask;
    TasksStay(s, s', id);
  }

  lemma DrivenShows(h: seq<Version>, s: Oracle, view: ChainView, s': Oracle, i: int, item: Item)
    requires Tracked(h, s) && Driven(h, s) && view.n < |h| && Processed(h[view.n], view, s, s')
    requires Shows(h, s'.views, i, item)
    ensures HasTask(s', item.id)
  {
    ShowsSplit(h, s.views, view, i, item);
    TasksStay(s, s', item.id);
    hide HasTask, TwoTasks, Resurrected, Has, Banned, NewTask;
    if !Shows(h, s.views, i, item) && item.id in s.inflight {
      var j :| Shows(h, s.views, j, Item(item.id, s.inflight[item.id]));
    }
  }

  lemma DrivenBanned(h: seq<Version>, s: Oracle, view: ChainView, s': Oracle, id: Id)
    requires OneSlot(h) && Tracked(h, s) && Driven(h, s) && view.n < |h| && Processed(h[view.n], view, s, s')
    requires Banned(h, s'.views, id) && id in s'.inflight
    ensures TwoTasks(s', id)
  {
    var i, item := BannedSplit(h, s.views, view, id);
    hide HasTask, TwoTasks, Resurrected, Has, Banned, NewTask, Tracked, OneSlot;
    TasksStay(s, s', id);
    if Banned(h, s.views, id) {
      if Has(h[view.n], id) { ShownAgain(h, s, view, s', id); }
    } else {
      TrackedSlot(h, s, i, item);
    }
  }

  lemma DrivenNext(h: seq<Version>, s: Oracle, view: ChainView, s': Oracle)
    requires OneSlot(h) && Tracked(h, s) && Driven(h, s) && view.n < |h| && Processed(h[view.n], view, s, s')
    ensures Driven(h, s')
  {
    forall i, item | Shows(h, s'.views, i, item) ensures HasTask(s', item.id) {
      DrivenShows(h, s, view, s', i, item);
    }
    forall id | Banned(h, s'.views, id) && id in s'.inflight ensures TwoTasks(s', id) {
      DrivenBanned(h, s, view, s', id);
    }
    hide HasTask, TwoTasks, Resurrected, Has, Banned, NewTask, Tracked, OneSlot, Shows;
    forall id | Resurrected(h, s'.views, id) ensures TwoTasks(s', id) {
      ResurrectedSplit(h, s.views, view, id);
      TasksStay(s, s', id);
      if !Resurrected(h, s.views, id) { ShownAgain(h, s, view, s', id); }
    }
  }

  lemma DrivenAtStart(h: seq<Version>)
    ensures Driven(h, Empty())
  {
  }

  lemma AcceptablePrefix(vs: seq<ChainView>, view: ChainView)
    requires Acceptable(vs + [view])
    ensures Acceptable(vs) && !Stale(SlotBefore(vs, |vs|), view)
  {
    var all := vs + [view];
    assert !Stale(SlotBefore(all, |vs|), all[|vs|]);
    forall i | 0 <= i < |vs| ensures !Stale(SlotBefore(vs, i), vs[i]) {
      assert !Stale(SlotBefore(all, i), all[i]);
    }
  }

  lemma DriveOne(h: seq<Version>, steps: seq<Step>, s: Oracle, view: ChainView) returns (steps': seq<Step>, s': Oracle)
    requires OneSlot(h) && At(h, steps, s) && Driven(h, s) && view.n < |h|
    requires !Stale(SlotBefore(s.views, |s.views|), view)
    ensures At(h, steps', s') && s'.views == s.views + [view] && Driven(h, s')
  {
    TrackedRun(h, steps);
    hide Run, Sighted, OneSlot, HasTask, TwoTasks, Banned, Resurrected, Shows, Has, NewTask;
    steps', s' := ProcessView(h, steps, s, view);
    hide Driven, Tracked, Processed;
    DrivenNext(h, s, view, s');
    ProcessedViews(h[view.n], view, s, s');
  }

  lemma ProcessedViews(v: Version, view: ChainView, s: Oracle, s': Oracle)
    requires Processed(v, view, s, s')
    ensures s'.views == s.views + [view]
  {
  }

  /** The interleaving that takes the views one by one and no task step but starts. */
  lemma {:induction false} DriveViews(h: seq<Version>, vs: seq<ChainView>) returns (steps: seq<Step>, s: Oracle)
    requires OneSlot(h) && Acceptable(vs) && forall i :: 0 <= i < |vs| ==> vs[i].n < |h|
    ensures At(h, steps, s) && s.views == vs && Driven(h, s)
  {
    hide Driven, OneSlot, Acceptable, SlotBefore, Next;
    if vs == [] {
      steps, s := [], Empty();
      DrivenAtStart(h);
    } else {
      var before, view := vs[..|vs| - 1], Newest(vs);
      assert vs == before + [view];
      AcceptablePrefix(before, view);
      steps, s := DriveViews(h, before);
      steps, s := DriveOne(h, steps, s, view);
    }
  }

  lemma SomeResurrected(h: seq<Version>, vs: seq<ChainView>) returns (id: Id)
    requires !NoResurrection(h, vs)
    ensures Resurrected(h, vs, id)
  {
    hide Has;
    var i, j, k, item :| Drops(h, vs, i, j, item) && j < k < |vs| && vs[k].n < |h| && Has(h[vs[k].n], item.id);
    id := item.id;
  }

  lemma TwoTasksBreak(s: Oracle, id: Id)
    requires TwoTasks(s, id)
    ensures !OneTask(s)
  {
  }

  /** Views that show again what was dropped have an interleaving with two tasks. */
  lemma ResurrectionBreaks(h: seq<Version>, vs: seq<ChainView>) returns (steps: seq<Step>)
    requires OneSlot(h) && Acceptable(vs) && forall i :: 0 <= i < |vs| ==> vs[i].n < |h|
    requires !NoResurrection(h, vs)
    ensures Run(h, steps).views == vs && !OneTask(Run(h, steps))
  {
    var id := SomeResurrected(h, vs);
    var s: Oracle;
    steps, s := DriveViews(h, vs);
    hide Run, Resurrected, Banned, HasTask, TwoTasks, Acceptable, OneSlot, NoResurrection, Shows, OneTask;
    TwoTasksBreak(s, id);
  }

  /** For any views as the staleness check lets them through: one task per request in
      every interleaving, if and only if no view shows again what an earlier one
      dropped. */
  lemma OneTaskExactly(h: seq<Version>, vs: seq<ChainView>)
    requires OneSlot(h) && Acceptable(vs) && forall i :: 0 <= i < |vs| ==> vs[i].n < |h|
    ensures (forall steps :: Run(h, steps).views == vs ==> OneTask(Run(h, steps))) <==> NoResurrection(h, vs)
  {
    hide Run, NoResurrection, OneTask, OneSlot, Acceptable;
    if NoResurrection(h, vs) {
      forall steps | Run(h, steps).views == vs ensures OneTask(Run(h, steps)) {
        OneTaskPerRequest(h, steps);
      }
    } else {
      var steps := ResurrectionBreaks(h, vs);
    }
  }
}
