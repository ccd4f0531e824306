/** Safety of the view-diff protocol over all interleavings. */
module OracleSafety {
  import opened OracleProtocol

  /** The request was there in a state up to n and is not in state n. */
  ghost predicate Gone(h: seq<Version>, n: nat, id: Id)
  {
    n < |h| && !Has(h[n], id) && exists f :: 0 <= f < n && Has(h[f], id)
  }

  /** What is gone stays gone. */
  lemma GoneForever(h: seq<Version>, n: nat, m: nat, id: Id)
    requires GenuineHistory(h) && Gone(h, n, id) && n <= m < |h|
    ensures Gone(h, m, id)
  {
    var f :| 0 <= f < n && Has(h[f], id);
    assert m != n ==> !Has(h[m], id);
  }

  // ------------------------------------- aborts, without any order assumption

  /** Tracked requests were shown by an accepted view, with their enqueue slot. */
  ghost predicate Sighted(h: seq<Version>, vs: seq<ChainView>, item: Item)
  {
    exists i :: Shows(h, vs, i, item)
  }

  ghost predicate Tracked(h: seq<Version>, s: Oracle)
  {
    && (forall id :: id in s.inflight ==> Sighted(h, s.views, Item(id, s.inflight[id])))
    && s.latest == SlotBefore(s.views, |s.views|)
    && (!s.work.Idle? ==> s.views != [])
    && (forall id :: id in s.handles ==> s.handles[id] < |s.pool| && s.pool[s.handles[id]].id == id)
  }

  lemma SightedLater(h: seq<Version>, vs: seq<ChainView>, vs': seq<ChainView>, item: Item)
    requires vs <= vs' && Sighted(h, vs, item)
    ensures Sighted(h, vs', item)
  {
    var i :| Shows(h, vs, i, item);
    assert Shows(h, vs', i, item);
  }

  lemma TrackedNext(h: seq<Version>, s: Oracle, step: Step)
    requires Tracked(h, s)
    ensures Tracked(h, Next(h, s, step))
  {
    hide Aborted, Has, HandleDropped, Sighted;
    var s' := Next(h, s, step);
    match step
    case AcceptView(_) =>
      forall id | id in s.inflight ensures Sighted(h, s'.views, Item(id, s.inflight[id])) {
        SightedLater(h, s.views, s'.views, Item(id, s.inflight[id]));
      }
    case Spawn =>
      if s.work.Spawning? && Showing(h, s) && s.work.next < |Shown(h, s).items| {
        ShownNow(h, s, Shown(h, s).items[s.work.next]);
      }
    case _ =>
  }

  lemma ShownNow(h: seq<Version>, s: Oracle, item: Item)
    requires Showing(h, s) && item in Shown(h, s).items
    ensures Sighted(h, s.views, item)
  {
    assert Shows(h, s.views, |s.views| - 1, item);
  }

  lemma {:induction false} TrackedRun(h: seq<Version>, steps: seq<Step>)
    ensures Tracked(h, Run(h, steps))
  {
    if steps != [] {
      var before := steps[..|steps| - 1];
      TrackedRun(h, before);
      hide Tracked, Next;
      TrackedNext(h, Run(h, before), steps[|steps| - 1]);
    }
  }

  /** A state in the item's own enqueue slot that had it. */
  lemma EnqueueState(h: seq<Version>, vs: seq<ChainView>, item: Item) returns (f: nat)
    requires AllAppeared(h) && Sighted(h, vs, item)
    ensures f < |h| && Has(h[f], item.id) && h[f].slot == item.slot
  {
    hide Has;
    var i :| Shows(h, vs, i, item);
    assert Appeared(h, vs[i].n, item);
    hide AllAppeared;
    f :| 0 <= f <= vs[i].n && f < |h| && item in h[f].items && h[f].slot == item.slot;
    HasItem(h[f], item);
  }

  lemma HasItem(v: Version, item: Item)
    requires item in v.items
    ensures Has(v, item.id)
  {
    var j :| 0 <= j < |v.items| && v.items[j] == item;
  }

  lemma EarlierSlotEarlierState(h: seq<Version>, n: nat, slot: nat, f: nat)
    requires SlotsOrdered(h) && Current(h, n, slot) && f < |h| && h[f].slot < slot
    ensures f <= n
  {
  }

  /** A request missing from a state of a later slot than it was enqueued in has
      been removed: this is what the enqueue-slot guard of the diff buys. */
  lemma MissingIsGone(h: seq<Version>, vs: seq<ChainView>, n: nat, slot: nat, item: Item)
    requires GenuineHistory(h) && Current(h, n, slot) && Sighted(h, vs, item)
    requires slot > item.slot && !Has(h[n], item.id)
    ensures Gone(h, n, item.id)
  {
    hide NeverReturn, AllAppeared, SlotsOrdered, Has, Sighted, OneSlot;
    var f := EnqueueState(h, vs, item);
    EarlierSlotEarlierState(h, n, slot, f);
  }

  /** The step from s to s' aborts task t. */
  predicate Aborts(s: Oracle, s': Oracle, t: nat)
  {
    t < |s.pool| && t < |s'.pool| && !s.pool[t].aborted && s'.pool[t].aborted
  }

  lemma AbortMeansDropped(h: seq<Version>, s: Oracle, step: Step, t: nat)
    requires Tracked(h, s) && Aborts(s, Next(h, s, step), t)
    ensures t < |s.pool| && step.Diff? && Showing(h, s)
    ensures Dropped(Shown(h, s), s.latest, s.inflight, s.pool[t].id)
  {
    hide Has, Dropped, Sighted, Aborted;
  }

  /** In every run with genuine views, in whatever order they come, a task is
      aborted only if its request had been removed from the queue by the state shown,
      which was written no later than the view's slot; and it never comes back. */
  lemma AbortsOnlyRemoved(h: seq<Version>, steps: seq<Step>, step: Step, t: nat)
    requires GenuineHistory(h) && GenuineViews(h, Run(h, steps).views)
    requires Aborts(Run(h, steps), Next(h, Run(h, steps), step), t)
    ensures var s := Run(h, steps);
            && t < |s.pool| && Showing(h, s)
            && Shown(h, s).slot <= s.latest
            && forall m :: Newest(s.views).n <= m < |h| ==> Gone(h, m, s.pool[t].id)
  {
    hide Run, GenuineHistory, Has, Gone, Next, Sighted;
    var s := Run(h, steps);
    TrackedRun(h, steps);
    AbortMeansDropped(h, s, step, t);
    var n := Newest(s.views).n;
    var id := s.pool[t].id;
    assert Current(h, n, s.latest);
    MissingIsGone(h, s.views, n, s.latest, Item(id, s.inflight[id]));
    forall m | n <= m < |h| ensures Gone(h, m, id) { GoneForever(h, n, m, id); }
  }

  /** Tracked, of an earlier slot than the view's, and not among its items. */
  ghost predicate Missing(v: Version, slot: nat, inflight: map<Id, nat>, id: Id)
  {
    && id in inflight && inflight[id] < slot
    && forall k :: 0 <= k < |v.items| ==> v.items[k].id != id
  }

  /** What a diff against v does: a task becomes aborted, whatever its phase, exactly
      if it is the published task of a missing request; the missing requests and their
      handles are forgotten, and no others; nothing else changes about any task. */
  ghost predicate Diffed(v: Version, slot: nat, s: Oracle, s': Oracle)
  {
    && |s'.pool| == |s.pool|
    && (forall t :: 0 <= t < |s.pool| ==>
         && s'.pool[t].id == s.pool[t].id && s'.pool[t].phase == s.pool[t].phase
         && (s'.pool[t].aborted <==>
             s.pool[t].aborted || exists id :: id in s.handles && s.handles[id] == t && Missing(v, slot, s.inflight, id)))
    && (forall id :: id in s'.inflight <==> id in s.inflight && !Missing(v, slot, s.inflight, id))
    && (forall id :: id in s'.handles <==> id in s.handles && !Missing(v, slot, s.inflight, id))
    && (forall id :: id in s'.inflight ==> s'.inflight[id] == s.inflight[id])
    && (forall id :: id in s'.handles ==> s'.handles[id] == s.handles[id])
    && s'.views == s.views && s'.latest == s.latest && s'.work == Spawning(0)
  }

  lemma DiffIs(v: Version, s: Oracle)
    ensures Diffed(v, s.latest, s, ApplyDiff(v, s))
  {
    var gone := DroppedSet(v, s.latest, s.inflight);
    forall id ensures id in gone <==> Missing(v, s.latest, s.inflight, id) {}
    hide Missing, Dropped, DroppedSet;
    forall t | 0 <= t < |s.pool|
      ensures HandleDropped(s.handles, gone, t)
              <==> exists id :: id in s.handles && s.handles[id] == t && Missing(v, s.latest, s.inflight, id)
    {
    }
  }

  /** In every run the diff of the view in work, and no other step, aborts tasks:
      exactly the published tasks of the tracked requests of earlier slots that the view
      does not show. */
  lemma AbortsExactly(h: seq<Version>, steps: seq<Step>, step: Step)
    ensures var s := Run(h, steps);
            var s' := Run(h, steps + [step]);
            && (step.Diff? && s.work.Diffing? && Showing(h, s) ==> Diffed(Shown(h, s), Newest(s.views).slot, s, s'))
            && (!step.Diff? ==>
                |s.pool| <= |s'.pool| && forall t :: 0 <= t < |s.pool| ==> s'.pool[t].aborted == s.pool[t].aborted)
  {
    TrackedRun(h, steps);
    var s := Run(h, steps);
    Then(h, steps, s, step);
    hide Run, Diffed, ApplyDiff, Tracked;
    if step.Diff? && s.work.Diffing? && Showing(h, s) {
      LatestIs(h, s);
      DiffIs(Shown(h, s), s);
    }
  }

  // ------------------------------------------------------------- stale views

  lemma AcceptableNext(h: seq<Version>, s: Oracle, step: Step)
    requires Tracked(h, s) && Acceptable(s.views)
    ensures Acceptable(Next(h, s, step).views)
  {
    hide Sighted, ApplyDiff;
    if step.AcceptView? {
      var vs := Next(h, s, step).views;
      forall i | 0 <= i < |vs| ensures !Stale(SlotBefore(vs, i), vs[i]) {
        assert i < |s.views| ==> !Stale(SlotBefore(s.views, i), s.views[i]);
      }
    } else {
      ViewsKept(h, s, step);
    }
  }

  lemma ViewsKept(h: seq<Version>, s: Oracle, step: Step)
    requires !step.AcceptView?
    ensures Next(h, s, step).views == s.views
  {
  }

  /** No accepted view is stale after those before it. */
  lemma {:induction false} AcceptedViews(h: seq<Version>, steps: seq<Step>)
    ensures Acceptable(Run(h, steps).views)
  {
    if steps != [] {
      var before := steps[..|steps| - 1];
      AcceptedViews(h, before);
      TrackedRun(h, before);
      hide Tracked, Acceptable, Next;
      AcceptableNext(h, Run(h, before), steps[|steps| - 1]);
    }
  }

  lemma {:induction false} SlotsGrow(vs: seq<ChainView>, i: nat, j: nat)
    requires Acceptable(vs) && i < j < |vs|
    ensures vs[i].slot <= vs[j].slot && (vs[j].snapshot ==> vs[i].slot < vs[j].slot)
    decreases j
  {
    assert !Stale(SlotBefore(vs, j), vs[j]);
    if i < j - 1 {
      SlotsGrow(vs, i, j - 1);
    }
  }

  /** After any run, an idle oracle turns a view away exactly if an accepted one was
      of a later slot, or of the same slot and the view is a snapshot. */
  lemma AcceptsExactly(h: seq<Version>, steps: seq<Step>, view: ChainView)
    requires Run(h, steps).work.Idle? && view.slot > 0
    ensures var s := Run(h, steps);
            Next(h, s, AcceptView(view)) == s <==>
            exists i :: 0 <= i < |s.views| && Stale(s.views[i].slot, view)
  {
    TrackedRun(h, steps);
    AcceptedViews(h, steps);
    hide Run, Sighted, Acceptable;
    var s := Run(h, steps);
    if s.views != [] {
      forall i | 0 <= i < |s.views| ensures s.views[i].slot <= s.latest {
        if i < |s.views| - 1 { SlotsGrow(s.views, i, |s.views| - 1); }
      }
      if Stale(s.latest, view) {
        assert Stale(s.views[|s.views| - 1].slot, view);
      }
    }
  }

  lemma LatestNext(h: seq<Version>, s: Oracle, step: Step)
    ensures s.latest <= Next(h, s, step).latest
  {
  }

  lemma {:induction false} LatestGrows(h: seq<Version>, steps: seq<Step>, i: nat, j: nat)
    requires i <= j <= |steps|
    ensures Run(h, steps[..i]).latest <= Run(h, steps[..j]).latest
    decreases j
  {
    hide Run, Next;
    if i < j {
      LatestGrows(h, steps, i, j - 1);
      StateAfter(h, steps, j - 1);
      LatestNext(h, Run(h, steps[..j - 1]), steps[j - 1]);
    }
  }

  lemma StateAfter(h: seq<Version>, steps: seq<Step>, i: nat)
    requires i < |steps|
    ensures Run(h, steps[..i + 1]) == Next(h, Run(h, steps[..i]), steps[i])
  {
    hide Next;
    assert steps[..i + 1][..i] == steps[..i];
  }

  /** Once a view was accepted, no later view of an older slot, and no later snapshot
      that is not strictly newer, changes anything, whatever happened in between. */
  lemma StaleViewsIgnored(h: seq<Version>, steps: seq<Step>, i: nat, j: nat)
    requires i < j < |steps| && steps[i].AcceptView? && steps[j].AcceptView?
    requires Run(h, steps[..i + 1]) != Run(h, steps[..i])
    requires Stale(steps[i].view.slot, steps[j].view)
    ensures Run(h, steps[..j + 1]) == Run(h, steps[..j])
  {
    StateAfter(h, steps, i);
    StateAfter(h, steps, j);
    LatestGrows(h, steps, i + 1, j);
    hide Run;
  }

  // ---------------------------------------------------- one task per request

  predicate Alive(s: Oracle, i: int) { 0 <= i < |s.pool| && s.pool[i].phase != Done }

  /** No request has two tasks that may still act. */
  ghost predicate OneAlive(s: Oracle)
  {
    forall i, j :: Alive(s, i) && Alive(s, j) && s.pool[i].id == s.pool[j].id ==> i == j
  }

  /** A published handle: its request is in flight, and it is the handle of the only
      task of that request that may still act. */
  ghost predicate HandleOk(s: Oracle, id: Id)
  {
    && id in s.inflight && id in s.handles
    && s.handles[id] < |s.pool|
    && s.pool[s.handles[id]].id == id
    && s.pool[s.handles[id]].phase != Unlisted
    && forall i :: Alive(s, i) && s.pool[i].id == id ==> i == s.handles[id]
  }

  ghost predicate HandlesOk(s: Oracle) { forall id :: id in s.handles ==> HandleOk(s, id) }

  /** Some accepted view dropped the request. */
  ghost predicate Banned(h: seq<Version>, vs: seq<ChainView>, id: Id)
  {
    exists i, j, item :: Drops(h, vs, i, j, item) && item.id == id
  }

  /** A task that may still act is tracked, unless a view dropped its request. */
  ghost predicate AliveTracked(h: seq<Version>, s: Oracle)
  {
    forall i :: Alive(s, i) ==> s.pool[i].id in s.inflight || Banned(h, s.views, s.pool[i].id)
  }

  /** The task being published or started waits, unpublished or published. */
  ghost predicate WorkOk(s: Oracle)
  {
    match s.work
    case Publishing(_, t) => InPhase(s, t, Waiting) && !s.pool[t].aborted && s.pool[t].id in s.inflight && s.pool[t].id !in s.handles
    case Starting(_, t) => InPhase(s, t, Waiting) && !s.pool[t].aborted && s.pool[t].id in s.handles && s.handles[s.pool[t].id] == t
    case _ => true
  }

  ghost predicate Safe(h: seq<Version>, s: Oracle)
  {
    Tracked(h, s) && OneAlive(s) && HandlesOk(s) && AliveTracked(h, s) && WorkOk(s)
  }

  lemma BannedLater(h: seq<Version>, vs: seq<ChainView>, vs': seq<ChainView>, id: Id)
    requires vs <= vs' && Banned(h, vs, id)
    ensures Banned(h, vs', id)
  {
    var i, j, item :| Drops(h, vs, i, j, item) && item.id == id;
    assert Drops(h, vs', i, j, item);
  }

  lemma SafeAccept(h: seq<Version>, s: Oracle, view: ChainView)
    requires Safe(h, s)
    ensures Safe(h, Next(h, s, AcceptView(view)))
  {
    hide Banned, Tracked;
    TrackedNext(h, s, AcceptView(view));
    var s' := Next(h, s, AcceptView(view));
    if s' != s {
      assert forall i :: Alive(s', i) <==> Alive(s, i);
      assert forall id :: HandleOk(s', id) <==> HandleOk(s, id);
      forall i | Alive(s', i) && s.pool[i].id !in s.inflight ensures Banned(h, s'.views, s.pool[i].id) {
        BannedLater(h, s.views, s'.views, s.pool[i].id);
      }
    }
  }

  /** The diff forgets the dropped requests and changes no task but for aborting it. */
  lemma DiffFrame(h: seq<Version>, s: Oracle)
    requires Next(h, s, Diff) != s
    ensures var s' := Next(h, s, Diff);
            && Showing(h, s) && s'.views == s.views && s'.work == Spawning(0)
            && |s'.pool| == |s.pool|
            && (forall i :: 0 <= i < |s.pool| ==> s'.pool[i].id == s.pool[i].id && s'.pool[i].phase == s.pool[i].phase)
            && (forall id :: id in s'.inflight <==>
                 id in s.inflight && !Dropped(Shown(h, s), s.latest, s.inflight, id))
            && (forall id :: id in s'.handles ==> id in s.handles && s'.handles[id] == s.handles[id])
            && (forall id :: id in s'.handles ==> !Dropped(Shown(h, s), s.latest, s.inflight, id))
  {
    hide Dropped;
  }

  lemma SafeDiff(h: seq<Version>, s: Oracle)
    requires Safe(h, s)
    ensures Safe(h, Next(h, s, Diff))
  {
    hide Banned, Tracked, Next, Dropped;
    TrackedNext(h, s, Diff);
    var s' := Next(h, s, Diff);
    if s' != s {
      DiffFrame(h, s);
      assert forall i :: Alive(s', i) <==> Alive(s, i);
      forall id | id in s'.handles ensures HandleOk(s', id) {
        assert HandleOk(s, id);
      }
      forall i | Alive(s', i) && s.pool[i].id !in s'.inflight ensures Banned(h, s.views, s.pool[i].id) {
        if s.pool[i].id in s.inflight { DiffDrops(h, s, s.pool[i].id); }
      }
    }
  }

  /** What the diff forgets was dropped by the view in work. */
  lemma DiffDrops(h: seq<Version>, s: Oracle, id: Id)
    requires Tracked(h, s) && Showing(h, s) && Dropped(Shown(h, s), s.latest, s.inflight, id)
    ensures Banned(h, s.views, id)
  {
    var item := Item(id, s.inflight[id]);
    assert Sighted(h, s.views, item);
    hide Has, Tracked;
    var i :| Shows(h, s.views, i, item);
    HasItem(h[s.views[i].n], item);
    assert s.latest == Newest(s.views).slot by { LatestIs(h, s); }
    assert Drops(h, s.views, i, |s.views| - 1, item);
  }

  lemma LatestIs(h: seq<Version>, s: Oracle)
    requires Tracked(h, s) && s.views != []
    ensures s.latest == Newest(s.views).slot
  {
  }

  /** Moving on to the next item, or finishing the view. */
  lemma SafeMoveOn(h: seq<Version>, s: Oracle, work: Work)
    requires Safe(h, s) && !s.work.Idle? && (work.Idle? || work.Spawning?)
    ensures Safe(h, s.(work := work))
  {
    hide Banned, Sighted, Has;
    var s' := s.(work := work);
    assert forall i :: Alive(s', i) <==> Alive(s, i);
    assert forall id :: HandleOk(s', id) <==> HandleOk(s, id);
  }

  /** A request shown by the current view and not tracked has no acting task. */
  lemma NoTaskYet(h: seq<Version>, s: Oracle, id: Id)
    requires AliveTracked(h, s) && NoResurrection(h, s.views)
    requires Showing(h, s) && Has(Shown(h, s), id) && id !in s.inflight
    ensures forall i :: Alive(s, i) ==> s.pool[i].id != id
  {
    hide Has, AliveTracked;
    NotBannedTracked(h, s, id);
  }

  lemma NotBannedTracked(h: seq<Version>, s: Oracle, id: Id)
    requires AliveTracked(h, s) && !Banned(h, s.views, id) && id !in s.inflight
    ensures forall i :: Alive(s, i) ==> s.pool[i].id != id
  {
    hide Banned;
  }

  lemma SafeReserve(h: seq<Version>, s: Oracle, s': Oracle, item: Item)
    requires Safe(h, s) && Tracked(h, s') && item.id !in s.inflight
    requires forall i :: Alive(s, i) ==> s.pool[i].id != item.id
    requires s' == s.(inflight := s.inflight[item.id := item.slot],
                      pool := s.pool + [Task(item.id, Waiting, false)], work := s'.work)
    requires s'.work.Publishing? && s'.work.task == |s.pool|
    ensures Safe(h, s')
  {
    hide Banned, Tracked;
    assert forall i :: 0 <= i < |s.pool| ==> s'.pool[i] == s.pool[i];
    assert forall i :: Alive(s', i) <==> Alive(s, i) || i == |s.pool|;
    forall other | other in s'.handles ensures HandleOk(s', other) {
      assert HandleOk(s, other);
    }
  }

  lemma SafeSpawn(h: seq<Version>, s: Oracle)
    requires Safe(h, s) && NoResurrection(h, s.views)
    ensures Safe(h, Next(h, s, Spawn))
  {
    TrackedNext(h, s, Spawn);
    hide Tracked, OneAlive, HandlesOk, AliveTracked, WorkOk, NoResurrection;
    if s.work.Spawning? && Showing(h, s) {
      var v := Shown(h, s);
      var next := s.work.next;
      if next < |v.items| && v.items[next].id !in s.inflight {
        assert Has(v, v.items[next].id);
        NoTaskYet(h, s, v.items[next].id);
        SafeReserve(h, s, Next(h, s, Spawn), v.items[next]);
      } else {
        SafeMoveOn(h, s, if next < |v.items| then Spawning(next + 1) else Idle);
      }
    }
  }

  lemma SafePublish(h: seq<Version>, s: Oracle)
    requires Safe(h, s)
    ensures Safe(h, Next(h, s, Publish))
  {
    hide Tracked, Banned;
    TrackedNext(h, s, Publish);
    var s' := Next(h, s, Publish);
    if s' != s {
      assert s'.pool == s.pool;
      assert forall i :: Alive(s', i) <==> Alive(s, i);
      forall id | id in s'.handles ensures HandleOk(s', id) {
        assert id in s.handles ==> HandleOk(s, id);
      }
    }
  }

  /** Changing only tasks' phases, none of them to Unlisted, and none back to life. */
  ghost predicate PhasesMove(s: Oracle, s': Oracle)
  {
    && s'.inflight == s.inflight && s'.handles == s.handles && s'.views == s.views && |s'.pool| == |s.pool|
    && (forall i :: 0 <= i < |s.pool| ==> s'.pool[i].id == s.pool[i].id)
    && (forall i :: 0 <= i < |s.pool| && s'.pool[i].phase == Unlisted ==> s.pool[i].phase == Unlisted)
    && (forall i :: Alive(s', i) ==> Alive(s, i))
  }

  lemma MovedHandles(s: Oracle, s': Oracle)
    requires HandlesOk(s) && PhasesMove(s, s')
    ensures HandlesOk(s')
  {
    forall id | id in s'.handles ensures HandleOk(s', id) {
      assert HandleOk(s, id);
    }
  }

  lemma MovedAlive(h: seq<Version>, s: Oracle, s': Oracle)
    requires OneAlive(s) && AliveTracked(h, s) && PhasesMove(s, s')
    ensures OneAlive(s') && AliveTracked(h, s')
  {
    hide Banned;
  }

  /** A task moving from one acting phase to another, neither of them Unlisted. */
  lemma SafePhase(h: seq<Version>, s: Oracle, t: nat, phase: TaskPhase, s': Oracle)
    requires Safe(h, s) && t < |s.pool| && phase != Unlisted
    requires s' == s.(pool := SetPhase(s.pool, t, phase), work := s'.work)
    requires (s'.work == s.work && (!InPhase(s, t, Waiting) || s.pool[t].aborted)) || (s'.work.Spawning? && !s.work.Idle?)
    requires Alive(s, t) || phase == Done
    ensures Safe(h, s')
  {
    hide Tracked, HandlesOk, OneAlive, AliveTracked;
    assert forall i :: 0 <= i < |s.pool| && i != t ==> s'.pool[i] == s.pool[i];
    assert PhasesMove(s, s');
    MovedHandles(s, s');
    MovedAlive(h, s, s');
    TrackedFrame(h, s, s');
  }

  lemma TrackedFrame(h: seq<Version>, s: Oracle, s': Oracle)
    requires Tracked(h, s) && s'.handles == s.handles && |s'.pool| == |s.pool|
    requires forall i :: 0 <= i < |s.pool| ==> s'.pool[i].id == s.pool[i].id
    requires s'.inflight == s.inflight && s'.views == s.views && s'.latest == s.latest
    requires !s'.work.Idle? ==> !s.work.Idle?
    ensures Tracked(h, s')
  {
  }

  lemma SafeCleanHandle(h: seq<Version>, s: Oracle, t: nat)
    requires Safe(h, s)
    ensures Safe(h, Next(h, s, CleanHandle(t)))
  {
    hide Tracked, Banned, Has;
    TrackedNext(h, s, CleanHandle(t));
    var s' := Next(h, s, CleanHandle(t));
    if InPhase(s, t, Exited) {
      hide Next;
      assert s' == s.(handles := s.handles - {s.pool[t].id}, pool := SetPhase(s.pool, t, Unlisted));
      assert forall i :: 0 <= i < |s.pool| && i != t ==> s'.pool[i] == s.pool[i];
      assert s'.pool[t].id == s.pool[t].id && Alive(s, t);
      assert forall i :: Alive(s', i) <==> Alive(s, i);
      forall id | id in s'.handles ensures HandleOk(s', id) {
        assert HandleOk(s, id);
      }
    }
  }

  lemma SafeCleanInflight(h: seq<Version>, s: Oracle, t: nat)
    requires Safe(h, s)
    ensures Safe(h, Next(h, s, CleanInflight(t)))
  {
    hide Tracked, Banned;
    TrackedNext(h, s, CleanInflight(t));
    var s' := Next(h, s, CleanInflight(t));
    if s' != s {
      var id := s.pool[t].id;
      assert forall i :: 0 <= i < |s.pool| && i != t ==> s'.pool[i] == s.pool[i];
      assert Alive(s, t) && forall i :: Alive(s', i) ==> Alive(s, i) && i != t;
      assert id !in s.handles by {
        assert id in s.handles ==> HandleOk(s, id);
      }
      forall other | other in s'.handles ensures HandleOk(s', other) {
        assert HandleOk(s, other);
      }
    }
  }

  lemma SafeNext(h: seq<Version>, s: Oracle, step: Step)
    requires Safe(h, s) && NoResurrection(h, s.views)
    ensures Safe(h, Next(h, s, step))
  {
    hide Tracked, OneAlive, HandlesOk, AliveTracked, NoResurrection;
    match step
    case AcceptView(view) => SafeAccept(h, s, view);
    case Diff => SafeDiff(h, s);
    case Spawn => SafeSpawn(h, s);
    case Publish => SafePublish(h, s);
    case Start => if Next(h, s, step) != s { SafePhase(h, s, s.work.task, Sending, Next(h, s, step)); }
    case Exit(t) => if Next(h, s, step) != s { SafePhase(h, s, t, Exited, Next(h, s, step)); }
    case CleanHandle(t) => SafeCleanHandle(h, s, t);
    case CleanInflight(t) => SafeCleanInflight(h, s, t);
    case Stop(t) => if Next(h, s, step) != s { SafePhase(h, s, t, Done, Next(h, s, step)); }
  }

  lemma ResurrectionLater(h: seq<Version>, vs: seq<ChainView>, vs': seq<ChainView>)
    requires vs <= vs' && NoResurrection(h, vs')
    ensures NoResurrection(h, vs)
  {
    hide Has;
    forall i, j, k, item | Drops(h, vs, i, j, item) && j < k < |vs| && vs[k].n < |h|
      ensures !Has(h[vs[k].n], item.id)
    {
      assert Drops(h, vs', i, j, item) && vs'[k] == vs[k];
    }
  }

  lemma {:induction false} SafeRun(h: seq<Version>, steps: seq<Step>)
    requires NoResurrection(h, Run(h, steps).views)
    ensures Safe(h, Run(h, steps))
  {
    if steps != [] {
      var before := steps[..|steps| - 1];
      ViewsGrow(h, Run(h, before), steps[|steps| - 1]);
      ResurrectionLater(h, Run(h, before).views, Run(h, steps).views);
      SafeRun(h, before);
      hide Safe, Next, NoResurrection;
      SafeNext(h, Run(h, before), steps[|steps| - 1]);
    }
  }

  lemma ViewsGrow(h: seq<Version>, s: Oracle, step: Step)
    ensures s.views <= Next(h, s, step).views
  {
    hide ApplyDiff;
    if !step.AcceptView? { ViewsKept(h, s, step); }
  }

  predicate InSendLoop(s: Oracle, i: int) { 0 <= i < |s.pool| && s.pool[i].phase == Sending }

  ghost predicate OneTask(s: Oracle)
  {
    forall i, j :: InSendLoop(s, i) && InSendLoop(s, j) && s.pool[i].id == s.pool[j].id ==> i == j
  }

  /** Over all interleavings of views, spawns, aborts that take effect late or never,
      and two-step cleanups, as long as no accepted view shows again what an earlier
      one dropped: no two tasks of one request are ever in the send loop, and every
      published task's request is in flight. */
  lemma OneTaskPerRequest(h: seq<Version>, steps: seq<Step>)
    requires NoResurrection(h, Run(h, steps).views)
    ensures var s := Run(h, steps);
            OneTask(s) && forall id :: id in s.handles ==> id in s.inflight
  {
    SafeRun(h, steps);
    hide Run, Tracked, AliveTracked, NoResurrection;
    var s := Run(h, steps);
    assert forall i :: InSendLoop(s, i) ==> Alive(s, i);
    assert forall id :: id in s.handles ==> HandleOk(s, id);
  }
}
