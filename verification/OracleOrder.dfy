/** Which order of the views one task per request needs: chain order is enough, a
    client can tell it from the views' kinds and slots, and the staleness check alone
    does not give it. */
module OracleOrder {
  import opened OracleProtocol
  import opened OracleSafety

  // ------------------------------------------------------- enough: chain order

  /** What a view drops is gone, so a view of the same or a later state cannot show it. */
  lemma OrderedNeverResurrect(h: seq<Version>, vs: seq<ChainView>)
    requires GenuineHistory(h) && GenuineViews(h, vs) && OrderedViews(vs)
    ensures NoResurrection(h, vs)
  {
    hide GenuineHistory, Has, Gone;
    forall i, j, k, item | Drops(h, vs, i, j, item) && j < k < |vs| && vs[k].n < |h|
      ensures !Has(h[vs[k].n], item.id)
    {
      assert Sighted(h, vs, item) && Current(h, vs[j].n, vs[j].slot);
      MissingIsGone(h, vs, vs[j].n, vs[j].slot, item);
      GoneForever(h, vs[j].n, vs[k].n, item.id);
      GoneIsMissing(h, vs[k].n, item.id);
    }
  }

  lemma GoneIsMissing(h: seq<Version>, n: nat, id: Id)
    requires Gone(h, n, id)
    ensures n < |h| && !Has(h[n], id)
  {
  }

  /** Notifications in stream order, and none accepted in the slot of an accepted
      snapshot: then the accepted views are in chain order. */
  lemma StreamIsOrdered(h: seq<Version>, vs: seq<ChainView>)
    requires SlotsOrdered(h) && GenuineViews(h, vs) && Acceptable(vs)
    requires StreamOrder(vs) && SnapshotsCloseSlots(vs)
    ensures OrderedViews(vs)
  {
    hide SlotsOrdered, Acceptable;
    forall i, j | 0 <= i < j < |vs| ensures vs[i].n <= vs[j].n {
      SlotsGrow(vs, i, j);
      assert Current(h, vs[i].n, vs[i].slot) && Current(h, vs[j].n, vs[j].slot);
      if vs[i].slot < vs[j].slot {
        EarlierSlotEarlierState(h, vs[j].n, vs[j].slot, vs[i].n);
      }
    }
  }

  /** Over all interleavings: with such views each request has at most one task in the
      send loop. */
  lemma StreamedViewsSafe(h: seq<Version>, steps: seq<Step>)
    requires GenuineHistory(h) && GenuineViews(h, Run(h, steps).views)
    requires StreamOrder(Run(h, steps).views) && SnapshotsCloseSlots(Run(h, steps).views)
    ensures OneTask(Run(h, steps))
  {
    AcceptedViews(h, steps);
    hide Run, OneTask, StreamOrder, SnapshotsCloseSlots, AllAppeared, NeverReturn, OneSlot, SlotsOrdered, Acceptable;
    StreamIsOrdered(h, Run(h, steps).views);
    OrderedNeverResurrect(h, Run(h, steps).views);
    OneTaskPerRequest(h, steps);
  }

  // ---------------------------------- not enough: the staleness check by itself

  /** A queue whose one request is stored in slot 1 and removed at the end of slot 2,
      in which the queue was written twice before. */
  function Sample(x: Id): seq<Version>
  {
    [Version(0, []), Version(1, [Item(x, 1)]), Version(2, [Item(x, 1)]), Version(2, [Item(x, 1)]), Version(2, [])]
  }

  lemma SampleShows(x: Id)
    ensures forall n, item :: 0 <= n < 5 ==> (item in Sample(x)[n].items <==> 1 <= n <= 3 && item == Item(x, 1))
    ensures forall n, id :: 0 <= n < 5 ==> (Has(Sample(x)[n], id) <==> 1 <= n <= 3 && id == x)
  {
    assert forall n :: 1 <= n <= 3 ==> Sample(x)[n].items[0] == Item(x, 1);
  }

  lemma SampleSlots(x: Id)
    ensures forall n :: 0 <= n < 5 ==> Sample(x)[n].slot == if n < 2 then n else 2
  {
  }

  lemma SampleGenuine(x: Id)
    ensures GenuineHistory(Sample(x))
  {
    var h := Sample(x);
    assert |h| == 5;
    SampleShows(x);
    SampleSlots(x);
    hide Sample, Has;
    forall i, item | 0 <= i < |h| && item in h[i].items ensures Appeared(h, i, item) {
      assert item in h[1].items;
    }
  }

  function Notification(n: nat, slot: nat): ChainView { ChainView(n, slot, false) }

  /** A notification of state n, which has the request, when nothing is tracked: a
      new task starts. */
  lemma NotificationStartsTask(x: Id, steps: seq<Step>, s: Oracle, n: nat) returns (steps': seq<Step>)
    requires 1 <= n <= 3
    requires At(Sample(x), steps, s) && s.work.Idle? && s.inflight == map[] && s.latest <= Sample(x)[n].slot
    ensures At(Sample(x), steps', Oracle(Sample(x)[n].slot, s.views + [Notification(n, Sample(x)[n].slot)],
                                         map[x := 1], s.handles[x := |s.pool|],
                                         s.pool + [Task(x, Sending, false)], Idle))
  {
    var h := Sample(x);
    var p := |s.pool|;
    var slot := h[n].slot;
    assert h[n].items == [Item(x, 1)];
    hide At, Sample;
    var view := Notification(n, slot);
    var s1 := s.(latest := slot, views := s.views + [view], work := Diffing);
    Then(h, steps, s, AcceptView(view));
    assert Next(h, s, AcceptView(view)) == s1;
    var a := steps + [AcceptView(view)];
    DiffOfNothing(h, s1);
    Then(h, a, s1, Diff);
    var s2 := s1.(work := Spawning(0));
    Then(h, a + [Diff], s2, Spawn);
    var s3 := s2.(inflight := map[x := 1], pool := s.pool + [Task(x, Waiting, false)], work := Publishing(0, p));
    assert Next(h, s2, Spawn) == s3;
    Then(h, a + [Diff] + [Spawn], s3, Publish);
    var s4 := s3.(handles := s.handles[x := p], work := Starting(0, p));
    assert Next(h, s3, Publish) == s4;
    Then(h, a + [Diff] + [Spawn] + [Publish], s4, Start);
    var s5 := s4.(pool := s.pool + [Task(x, Sending, false)], work := Spawning(1));
    assert Next(h, s4, Start).pool == s5.pool;
    Then(h, a + [Diff] + [Spawn] + [Publish] + [Start], s5, Spawn);
    steps' := a + [Diff] + [Spawn] + [Publish] + [Start] + [Spawn];
  }

  lemma DiffOfNothing(h: seq<Version>, s: Oracle)
    requires s.work.Diffing? && Showing(h, s) && s.inflight == map[]
    ensures Next(h, s, Diff) == s.(work := Spawning(0))
  {
    hide Has;
    var gone := DroppedSet(Shown(h, s), s.latest, s.inflight);
    assert forall id :: id !in gone;
    assert Aborted(s.handles, gone, s.pool) == s.pool;
    assert Kept(s.handles, gone) == s.handles;
  }

  const LAST_STATE: ChainView := ChainView(4, 2, true)

  /** The first task, half way through its cleanup. */
  function HalfCleaned(x: Id): Oracle
  {
    Oracle(1, [Notification(1, 1)], map[x := 1], map[], [Task(x, Unlisted, false)], Idle)
  }

  /** A snapshot that shows the request gone, while its task is between its two
      cleanup regions: the diff forgets the request but cannot abort the task. */
  lemma SnapshotForgets(x: Id, steps: seq<Step>) returns (steps': seq<Step>)
    requires At(Sample(x), steps, HalfCleaned(x))
    ensures At(Sample(x), steps', HalfCleaned(x).(latest := 2, views := [Notification(1, 1), LAST_STATE], inflight := map[]))
  {
    var h := Sample(x);
    SampleShows(x);
    var s := HalfCleaned(x);
    var s1 := s.(latest := 2, views := [Notification(1, 1), LAST_STATE], work := Diffing);
    Then(h, steps, s, AcceptView(LAST_STATE));
    assert Next(h, s, AcceptView(LAST_STATE)) == s1;
    var a := steps + [AcceptView(LAST_STATE)];
    Then(h, a, s1, Diff);
    var s2 := s1.(inflight := map[], work := Spawning(0));
    assert Next(h, s1, Diff) == s2 by {
      var gone := DroppedSet(h[4], 2, s1.inflight);
      assert x in gone;
      assert Kept(s1.inflight, gone) == map[];
      assert Kept(s1.handles, gone) == map[];
      assert Aborted(s1.handles, gone, s1.pool) == s1.pool;
    }
    Then(h, a + [Diff], s2, Spawn);
    steps' := a + [Diff] + [Spawn];
  }

  /** The first task starts, gives up and is half way through its cleanup. */
  lemma FirstTaskGivesUp(x: Id) returns (steps: seq<Step>)
    ensures At(Sample(x), steps, HalfCleaned(x))
  {
    var h := Sample(x);
    var a := NotificationStartsTask(x, [], Empty(), 1);
    assert h[1].slot == 1;
    hide At, Sample;
    var s0 := Oracle(1, [Notification(1, 1)], map[x := 1], map[x := 0], [Task(x, Sending, false)], Idle);
    assert Empty().pool + [Task(x, Sending, false)] == [Task(x, Sending, false)];
    assert Empty().views + [Notification(1, 1)] == [Notification(1, 1)];
    Then(h, a, s0, Exit(0));
    var s1 := s0.(pool := [Task(x, Exited, false)]);
    assert Next(h, s0, Exit(0)) == s1;
    Then(h, a + [Exit(0)], s1, CleanHandle(0));
    assert Next(h, s1, CleanHandle(0)) == HalfCleaned(x);
    steps := a + [Exit(0)] + [CleanHandle(0)];
  }

  /** The views of the failing run: a snapshot of slot 2 overtakes two notifications
      of that slot, which arrive in stream order. */
  function OvertakenViews(): seq<ChainView>
  {
    [Notification(1, 1), LAST_STATE, Notification(2, 2), Notification(3, 2)]
  }

  lemma OvertakenGenuine(x: Id)
    ensures GenuineViews(Sample(x), OvertakenViews()) && StreamOrder(OvertakenViews())
  {
  }

  /** Genuine views, with the notifications in the order of the stream, are not
      enough: after a snapshot the notifications of its slot that are still under way
      are accepted, and a request can have two tasks in the send loop, neither of
      them aborted. */
  lemma LaggingNotificationsDuplicateTasks(x: Id) returns (steps: seq<Step>)
    ensures GenuineHistory(Sample(x)) && Run(Sample(x), steps).views == OvertakenViews()
    ensures GenuineViews(Sample(x), OvertakenViews()) && StreamOrder(OvertakenViews())
    ensures var s := Run(Sample(x), steps);
            && InSendLoop(s, 1) && InSendLoop(s, 2) && s.pool[1].id == s.pool[2].id
            && !s.pool[1].aborted && !s.pool[2].aborted
  {
    var h := Sample(x);
    SampleGenuine(x);
    SampleSlots(x);
    OvertakenGenuine(x);
    hide GenuineHistory, GenuineViews, StreamOrder, Sample, Run;
    var a := FirstTaskGivesUp(x);
    var b := SnapshotForgets(x, a);
    var s3 := HalfCleaned(x).(latest := 2, views := [Notification(1, 1), LAST_STATE], inflight := map[]);
    var c := NotificationStartsTask(x, b, s3, 2);
    var s4 := Oracle(2, [Notification(1, 1), LAST_STATE, Notification(2, 2)], map[x := 1], map[x := 1],
                     [Task(x, Unlisted, false), Task(x, Sending, false)], Idle);
    assert s3.pool + [Task(x, Sending, false)] == s4.pool && s3.views + [Notification(2, 2)] == s4.views;
    Then(h, c, s4, CleanInflight(0));
    var s5 := s4.(inflight := map[], pool := [Task(x, Done, false), Task(x, Sending, false)]);
    assert Next(h, s4, CleanInflight(0)) == s5;
    steps := NotificationStartsTask(x, c + [CleanInflight(0)], s5, 3);
    assert s5.views + [Notification(3, 2)] == OvertakenViews();
  }
}
