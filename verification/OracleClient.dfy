/** The oracle's shared maps as the processor updates them, one method per region
    in which it holds the locks.  Each extends the client's trace by one step of the
    protocol, so that what holds of every run holds of the client. */
module OracleClients {
  import opened OracleProtocol
  import opened OracleSafety

  ghost function Both(done: set<Id>, gone: iset<Id>): iset<Id> { iset id | id in done && id in gone }

  /** How the aborted tasks grow by one handled id. */
  lemma AbortOne(handles: map<Id, nat>, done: set<Id>, gone: iset<Id>, id: Id, pool: seq<Task>)
    ensures var before := Aborted(handles, Both(done, gone), pool);
            Aborted(handles, Both(done + {id}, gone), pool)
            == if id in gone && id in handles && handles[id] < |pool|
               then before[handles[id] := before[handles[id]].(aborted := true)] else before
  {
    var before, after := Both(done, gone), Both(done + {id}, gone);
    forall i: nat
      ensures HandleDropped(handles, after, i)
              <==> HandleDropped(handles, before, i) || (id in gone && id in handles && handles[id] == i)
    {
      if HandleDropped(handles, before, i) {
        var x :| x in before && x in handles && handles[x] == i;
        assert x in after;
      }
      if id in gone && id in handles && handles[id] == i {
        assert id in after;
      }
    }
  }

  lemma NoneAborted(handles: map<Id, nat>, gone: iset<Id>, pool: seq<Task>)
    ensures Aborted(handles, Both({}, gone), pool) == pool
  {
  }

  lemma NoneKept(m: map<Id, nat>, gone: iset<Id>)
    ensures Kept(m, Both({}, gone)) == m
  {
  }

  lemma KeptOne(m: map<Id, nat>, done: set<Id>, gone: iset<Id>, id: Id)
    requires id !in done
    ensures id in Kept(m, Both(done, gone)) <==> id in m
    ensures id in m ==> Kept(m, Both(done, gone))[id] == m[id]
    ensures Kept(m, Both(done + {id}, gone))
            == if id in gone then Kept(m, Both(done, gone)) - {id} else Kept(m, Both(done, gone))
  {
  }

  lemma BothAll(done: set<Id>, gone: iset<Id>)
    requires forall id :: id in gone ==> id in done
    ensures Both(done, gone) == gone
  {
  }

  /** What every method leaves behind, whatever methods ran before: the maps and
      tasks are those of the run, and unless a view showed again what an earlier one
      dropped, published tasks are in flight and no request has two tasks sending. */
  ghost predicate Kempt(h: seq<Version>, trace: seq<Step>, s: Oracle)
  {
    && At(h, trace, s)
    && (NoResurrection(h, s.views) ==> OneTask(s) && s.handles.Keys <= s.inflight.Keys)
  }

  lemma KemptThen(h: seq<Version>, trace: seq<Step>, s: Oracle, step: Step, s': Oracle)
    requires At(h, trace, s) && s' == Next(h, s, step)
    ensures Kempt(h, trace + [step], s')
  {
    Then(h, trace, s, step);
    hide Run, Next, NoResurrection, OneTask;
    if NoResurrection(h, s'.views) { OneTaskPerRequest(h, trace + [step]); }
  }

  lemma Untangle(h: seq<Version>, trace: seq<Step>, s: Oracle)
    requires Kempt(h, trace, s)
    ensures NoResurrection(h, s.views) ==> s.handles.Keys <= s.inflight.Keys
  {
  }

  class OracleClient {
    ghost const h: seq<Version>
    ghost var trace: seq<Step>
    ghost var views: seq<ChainView>
    var latest: nat
    var inflight: map<Id, nat>
    var handles: map<Id, nat>
    var pool: seq<Task>
    var work: Work

    ghost function View(): Oracle
      reads this
    {
      Oracle(latest, views, inflight, handles, pool, work)
    }

    ghost predicate Valid()
      reads this
    {
      Kempt(h, trace, View())
    }

    constructor (ghost h: seq<Version>)
      ensures this.h == h && trace == [] && View() == Empty() && Valid()
    {
      this.h, trace, views := h, [], [];
      latest, inflight, handles, pool, work := 0, map[], map[], [], Idle;
    }

    /** Under the view-order lock: drop a stale view, else record its slot. */
    method Accept(view: ChainView) returns (accepted: bool)
      requires Valid() && work.Idle?
      modifies this
      ensures Valid() && trace == old(trace) + [AcceptView(view)]
      ensures accepted == !Stale(old(latest), view)
      ensures accepted == if view.snapshot then view.slot > old(latest) else view.slot >= old(latest)
      ensures accepted ==> latest == view.slot && work.Diffing? && views == old(views) + [view]
      ensures !accepted ==> View() == old(View())
      ensures inflight == old(inflight) && handles == old(handles) && pool == old(pool)
    {
      hide Kempt;
      ghost var s := View();
      var stale := if view.snapshot then view.slot <= latest else view.slot < latest;
      if !stale {
        latest, work := view.slot, Diffing;
        views := views + [view];
      }
      Record(s, AcceptView(view));
      return !stale;
    }

    /** Note the step the client has just taken. */
    ghost method Record(s: Oracle, step: Step)
      requires Kempt(h, trace, s) && View() == Next(h, s, step)
      modifies this`trace
      ensures Valid() && trace == old(trace) + [step]
    {
      KemptThen(h, trace, s, step, View());
      trace := trace + [step];
    }

    method CurrentIds(v: Version) returns (ids: set<Id>)
      ensures forall id :: id in ids <==> Has(v, id)
    {
      ids := {};
      for i := 0 to |v.items|
        invariant forall id :: id in ids <==> exists k :: 0 <= k < i && v.items[k].id == id
      {
        ids := ids + {v.items[i].id};
      }
    }

    /** Under both map locks: cancel and forget what the view shows to be gone. */
    method DiffView(v: Version)
      requires Valid() && work.Diffing? && Showing(h, View()) && v == Shown(h, View())
      modifies this
      ensures Valid() && trace == old(trace) + [Diff]
      ensures View() == ApplyDiff(v, old(View()))
      ensures Diffed(v, old(latest), old(View()), View())
    {
      hide Has, Aborted, HandleDropped, Both, Kept, Kempt, Diffed;
      var ids := CurrentIds(v);
      ghost var s := View();
      ghost var gone := DroppedSet(v, s.latest, s.inflight);
      var pending := inflight.Keys;
      ghost var done: set<Id> := {};
      NoneAborted(handles, gone, pool);
      NoneKept(inflight, gone);
      NoneKept(handles, gone);
      while pending != {}
        invariant done + pending == s.inflight.Keys && done !! pending
        invariant latest == s.latest && views == s.views && work == s.work && trace == old(trace)
        invariant inflight == Kept(s.inflight, Both(done, gone))
        invariant handles == Kept(s.handles, Both(done, gone))
        invariant pool == Aborted(s.handles, Both(done, gone), s.pool)
        decreases pending
      {
        var id :| id in pending;
        KeptOne(s.inflight, done, gone, id);
        KeptOne(s.handles, done, gone, id);
        if id !in ids && latest > inflight[id] {
          assert id in gone;
          if id in handles && handles[id] < |pool| {
            pool := pool[handles[id] := pool[handles[id]].(aborted := true)];
          }
          handles := handles - {id};
          inflight := inflight - {id};
        } else {
          assert id !in gone;
        }
        AbortOne(s.handles, done, gone, id, s.pool);
        pending := pending - {id};
        done := done + {id};
      }
      work := Spawning(0);
      assert forall id :: id in gone ==> id in done;
      BothAll(done, gone);
      DiffIs(v, s);
      Record(s, Diff);
    }

    /** Under the inflight lock: skip a tracked item or reserve it and spawn. */
    method SpawnNext(v: Version)
      requires Valid() && work.Spawning? && Showing(h, View()) && v == Shown(h, View())
      modifies this
      ensures Valid() && trace == old(trace) + [Spawn]
      ensures View() == ApplySpawn(v, old(View()), old(work.next))
      ensures old(work.next) >= |v.items| ==> View() == old(View()).(work := Idle)
      ensures old(work.next) < |v.items| ==>
                var item := v.items[old(work.next)];
                View() == if item.id in old(inflight) then old(View()).(work := Spawning(old(work.next) + 1))
                          else old(View()).(inflight := old(inflight)[item.id := item.slot],
                                            pool := old(pool) + [Task(item.id, Waiting, false)],
                                            work := Publishing(old(work.next), |old(pool)|))
    {
      hide Kempt, Has;
      ghost var s := View();
      var next := work.next;
      if next >= |v.items| {
        work := Idle;
      } else if v.items[next].id in inflight {
        work := Spawning(next + 1);
      } else {
        var item := v.items[next];
        inflight := inflight[item.id := item.slot];
        work := Publishing(next, |pool|);
        pool := pool + [Task(item.id, Waiting, false)];
      }
      Record(s, Spawn);
    }

    /** Still under the inflight lock: publish the handle, then release. */
    method PublishTask()
      requires Valid() && work.Publishing? && work.task < |pool|
      modifies this
      ensures Valid() && trace == old(trace) + [Publish]
      ensures View() == old(View()).(handles := old(handles)[old(pool[work.task].id) := old(work.task)],
                                     work := Starting(old(work.next), old(work.task)))
    {
      hide Kempt, Has;
      ghost var s := View();
      handles := handles[pool[work.task].id := work.task];
      work := Starting(work.next, work.task);
      Record(s, Publish);
    }

    /** Let the published task go, and turn to the next item. */
    method StartTask()
      requires Valid() && work.Starting? && InPhase(View(), work.task, Waiting)
      modifies this
      ensures Valid() && trace == old(trace) + [Start]
      ensures View() == old(View()).(pool := old(pool)[old(work.task) := old(pool[work.task]).(phase := Sending)],
                                     work := Spawning(old(work.next) + 1))
    {
      hide Kempt, Has;
      ghost var s := View();
      pool := SetPhase(pool, work.task, Sending);
      work := Spawning(work.next + 1);
      Record(s, Start);
    }

    /** The task leaves its send loop, aborted or not. */
    method LeaveLoop(t: nat)
      requires Valid() && InPhase(View(), t, Sending)
      modifies this
      ensures Valid() && trace == old(trace) + [Exit(t)]
      ensures View() == old(View()).(pool := old(pool)[t := old(pool[t]).(phase := Exited)])
    {
      hide Kempt, Has;
      ghost var s := View();
      pool := SetPhase(pool, t, Exited);
      Record(s, Exit(t));
    }

    /** First cleanup region of a task: under the active-task lock. */
    method LeaveHandles(t: nat)
      requires Valid() && InPhase(View(), t, Exited)
      modifies this
      ensures Valid() && trace == old(trace) + [CleanHandle(t)]
      ensures View() == old(View()).(handles := old(handles) - {old(pool[t].id)},
                                     pool := old(pool)[t := old(pool[t]).(phase := Unlisted)])
    {
      hide Kempt, Has;
      ghost var s := View();
      handles := handles - {pool[t].id};
      pool := SetPhase(pool, t, Unlisted);
      Record(s, CleanHandle(t));
    }

    /** Second cleanup region of a task: under the inflight lock.  It deletes by id, yet
        leaves no published task of that id behind. */
    method LeaveInflight(t: nat)
      requires Valid() && InPhase(View(), t, Unlisted) && !work.Publishing?
      modifies this
      ensures Valid() && trace == old(trace) + [CleanInflight(t)]
      ensures View() == old(View()).(inflight := old(inflight) - {old(pool[t].id)},
                                     pool := old(pool)[t := old(pool[t]).(phase := Done)])
      ensures NoResurrection(h, views) ==> old(pool[t].id) !in handles
    {
      hide Kempt, Has;
      ghost var s := View();
      inflight := inflight - {pool[t].id};
      pool := SetPhase(pool, t, Done);
      Record(s, CleanInflight(t));
      Untangle(h, trace, View());
    }

    /** The runtime drops an aborted task where it yields, or a task that panics. */
    method StopTask(t: nat)
      requires Valid() && t < |pool| && (pool[t].aborted || pool[t].phase == Sending)
      modifies this
      ensures Valid() && trace == old(trace) + [Stop(t)]
      ensures View() == old(View()).(pool := old(pool)[t := old(pool[t]).(phase := Done)])
    {
      hide Kempt, Has;
      ghost var s := View();
      pool := SetPhase(pool, t, Done);
      Record(s, Stop(t));
    }
  }
}
