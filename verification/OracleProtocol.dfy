/** The oracle's view-diff protocol for one queue: views of the chain and the
    fulfilment tasks interleave, one step per lock-held region. */
module OracleProtocol {
  import opened Bytes

  type Id = Bytes32

  // ------------------------------------------------------------ chain history

  /** A live request in a queue state: its id and the slot it was enqueued in. */
  datatype Item = Item(id: Id, slot: nat)

  /** A state of the queue account: the slot it was written in, its live requests. */
  datatype Version = Version(slot: nat, items: seq<Item>)

  predicate Has(v: Version, id: Id) { exists k :: 0 <= k < |v.items| && v.items[k].id == id }

  /** What the chain guarantees of the successive states of one queue. */
  ghost predicate GenuineHistory(h: seq<Version>)
  {
    SlotsOrdered(h) && AllAppeared(h) && NeverReturn(h) && OneSlot(h)
  }

  ghost predicate SlotsOrdered(h: seq<Version>)
  {
    forall i, j :: 0 <= i <= j < |h| ==> h[i].slot <= h[j].slot
  }

  ghost predicate AllAppeared(h: seq<Version>)
  {
    forall i, item :: 0 <= i < |h| && item in h[i].items ==> Appeared(h, i, item)
  }

  /** A request that left the queue does not come back. */
  ghost predicate NeverReturn(h: seq<Version>)
  {
    forall i, j, k, id :: 0 <= i < j < k < |h| && Has(h[i], id) && !Has(h[j], id) ==> !Has(h[k], id)
  }

  /** A request keeps the slot it was enqueued in. */
  ghost predicate OneSlot(h: seq<Version>)
  {
    forall i, j, a, b :: 0 <= i < |h| && 0 <= j < |h| && a in h[i].items && b in h[j].items && a.id == b.id
      ==> a.slot == b.slot
  }

  /** The item was there in some state of its own enqueue slot, not after state i. */
  ghost predicate Appeared(h: seq<Version>, i: nat, item: Item)
  {
    exists f :: 0 <= f <= i && f < |h| && item in h[f].items && h[f].slot == item.slot
  }

  /** State n was current at some moment of the slot. */
  predicate Current(h: seq<Version>, n: nat, slot: nat)
  {
    n < |h| && h[n].slot <= slot && (n + 1 < |h| ==> slot <= h[n + 1].slot)
  }

  // -------------------------------------------------------------- the oracle

  datatype TaskPhase = Waiting | Sending | Exited | Unlisted | Done

  /** An aborted task runs on until it next yields, so the flag alone stops nothing. */
  datatype Task = Task(id: Id, phase: TaskPhase, aborted: bool)

  /** A view as it arrives: which state it shows, its slot, and whether it comes from
      a scan or is a notification. */
  datatype ChainView = ChainView(n: nat, slot: nat, snapshot: bool)

  /** Where the view being processed stands; it holds the view-order lock until
      Idle, and the inflight lock while Publishing. */
  datatype Work =
    | Idle
    | Diffing
    | Spawning(next: nat)
    | Publishing(next: nat, task: nat)
    | Starting(next: nat, task: nat)

  /** `latest` is the slot of the last accepted view, `views` the accepted views up to
      the one in work; `handles` is the active-task map. */
  datatype Oracle = Oracle(
    latest: nat,
    views: seq<ChainView>,
    inflight: map<Id, nat>,
    handles: map<Id, nat>,
    pool: seq<Task>,
    work: Work)

  datatype Step =
    | AcceptView(view: ChainView)
    | Diff
    | Spawn
    | Publish
    | Start
    | Exit(task: nat)
    | CleanHandle(task: nat)
    | CleanInflight(task: nat)
    | Stop(task: nat)

  function Empty(): Oracle { Oracle(0, [], map[], map[], [], Idle) }

  /** Notifications may repeat a slot; snapshots must be strictly newer. */
  predicate Stale(latest: nat, view: ChainView)
  {
    if view.snapshot then view.slot <= latest else view.slot < latest
  }

  function Newest(vs: seq<ChainView>): ChainView
    requires vs != []
  {
    vs[|vs| - 1]
  }

  /** The view in work shows a state of the history. */
  predicate Showing(h: seq<Version>, s: Oracle) { s.views != [] && Newest(s.views).n < |h| }

  function Shown(h: seq<Version>, s: Oracle): Version
    requires Showing(h, s)
  {
    h[Newest(s.views).n]
  }

  /** A tracked request that the view shows to be gone. */
  predicate Dropped(v: Version, slot: nat, inflight: map<Id, nat>, id: Id)
  {
    id in inflight && !Has(v, id) && slot > inflight[id]
  }

  /** Task i is the one a dropped request's handle stands for. */
  ghost predicate HandleDropped(handles: map<Id, nat>, dropped: iset<Id>, i: nat)
  {
    exists id :: id in dropped && id in handles && handles[id] == i
  }

  ghost function Aborted(handles: map<Id, nat>, dropped: iset<Id>, pool: seq<Task>): (r: seq<Task>)
    ensures |r| == |pool|
    ensures forall i :: 0 <= i < |pool| ==>
      r[i] == if HandleDropped(handles, dropped, i) then pool[i].(aborted := true) else pool[i]
  {
    seq(|pool|, i requires 0 <= i < |pool| =>
      if HandleDropped(handles, dropped, i) then pool[i].(aborted := true) else pool[i])
  }

  ghost function DroppedSet(v: Version, slot: nat, inflight: map<Id, nat>): iset<Id>
  {
    iset id | Dropped(v, slot, inflight, id)
  }

  ghost function Kept(m: map<Id, nat>, gone: iset<Id>): map<Id, nat>
  {
    map id | id in m && id !in gone :: m[id]
  }

  /** The diff: abort the tasks of requests that are gone and forget them. */
  ghost function ApplyDiff(v: Version, s: Oracle): Oracle
  {
    var gone := DroppedSet(v, s.latest, s.inflight);
    s.(inflight := Kept(s.inflight, gone),
       handles := Kept(s.handles, gone),
       pool := Aborted(s.handles, gone, s.pool),
       work := Spawning(0))
  }

  /** Next item of the view: skip it if tracked, else reserve it and spawn a task. */
  function ApplySpawn(v: Version, s: Oracle, next: nat): Oracle
  {
    if next >= |v.items| then s.(work := Idle)
    else
      var item := v.items[next];
      if item.id in s.inflight then s.(work := Spawning(next + 1))
      else s.(inflight := s.inflight[item.id := item.slot],
              pool := s.pool + [Task(item.id, Waiting, false)],
              work := Publishing(next, |s.pool|))
  }

  function SetPhase(pool: seq<Task>, t: nat, phase: TaskPhase): (r: seq<Task>)
    requires t < |pool|
    ensures |r| == |pool|
  {
    pool[t := pool[t].(phase := phase)]
  }

  predicate InPhase(s: Oracle, t: nat, phase: TaskPhase)
  {
    t < |s.pool| && s.pool[t].phase == phase
  }

  /** One lock-held region, or nothing if it is not enabled. */
  ghost function Next(h: seq<Version>, s: Oracle, step: Step): Oracle
  {
    match step
    case AcceptView(view) =>
      if !s.work.Idle? || Stale(s.latest, view) then s
      else s.(latest := view.slot, views := s.views + [view], work := Diffing)
    case Diff => if s.work.Diffing? && Showing(h, s) then ApplyDiff(Shown(h, s), s) else s
    case Spawn => if s.work.Spawning? && Showing(h, s) then ApplySpawn(Shown(h, s), s, s.work.next) else s
    case Publish =>
      if s.work.Publishing? && s.work.task < |s.pool|
      then s.(handles := s.handles[s.pool[s.work.task].id := s.work.task], work := Starting(s.work.next, s.work.task))
      else s
    case Start =>
      if s.work.Starting? && InPhase(s, s.work.task, Waiting)
      then s.(pool := SetPhase(s.pool, s.work.task, Sending), work := Spawning(s.work.next + 1))
      else s
    case Exit(t) => if InPhase(s, t, Sending) then s.(pool := SetPhase(s.pool, t, Exited)) else s
    case CleanHandle(t) =>
      if InPhase(s, t, Exited)
      then s.(handles := s.handles - {s.pool[t].id}, pool := SetPhase(s.pool, t, Unlisted)) else s
    case CleanInflight(t) =>
      if InPhase(s, t, Unlisted) && !s.work.Publishing?
      then s.(inflight := s.inflight - {s.pool[t].id}, pool := SetPhase(s.pool, t, Done)) else s
    case Stop(t) =>
      if t < |s.pool| && (s.pool[t].aborted || s.pool[t].phase == Sending)
      then s.(pool := SetPhase(s.pool, t, Done)) else s
  }

  ghost function Run(h: seq<Version>, steps: seq<Step>): Oracle
  {
    if steps == [] then Empty() else Next(h, Run(h, steps[..|steps| - 1]), steps[|steps| - 1])
  }

  /** The state a run is in. */
  ghost predicate At(h: seq<Version>, steps: seq<Step>, s: Oracle) { Run(h, steps) == s }

  lemma Then(h: seq<Version>, steps: seq<Step>, s: Oracle, step: Step)
    requires At(h, steps, s)
    ensures At(h, steps + [step], Next(h, s, step))
  {
    hide Next;
    assert (steps + [step])[..|steps|] == steps;
  }

  // --------------------------------------------------- conditions on the views

  /** Every view shows a state that was current in its slot. */
  predicate GenuineViews(h: seq<Version>, vs: seq<ChainView>)
  {
    forall i :: 0 <= i < |vs| ==> Current(h, vs[i].n, vs[i].slot)
  }

  /** The slot recorded before view i arrives. */
  function SlotBefore(vs: seq<ChainView>, i: nat): nat
    requires i <= |vs|
  {
    if i == 0 then 0 else vs[i - 1].slot
  }

  /** None of the views is stale when it arrives after those before it. */
  predicate Acceptable(vs: seq<ChainView>)
  {
    forall i :: 0 <= i < |vs| ==> !Stale(SlotBefore(vs, i), vs[i])
  }

  /** The views never go back in the chain's history. */
  predicate OrderedViews(vs: seq<ChainView>)
  {
    forall i, j :: 0 <= i < j < |vs| ==> vs[i].n <= vs[j].n
  }

  /** Notifications come in the order of the stream. */
  predicate StreamOrder(vs: seq<ChainView>)
  {
    forall i, j :: 0 <= i < j < |vs| && !vs[i].snapshot && !vs[j].snapshot ==> vs[i].n <= vs[j].n
  }

  /** No notification follows a snapshot of its own slot. */
  predicate SnapshotsCloseSlots(vs: seq<ChainView>)
  {
    forall i, j :: 0 <= i < j < |vs| && vs[i].snapshot && !vs[j].snapshot ==> vs[i].slot != vs[j].slot
  }

  /** View i shows the item. */
  predicate Shows(h: seq<Version>, vs: seq<ChainView>, i: int, item: Item)
  {
    0 <= i < |vs| && vs[i].n < |h| && item in h[vs[i].n].items
  }

  /** View j, of a later slot than the item's, no longer shows what view i showed. */
  predicate Drops(h: seq<Version>, vs: seq<ChainView>, i: int, j: int, item: Item)
  {
    && Shows(h, vs, i, item) && i < j < |vs| && vs[j].n < |h|
    && !Has(h[vs[j].n], item.id) && item.slot < vs[j].slot
  }

  /** No request dropped by one view is shown by a later one: what a client can see
      of the views' order. */
  ghost predicate NoResurrection(h: seq<Version>, vs: seq<ChainView>)
  {
    forall i, j, k, item :: Drops(h, vs, i, j, item) && j < k < |vs| && vs[k].n < |h| ==> !Has(h[vs[k].n], item.id)
  }
}
