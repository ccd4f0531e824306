/** The states of a queue over any run of the program form a history as the
    oracle's protocol needs it. */
module ChainHistory {
  import opened Bytes
  import opened QueueSpec
  import opened QueueRemoval
  import opened QueueRequests
  import opened Instructions
  import opened QueueLife
  import opened LifeEffects
  import opened LifeHistory
  import Protocol = OracleProtocol

  function ItemOf(r: Request): Protocol.Item { Protocol.Item(r.item.id, r.item.slot) }

  /** What a view of the queue shows in this state. */
  function VersionOf(s: Life): (v: Protocol.Version)
    ensures |v.items| == |LiveOf(s.phase)|
    ensures forall k :: 0 <= k < |v.items| ==> v.items[k] == ItemOf(LiveOf(s.phase)[k])
  {
    var live := LiveOf(s.phase);
    Protocol.Version(s.clock.slot, seq(|live|, k requires 0 <= k < |live| => ItemOf(live[k])))
  }

  /** The queue's state after each prefix of the run. */
  function HistoryOf(cfg: Config, s: Life, steps: seq<Step>): (h: seq<Protocol.Version>)
    ensures |h| == |steps| + 1
    ensures forall i :: 0 <= i <= |steps| ==> h[i] == VersionOf(Run(cfg, s, steps[..i]))
  {
    seq(|steps| + 1, i requires 0 <= i <= |steps| => VersionOf(Run(cfg, s, steps[..i])))
  }

  lemma StateAfter(cfg: Config, s: Life, steps: seq<Step>, i: nat)
    requires i < |steps|
    ensures Run(cfg, s, steps[..i + 1]) == Next(cfg, Run(cfg, s, steps[..i]), steps[i])
  {
    hide Next;
    assert steps[..i + 1][..i] == steps[..i];
  }

  // ----------------------------------------------------- what one step may do

  lemma HistoryGrows(cfg: Config, s: Life, step: Step)
    requires Sound(s)
    ensures var s' := Next(cfg, s, step);
            && s.issued <= s'.issued && s.fulfilled <= s'.fulfilled && s.purged <= s'.purged
            && s.clock.slot <= s'.clock.slot
  {
    hide NextRequest, NextProvide, NextPurge, NextInitialize, NextPause, NextClose, NextDelegate, NextDonate;
    hide Sound, LiveOf, StoredAs, Fulfils;
    match step
    case MakeRequest(args, kind) =>
      var k := RequestEffect(cfg, s, args, kind);
      RequestFrame(cfg, s, args, kind);
    case Provide(input, proof, accounts) =>
      var k := ProvideEffect(cfg, s, input, proof, accounts);
      ProvideFrame(cfg, s, input, proof, accounts);
    case Purge =>
      PurgeEffect(cfg, s);
      PurgeFrame(cfg, s);
    case _ => OtherFrame(cfg, s, step);
  }

  /** A request that is live after a step was live before or is of the current slot. */
  lemma LiveAppears(cfg: Config, s: Life, step: Step, r: Request)
    requires Sound(s) && r in LiveOf(Next(cfg, s, step).phase)
    ensures r in LiveOf(s.phase) || r.item.slot == Next(cfg, s, step).clock.slot
  {
    hide NextRequest, NextProvide, NextPurge, NextInitialize, NextPause, NextClose, NextDelegate, NextDonate;
    hide StoredAs, Fulfils, RequestOf, Live;
    match step
    case MakeRequest(args, kind) =>
      var k := RequestEffect(cfg, s, args, kind);
      RequestFrame(cfg, s, args, kind);
      var s' := NextRequest(cfg, s, args, kind);
      if s' != s { StoredAsFields(s'.issued[|s.issued|]); }
    case Provide(input, proof, accounts) =>
      var k := ProvideEffect(cfg, s, input, proof, accounts);
    case Purge =>
      PurgeEffect(cfg, s);
      if NextPurge(cfg, s) != s { KeptWereLive(s.phase.q, s.clock, r); }
    case _ => LiveOfSame(cfg, s, step);
  }

  lemma KeptWereLive(q: QueueData, clock: Clock, r: Request)
    requires r in Requests(q.acc, Filter(Live(q), Not(ExpiredNow(clock))))
    ensures r in LiveRequests(q)
  {
    hide Live, RequestOf, Filter;
    var live := Live(q);
    var kept := Filter(live, Not(ExpiredNow(clock)));
    FilterIn(live, Not(ExpiredNow(clock)));
    var n :| 0 <= n < |kept| && Requests(q.acc, kept)[n] == r;
    assert kept[n] in live;
    var m :| 0 <= m < |live| && live[m] == kept[n];
    assert LiveRequests(q)[m] == r;
  }

  // -------------------------------------------------------------- whole runs

  lemma {:induction false} RunGrows(cfg: Config, s: Life, steps: seq<Step>, i: nat, j: nat)
    requires Initial(s) && i <= j <= |steps|
    ensures var a, b := Run(cfg, s, steps[..i]), Run(cfg, s, steps[..j]);
            && a.issued <= b.issued && a.fulfilled <= b.fulfilled && a.purged <= b.purged
            && a.clock.slot <= b.clock.slot
    decreases j - i
  {
    hide Run, Next, Sound, Initial;
    if i < j {
      RunGrows(cfg, s, steps, i, j - 1);
      StateAfter(cfg, s, steps, j - 1);
      SoundRun(cfg, s, steps[..j - 1]);
      HistoryGrows(cfg, Run(cfg, s, steps[..j - 1]), steps[j - 1]);
    }
  }

  lemma {:induction false} LiveAppeared(cfg: Config, s: Life, steps: seq<Step>, i: nat, r: Request) returns (f: nat)
    requires Initial(s) && i <= |steps| && r in LiveOf(Run(cfg, s, steps[..i]).phase)
    ensures f <= i && r in LiveOf(Run(cfg, s, steps[..f]).phase)
    ensures Run(cfg, s, steps[..f]).clock.slot == r.item.slot
  {
    hide Run, Next, Sound, LiveOf, Initial;
    NothingLiveAtStart(cfg, s, steps);
    if i == 0 {
      assert false;
    } else {
      StateAfter(cfg, s, steps, i - 1);
      SoundRun(cfg, s, steps[..i - 1]);
      LiveAppears(cfg, Run(cfg, s, steps[..i - 1]), steps[i - 1], r);
      if r in LiveOf(Run(cfg, s, steps[..i - 1]).phase) {
        f := LiveAppeared(cfg, s, steps, i - 1, r);
      } else {
        f := i;
      }
    }
  }

  lemma NothingLiveAtStart(cfg: Config, s: Life, steps: seq<Step>)
    requires Initial(s)
    ensures LiveOf(Run(cfg, s, steps[..0]).phase) == []
  {
    hide Next;
    assert steps[..0] == [];
  }

  lemma VersionItems(s: Life, item: Protocol.Item)
    ensures item in VersionOf(s).items <==> exists r :: r in LiveOf(s.phase) && ItemOf(r) == item
  {
    hide LiveOf;
    if item in VersionOf(s).items {
      var k :| 0 <= k < |VersionOf(s).items| && VersionOf(s).items[k] == item;
      assert LiveOf(s.phase)[k] in LiveOf(s.phase);
    }
    if exists r :: r in LiveOf(s.phase) && ItemOf(r) == item {
      var r :| r in LiveOf(s.phase) && ItemOf(r) == item;
      var k :| 0 <= k < |LiveOf(s.phase)| && LiveOf(s.phase)[k] == r;
      assert VersionOf(s).items[k] == item;
    }
  }

  /** Every item shown was already there in a state of its enqueue slot. */
  lemma ItemsAppeared(cfg: Config, s: Life, steps: seq<Step>, i: nat, item: Protocol.Item)
    requires Initial(s) && i <= |steps| && item in HistoryOf(cfg, s, steps)[i].items
    ensures Protocol.Appeared(HistoryOf(cfg, s, steps), i, item)
  {
    hide Run, LiveOf, VersionOf;
    var h := HistoryOf(cfg, s, steps);
    VersionItems(Run(cfg, s, steps[..i]), item);
    var r :| r in LiveOf(Run(cfg, s, steps[..i]).phase) && ItemOf(r) == item;
    var f := LiveAppeared(cfg, s, steps, i, r);
    VersionItems(Run(cfg, s, steps[..f]), item);
    VersionSlot(Run(cfg, s, steps[..f]));
    assert h[f] == VersionOf(Run(cfg, s, steps[..f]));
  }

  lemma VersionSlot(s: Life)
    ensures VersionOf(s).slot == s.clock.slot
  {
  }

  lemma CollisionPrefix(cfg: Config, a: seq<Issued>, b: seq<Issued>)
    requires a <= b && NoCollision(cfg, b)
    ensures NoCollision(cfg, a)
  {
    hide RequestId.Preimage;
    assert forall i :: 0 <= i < |a| ==> a[i] == b[i];
  }

  /** Live requests with the same id, at whatever times, are the same request. */
  lemma SameIdSameRequest(cfg: Config, s: Life, steps: seq<Step>, i: nat, k: nat, r: Request, r': Request) returns (m: nat)
    requires Initial(s) && i <= k <= |steps| && NoCollision(cfg, Run(cfg, s, steps).issued)
    requires r in LiveOf(Run(cfg, s, steps[..i]).phase) && r' in LiveOf(Run(cfg, s, steps[..k]).phase)
    requires r.item.id == r'.item.id
    ensures var a, c := Run(cfg, s, steps[..i]), Run(cfg, s, steps[..k]);
            && r == r' && m < |a.issued| <= |c.issued| && StoredAs(a.issued[m]) == r
            && forall x, y :: 0 <= x < y < |c.issued| ==> c.issued[x].id != c.issued[y].id
  {
    hide Run, StoredAs, LiveOf, Sound, Dated, AllFulfil, RequestId.Preimage, NoCollision, IssuedRequests;
    hide FulfilledRequests;
    var a, c := Run(cfg, s, steps[..i]), Run(cfg, s, steps[..k]);
    RunGrows(cfg, s, steps, i, k);
    RunGrows(cfg, s, steps, k, |steps|);
    assert steps[..|steps|] == steps;
    CollisionPrefix(cfg, c.issued, Run(cfg, s, steps).issued);
    HistoryRun(cfg, s, steps[..i]);
    HistoryRun(cfg, s, steps[..k]);
    m := WasIssued(cfg, a, r);
    var m' := WasIssued(cfg, c, r');
    StoredAsFields(a.issued[m]);
    StoredAsFields(c.issued[m']);
    forall x, y | 0 <= x < y < |c.issued| ensures c.issued[x].id != c.issued[y].id {
      IdsNeverRepeat(cfg, s, steps[..k], x, y);
    }
    assert c.issued[m] == a.issued[m];
    assert m == m';
  }

  /** A request that left the live list never returns to it. */
  lemma NeverLiveAgain(cfg: Config, s: Life, steps: seq<Step>, i: nat, j: nat, k: nat, r: Request, r': Request)
    requires Initial(s) && i < j < k <= |steps| && NoCollision(cfg, Run(cfg, s, steps).issued)
    requires r in LiveOf(Run(cfg, s, steps[..i]).phase) && r' in LiveOf(Run(cfg, s, steps[..k]).phase)
    requires r.item.id == r'.item.id
    ensures r == r' && r in LiveOf(Run(cfg, s, steps[..j]).phase)
  {
    hide Run, StoredAs, LiveOf, Sound, Dated, AllFulfil, RequestId.Preimage, NoCollision, IssuedRequests;
    hide FulfilledRequests;
    var m := SameIdSameRequest(cfg, s, steps, i, k, r, r');
    RunGrows(cfg, s, steps, i, j);
    RunGrows(cfg, s, steps, j, k);
    HistoryRun(cfg, s, steps[..j]);
    HistoryRun(cfg, s, steps[..k]);
    LiveInBetween(cfg, Run(cfg, s, steps[..j]), Run(cfg, s, steps[..k]), m, r);
  }

  lemma StaysSettled(b: Life, c: Life, r: Request)
    requires b.fulfilled <= c.fulfilled && b.purged <= c.purged
    ensures r in FulfilledRequests(b.fulfilled) ==> r in FulfilledRequests(c.fulfilled)
    ensures r in b.purged ==> r in c.purged
  {
    if r in FulfilledRequests(b.fulfilled) {
      var x :| 0 <= x < |b.fulfilled| && FulfilledRequests(b.fulfilled)[x] == r;
      assert FulfilledRequests(c.fulfilled)[x] == r;
    }
  }

  /** Live later, issued before: still live in between. */
  lemma LiveInBetween(cfg: Config, b: Life, c: Life, m: nat, r: Request)
    requires Conserved(b) && Conserved(c)
    requires b.fulfilled <= c.fulfilled && b.purged <= c.purged && b.issued <= c.issued
    requires m < |b.issued| && StoredAs(b.issued[m]) == r && r in LiveOf(c.phase)
    requires forall x, y :: 0 <= x < y < |c.issued| ==> c.issued[x].id != c.issued[y].id
    ensures r in LiveOf(b.phase)
  {
    hide StoredAs, LiveOf;
    var reqs := IssuedRequests(c.issued);
    assert reqs[m] == r by { assert c.issued[m] == b.issued[m]; }
    forall x, y | 0 <= x < y < |reqs| ensures !(reqs[x] == r && reqs[y] == r) {
      StoredAsFields(c.issued[x]);
      StoredAsFields(c.issued[y]);
    }
    CountAtMostOne(reqs, r);
    assert r in multiset(LiveOf(c.phase));
    assert IssuedRequests(b.issued)[m] == r;
    assert r in multiset(IssuedRequests(b.issued));
    StaysSettled(b, c, r);
    assert r !in multiset(FulfilledRequests(c.fulfilled)) && r !in multiset(c.purged);
    assert r !in multiset(FulfilledRequests(b.fulfilled)) && r !in multiset(b.purged);
    assert r in multiset(LiveOf(b.phase));
  }

  /** In every run, short of a hash collision, the queue's successive states are a
      genuine history: so the oracle's guarantees hold for views of this queue. */
  lemma ProgramGivesGenuineHistory(cfg: Config, s: Life, steps: seq<Step>)
    requires Initial(s) && NoCollision(cfg, Run(cfg, s, steps).issued)
    ensures Protocol.GenuineHistory(HistoryOf(cfg, s, steps))
  {
    hide Run, LiveOf, NoCollision, VersionOf;
    var h := HistoryOf(cfg, s, steps);
    forall i, j | 0 <= i <= j < |h| ensures h[i].slot <= h[j].slot {
      RunGrows(cfg, s, steps, i, j);
      VersionSlot(Run(cfg, s, steps[..i]));
      VersionSlot(Run(cfg, s, steps[..j]));
    }
    forall i, item | 0 <= i < |h| && item in h[i].items ensures Protocol.Appeared(h, i, item) {
      ItemsAppeared(cfg, s, steps, i, item);
    }
    forall i, j, a, b | 0 <= i < |h| && 0 <= j < |h| && a in h[i].items && b in h[j].items && a.id == b.id
      ensures a.slot == b.slot
    {
      if i <= j { ItemsKeepSlot(cfg, s, steps, i, j, a, b); } else { ItemsKeepSlot(cfg, s, steps, j, i, b, a); }
    }
    forall i, j, k, id | 0 <= i < j < k < |h| && Protocol.Has(h[i], id) && !Protocol.Has(h[j], id)
      ensures !Protocol.Has(h[k], id)
    {
      if Protocol.Has(h[k], id) {
        var r := ShownLive(Run(cfg, s, steps[..i]), id);
        var r' := ShownLive(Run(cfg, s, steps[..k]), id);
        NeverLiveAgain(cfg, s, steps, i, j, k, r, r');
        LiveShown(Run(cfg, s, steps[..j]), r);
        assert false;
      }
    }
  }

  /** A request is always shown with the slot it was enqueued in. */
  lemma ItemsKeepSlot(cfg: Config, s: Life, steps: seq<Step>, i: nat, k: nat, a: Protocol.Item, b: Protocol.Item)
    requires Initial(s) && i <= k <= |steps| && NoCollision(cfg, Run(cfg, s, steps).issued) && a.id == b.id
    requires a in VersionOf(Run(cfg, s, steps[..i])).items && b in VersionOf(Run(cfg, s, steps[..k])).items
    ensures a == b
  {
    hide Run, LiveOf, NoCollision, VersionOf, StoredAs;
    VersionItems(Run(cfg, s, steps[..i]), a);
    VersionItems(Run(cfg, s, steps[..k]), b);
    var r :| r in LiveOf(Run(cfg, s, steps[..i]).phase) && ItemOf(r) == a;
    var r' :| r' in LiveOf(Run(cfg, s, steps[..k]).phase) && ItemOf(r') == b;
    var m := SameIdSameRequest(cfg, s, steps, i, k, r, r');
  }

  lemma ShownLive(s: Life, id: Bytes32) returns (r: Request)
    requires Protocol.Has(VersionOf(s), id)
    ensures r in LiveOf(s.phase) && r.item.id == id
  {
    hide LiveOf;
    var k :| 0 <= k < |VersionOf(s).items| && VersionOf(s).items[k].id == id;
    r := LiveOf(s.phase)[k];
  }

  lemma LiveShown(s: Life, r: Request)
    requires r in LiveOf(s.phase)
    ensures Protocol.Has(VersionOf(s), r.item.id)
  {
    hide LiveOf;
    var k :| 0 <= k < |LiveOf(s.phase)| && LiveOf(s.phase)[k] == r;
    assert VersionOf(s).items[k].id == r.item.id;
  }
}
