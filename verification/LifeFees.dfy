/** Fees over whole runs: what a queue holds always covers what it owes, every
    charge is paid out once, and payouts never fail. */
module LifeFees {
  import opened Bytes
  import opened QueueSpec
  import opened QueueScan
  import opened QueueRemoval
  import opened QueueInvariant
  import opened QueueRequests
  import opened Instructions
  import opened QueueLife
  import opened LifeEffects
  import opened LifeHistory

  function SumCost(rs: seq<Request>): nat
  {
    if rs == [] then 0 else SumCost(rs[..|rs| - 1]) + ItemCost(rs[|rs| - 1].item)
  }

  lemma {:induction false} SumCostConcat(a: seq<Request>, b: seq<Request>)
    ensures SumCost(a + b) == SumCost(a) + SumCost(b)
    decreases |b|
  {
    if b == [] {
      assert a + b == a;
    } else {
      SumCostConcat(a, b[..|b| - 1]);
      assert (a + b)[..|a + b| - 1] == a + b[..|b| - 1];
    }
  }

  lemma SumCostSingle(r: Request)
    ensures SumCost([r]) == ItemCost(r.item)
  {
    assert [r][..0] == [];
  }

  lemma SumCostInsert(a: seq<Request>, k: nat, r: Request)
    requires k <= |a|
    ensures SumCost(a[..k] + [r] + a[k..]) == SumCost(a) + ItemCost(r.item)
  {
    SumCostConcat(a[..k] + [r], a[k..]);
    SumCostConcat(a[..k], [r]);
    SumCostSingle(r);
    SumCostConcat(a[..k], a[k..]);
    assert a == a[..k] + a[k..];
  }

  lemma SumCostDelete(a: seq<Request>, k: nat)
    requires k < |a|
    ensures SumCost(a) == SumCost(a[..k] + a[k + 1..]) + ItemCost(a[k].item)
  {
    SplitAt(a, k);
    SumCostConcat(a[..k] + [a[k]], a[k + 1..]);
    SumCostConcat(a[..k], [a[k]]);
    SumCostSingle(a[k]);
    SumCostConcat(a[..k], a[k + 1..]);
  }

  lemma {:induction false} SumCostOfEntries(acc: seq<byte>, es: seq<Entry>)
    ensures SumCost(Requests(acc, es)) == TotalCost(Items(es))
  {
    if es != [] {
      var n := |es| - 1;
      SumCostOfEntries(acc, es[..n]);
      assert Requests(acc, es)[..n] == Requests(acc, es[..n]);
      assert Items(es)[..n] == Items(es[..n]);
    }
  }

  lemma {:induction false} TotalCostSplit(es: seq<Entry>, w: Entry -> bool)
    ensures TotalCost(Items(es)) == TotalCost(Items(Filter(es, w))) + TotalCost(Items(Filter(es, Not(w))))
  {
    if es != [] {
      var before := es[..|es| - 1];
      TotalCostSplit(before, w);
      assert es == before + [Last(es)];
      TotalCostAppend(before, Last(es));
      TotalCostAppend(Filter(before, w), Last(es));
      TotalCostAppend(Filter(before, Not(w)), Last(es));
      assert Filter(before, w) + [] == Filter(before, w);
      assert Filter(before, Not(w)) + [] == Filter(before, Not(w));
    }
  }

  lemma TotalCostAppend(es: seq<Entry>, e: Entry)
    ensures TotalCost(Items(es + [e])) == TotalCost(Items(es)) + ItemCost(e.item)
  {
    assert Items(es + [e])[..|es|] == Items(es);
  }

  // ----------------------------------------------------------- the invariant

  /** All the lamports there are. */
  function Supply(s: Life): nat { s.queueLamports + s.oracleLamports + s.otherLamports }

  /** What the queue owes: the cost of every live request, nothing if exempt. */
  function Owed(cfg: Config, phase: Phase): nat
  {
    if cfg.exempt then 0 else SumCost(LiveOf(phase))
  }

  /** Where the lamports are, compared with the start of the run. */
  ghost predicate Solvent(cfg: Config, s: Life, start: Life)
  {
    && s.queueLamports == s.reserve + Owed(cfg, s.phase)
    && s.feesCharged == s.feesPaid + Owed(cfg, s.phase)
    && s.feesCharged == (if cfg.exempt then 0 else SumCost(IssuedRequests(s.issued)))
    && s.feesPaid == (if cfg.exempt then 0 else SumCost(FulfilledRequests(s.fulfilled)) + SumCost(s.purged))
    && s.oracleLamports == start.oracleLamports + s.feesPaid + s.refunded
    && Supply(s) == Supply(start) <= U64_MAX
  }

  lemma SolventByRequest(cfg: Config, s: Life, args: RequestArgs, kind: RequestKind, start: Life)
    requires Sound(s) && Solvent(cfg, s, start)
    ensures Solvent(cfg, NextRequest(cfg, s, args, kind), start)
  {
    hide NextRequest, StoredAs, LiveOf, IssuedRequests, FulfilledRequests, Sound, SumCost, ItemCost, BaseItem;
    hide RequestId.Preimage;
    var s' := NextRequest(cfg, s, args, kind);
    RequestFrame(cfg, s, args, kind);
    var k := RequestEffect(cfg, s, args, kind);
    if s' != s {
      var latest := s'.issued[|s.issued|];
      IssuedAppend(s.issued, s'.issued);
      StoredAsFields(latest);
      SumCostConcat(IssuedRequests(s.issued), [StoredAs(latest)]);
      SumCostSingle(StoredAs(latest));
      SumCostInsert(LiveOf(s.phase), k, StoredAs(latest));
    }
  }

  lemma SolventByProvide(cfg: Config, s: Life, input: Bytes32, proof: Proof, accounts: ProvideAccounts, start: Life)
    requires Sound(s) && Solvent(cfg, s, start)
    ensures Solvent(cfg, NextProvide(cfg, s, input, proof, accounts), start)
  {
    hide NextProvide, LiveOf, IssuedRequests, FulfilledRequests, Sound, SumCost, ItemCost, Fulfils;
    var s' := NextProvide(cfg, s, input, proof, accounts);
    ProvideFrame(cfg, s, input, proof, accounts);
    var k := ProvideEffect(cfg, s, input, proof, accounts);
    if s' != s {
      var r := LiveOf(s.phase)[k];
      FulfilledAppend(s.fulfilled, s'.fulfilled);
      SumCostConcat(FulfilledRequests(s.fulfilled), [r]);
      SumCostSingle(r);
      SumCostDelete(LiveOf(s.phase), k);
    }
  }

  lemma SolventByPurge(cfg: Config, s: Life, start: Life)
    requires Sound(s) && Solvent(cfg, s, start)
    ensures Solvent(cfg, NextPurge(cfg, s), start)
  {
    hide NextPurge, IssuedRequests, FulfilledRequests, Sound, SumCost, ItemCost, Requests, Filter, Live, Items;
    var s' := NextPurge(cfg, s);
    PurgeFrame(cfg, s);
    PurgeEffect(cfg, s);
    if s' != s {
      var acc := s.phase.q.acc;
      var live := Live(s.phase.q);
      var w := ExpiredNow(s.clock);
      TotalCostSplit(live, w);
      SumCostOfEntries(acc, live);
      SumCostOfEntries(acc, Filter(live, w));
      SumCostOfEntries(acc, Filter(live, Not(w)));
      SumCostConcat(s.purged, Requests(acc, Filter(live, w)));
    }
  }

  lemma SolventNext(cfg: Config, s: Life, step: Step, start: Life)
    requires Sound(s) && Solvent(cfg, s, start)
    ensures Solvent(cfg, Next(cfg, s, step), start)
  {
    hide NextRequest, NextProvide, NextPurge, LiveOf, IssuedRequests, FulfilledRequests, SumCost, InitPhase;
    hide Delegable, SetPaused, Closable;
    match step
    case MakeRequest(args, kind) => SolventByRequest(cfg, s, args, kind, start);
    case Provide(input, proof, accounts) => SolventByProvide(cfg, s, input, proof, accounts, start);
    case Purge => SolventByPurge(cfg, s, start);
    case _ =>
      OtherFrame(cfg, s, step);
      LiveOfSame(cfg, s, step);
      if (step.Initialize? || step.Close?) && Next(cfg, s, step) != s {
        NothingOwed(cfg, s, step);
      }
  }

  /** Opening and closing happen only while nothing is owed. */
  lemma NothingOwed(cfg: Config, s: Life, step: Step)
    requires Sound(s) && (step.Initialize? || step.Close?) && Next(cfg, s, step) != s
    ensures SumCost(LiveOf(s.phase)) == 0
  {
    hide LiveRequests;
    if step.Close? { ClosableIsEmpty(s.phase.q); }
  }

  /** In every run: the queue holds what it was opened with and sent, plus the cost
      of its live requests; what was charged is what was paid out for fulfilled and
      purged requests plus what is still owed; the oracle has received exactly those
      payouts and what closings refunded; an exempt queue is never charged nor debited;
      and no lamport is created or lost. */
  lemma {:induction false} FeeConservation(cfg: Config, s: Life, steps: seq<Step>)
    requires Initial(s)
    ensures Solvent(cfg, Run(cfg, s, steps), s)
  {
    if steps != [] {
      var before := Run(cfg, s, steps[..|steps| - 1]);
      FeeConservation(cfg, s, steps[..|steps| - 1]);
      hide Sound, Solvent, Next;
      SoundRun(cfg, s, steps[..|steps| - 1]);
      SolventNext(cfg, before, steps[|steps| - 1], s);
    }
  }

  /** The fee transfer never fails: a fulfilment that passes its checks goes
      through, and a purge always completes. */
  lemma PayoutsNeverFail(cfg: Config, s: Life, steps: seq<Step>)
    requires Initial(s) && Run(cfg, s, steps).phase.Open?
    ensures var t := Run(cfg, s, steps);
            && NextPurge(cfg, t).phase == Open(PurgeExpired(t.phase.q, t.clock).q)
            && (forall input, proof, accounts :: ProvideRandomness(cfg, t.phase.q, t.clock, input, proof, accounts).Ok?
                 ==> |NextProvide(cfg, t, input, proof, accounts).fulfilled| == |t.fulfilled| + 1)
  {
    var t := Run(cfg, s, steps);
    SoundRun(cfg, s, steps);
    FeeConservation(cfg, s, steps);
    hide Run, Sound, Solvent, ProvideRandomness, NextProvide, NextPurge;
    forall input, proof, accounts | ProvideRandomness(cfg, t.phase.q, t.clock, input, proof, accounts).Ok?
      ensures |NextProvide(cfg, t, input, proof, accounts).fulfilled| == |t.fulfilled| + 1
    {
      ProvidePayable(cfg, t, input, proof, accounts, s);
    }
    PurgePayable(cfg, t, s);
  }

  lemma ProvidePayable(cfg: Config, s: Life, input: Bytes32, proof: Proof, accounts: ProvideAccounts, start: Life)
    requires Sound(s) && Solvent(cfg, s, start) && s.phase.Open?
    requires ProvideRandomness(cfg, s.phase.q, s.clock, input, proof, accounts).Ok?
    ensures |NextProvide(cfg, s, input, proof, accounts).fulfilled| == |s.fulfilled| + 1
  {
    hide WellFormed, ProvideRandomness, LiveRequests, SumCost, IssuedRequests, FulfilledRequests, Fulfils;
    var r := ProvideRandomness(cfg, s.phase.q, s.clock, input, proof, accounts).value;
    ProvideRemoves(cfg, s.phase.q, s.clock, input, proof, accounts);
    SumCostDelete(LiveRequests(s.phase.q), r.index);
  }

  lemma PurgePayable(cfg: Config, s: Life, start: Life)
    requires Sound(s) && Solvent(cfg, s, start) && s.phase.Open?
    ensures NextPurge(cfg, s).phase == Open(PurgeExpired(s.phase.q, s.clock).q)
    ensures NextPurge(cfg, s).purged == s.purged + ExpiredRequests(s.phase.q, s.clock)
  {
    hide WellFormed, RemoveWhere, Requests, Filter, Live, SumCost, TotalCost, SaturatingTotal, IssuedRequests;
    hide FulfilledRequests;
    var q := s.phase.q;
    var w := ExpiredNow(s.clock);
    LiveAfterRemoveWhere(q, w);
    RemovedBound(q, w);
    TotalNeverSaturates(RemoveWhere(q, w).removed);
    CostOfRemoved(Filter(Live(q), w));
    TotalCostSplit(Live(q), w);
    SumCostOfEntries(q.acc, Live(q));
  }
}
