/** Safety over whole runs: no request is lost or duplicated, no id is issued
    twice, and every callback is the one its request called for. */
module LifeHistory {
  import opened Bytes
  import opened QueueSpec
  import opened QueueRemoval
  import opened QueueInvariant
  import opened QueueRequests
  import opened RequestId
  import opened Instructions
  import opened Expiry
  import opened QueueLife
  import opened LifeEffects

  // ------------------------------------------------------------ conservation

  ghost function IssuedRequests(issued: seq<Issued>): (r: seq<Request>)
    ensures |r| == |issued|
    ensures forall i :: 0 <= i < |issued| ==> r[i] == StoredAs(issued[i])
  {
    seq(|issued|, i requires 0 <= i < |issued| => StoredAs(issued[i]))
  }

  ghost function FulfilledRequests(fs: seq<Fulfilment>): (r: seq<Request>)
    ensures |r| == |fs|
    ensures forall i :: 0 <= i < |fs| ==> r[i] == fs[i].request
  {
    seq(|fs|, i requires 0 <= i < |fs| => fs[i].request)
  }

  /** Every request ever issued, with its payload as given, is exactly one of:
      fulfilled, purged, or live in the queue's bytes. */
  ghost predicate Conserved(s: Life)
  {
    multiset(IssuedRequests(s.issued))
    == multiset(FulfilledRequests(s.fulfilled)) + multiset(s.purged) + multiset(LiveOf(s.phase))
  }

  lemma MultisetInsert<T>(a: seq<T>, k: nat, x: T)
    requires k <= |a|
    ensures multiset(a[..k] + [x] + a[k..]) == multiset(a) + multiset{x}
  {
    assert a == a[..k] + a[k..];
  }

  lemma MultisetDelete<T>(a: seq<T>, k: nat)
    requires k < |a|
    ensures multiset(a) == multiset(a[..k] + a[k + 1..]) + multiset{a[k]}
  {
    assert a == a[..k] + [a[k]] + a[k + 1..];
  }

  lemma IssuedAppend(before: seq<Issued>, after: seq<Issued>)
    requires |after| == |before| + 1 && after[..|before|] == before
    ensures IssuedRequests(after) == IssuedRequests(before) + [StoredAs(after[|before|])]
  {
    hide StoredAs;
  }

  lemma FulfilledAppend(before: seq<Fulfilment>, after: seq<Fulfilment>)
    requires |after| == |before| + 1 && after[..|before|] == before
    ensures FulfilledRequests(after) == FulfilledRequests(before) + [after[|before|].request]
  {
  }

  lemma ConservedByRequest(cfg: Config, s: Life, args: RequestArgs, kind: RequestKind)
    requires Sound(s) && Conserved(s)
    ensures Conserved(NextRequest(cfg, s, args, kind))
  {
    hide NextRequest, StoredAs, LiveOf, IssuedRequests, FulfilledRequests, Sound;
    var s' := NextRequest(cfg, s, args, kind);
    RequestFrame(cfg, s, args, kind);
    var k := RequestEffect(cfg, s, args, kind);
    if s' != s {
      IssuedAppend(s.issued, s'.issued);
      MultisetInsert(LiveOf(s.phase), k, StoredAs(s'.issued[|s.issued|]));
    }
  }

  lemma ConservedByProvide(cfg: Config, s: Life, input: Bytes32, proof: Proof, accounts: ProvideAccounts)
    requires Sound(s) && Conserved(s)
    ensures Conserved(NextProvide(cfg, s, input, proof, accounts))
  {
    hide NextProvide, StoredAs, LiveOf, IssuedRequests, FulfilledRequests, Sound, Fulfils;
    var s' := NextProvide(cfg, s, input, proof, accounts);
    ProvideFrame(cfg, s, input, proof, accounts);
    var k := ProvideEffect(cfg, s, input, proof, accounts);
    if s' != s {
      FulfilledAppend(s.fulfilled, s'.fulfilled);
      MultisetDelete(LiveOf(s.phase), k);
    }
  }

  lemma ConservedByPurge(cfg: Config, s: Life)
    requires Sound(s) && Conserved(s)
    ensures Conserved(NextPurge(cfg, s))
  {
    hide NextPurge, StoredAs, IssuedRequests, FulfilledRequests, Sound, Requests, Filter, Live;
    var s' := NextPurge(cfg, s);
    PurgeFrame(cfg, s);
    PurgeEffect(cfg, s);
    if s' != s {
      RequestsSplit(s.phase.q.acc, Live(s.phase.q), ExpiredNow(s.clock));
    }
  }

  lemma LiveOfSame(cfg: Config, s: Life, step: Step)
    requires Sound(s)
    requires !step.MakeRequest? && !step.Provide? && !step.Purge?
    ensures LiveOf(Next(cfg, s, step).phase) == LiveOf(s.phase)
  {
    hide WellFormed, NextPause, LiveRequests, Initialization.Fresh;
    match step
    case Initialize(target, index, registered, balance) =>
      if InitPhase(s.phase, target, index, registered).Ok? && InitPhase(s.phase, target, index, registered).value.Open? {
        FreshIsEmpty(target, index);
      }
    case Pause(paused) => PauseEffect(s, paused);
    case Close => if s.phase.Open? { ClosableIsEmpty(s.phase.q); }
    case _ =>
  }

  /** Steps that neither store nor remove a request leave the history alone. */
  lemma OtherFrame(cfg: Config, s: Life, step: Step)
    requires !step.MakeRequest? && !step.Provide? && !step.Purge?
    ensures var s' := Next(cfg, s, step);
            && s'.issued == s.issued && s'.fulfilled == s.fulfilled && s'.purged == s.purged
            && s'.feesCharged == s.feesCharged && s'.feesPaid == s.feesPaid
            && Follows(s'.clock, s.clock)
  {
    hide InitPhase, Delegable, SetPaused;
  }

  lemma ConservedNext(cfg: Config, s: Life, step: Step)
    requires Sound(s) && Conserved(s)
    ensures Conserved(Next(cfg, s, step))
  {
    hide LiveOf, IssuedRequests, FulfilledRequests, NextRequest, NextProvide, NextPurge;
    match step
    case MakeRequest(args, kind) => ConservedByRequest(cfg, s, args, kind);
    case Provide(input, proof, accounts) => ConservedByProvide(cfg, s, input, proof, accounts);
    case Purge => ConservedByPurge(cfg, s);
    case _ =>
      LiveOfSame(cfg, s, step);
      OtherFrame(cfg, s, step);
  }

  // ----------------------------------------------------------- identity of ids

  function SeedOfIssued(i: Issued): Seed { SeedOf(i.args, i.kind, i.clock, i.pos) }

  /** Requests of the current slot are still live: nothing leaves the queue in the
      slot it was created in. */
  ghost predicate Pinned(s: Life, i: Issued)
  {
    && i.clock.slot <= s.clock.slot
    && (i.clock.slot == s.clock.slot ==> i.clock == s.clock && StoredAs(i) in LiveOf(s.phase))
  }

  ghost predicate Dated(cfg: Config, s: Life)
  {
    && (forall j :: 0 <= j < |s.issued| ==> Pinned(s, s.issued[j]))
    && (forall j :: 0 <= j < |s.issued| ==> s.issued[j].id == cfg.hash(Preimage(SeedOfIssued(s.issued[j]))))
    && (forall i, j :: 0 <= i < j < |s.issued| && s.issued[i].clock.slot == s.issued[j].clock.slot
         ==> s.issued[i].pos != s.issued[j].pos)
  }

  lemma StoredAsFields(i: Issued)
    ensures StoredAs(i).pos == i.pos && StoredAs(i).item.slot == i.clock.slot && StoredAs(i).item.id == i.id
    ensures StoredAs(i).item.createdAt == CreatedAtFrom(i.clock.time)
    ensures StoredAs(i).item.callbackProgramId == i.args.programId
    ensures StoredAs(i).item.identityMode == if i.kind.scoped then 1 else 0
    ensures i.kind.scoped ==> StoredAs(i).item.identityBump == i.kind.scopedBump
    ensures ItemCost(StoredAs(i).item) == ItemCost(BaseItem(i.args, i.kind, i.clock))
    ensures StoredAs(i).payload == PayloadOf(i.args)
  {
  }

  /** A live list that grows by one entry keeps what was pinned. */
  lemma PinnedKept(s: Life, s': Life, k: nat, r: Request)
    requires s'.clock == s.clock && k <= |LiveOf(s.phase)|
    requires LiveOf(s'.phase) == LiveOf(s.phase)[..k] + [r] + LiveOf(s.phase)[k..]
    ensures r in LiveOf(s'.phase)
    ensures forall i :: Pinned(s, i) ==> Pinned(s', i)
  {
    hide LiveOf, StoredAs;
    var a := LiveOf(s.phase);
    assert a == a[..k] + a[k..];
    assert forall x :: x in a ==> x in LiveOf(s'.phase);
  }

  /** A request of the current slot has another position than the one just taken. */
  lemma PlaceTaken(s: Life, i: Issued, pos: nat)
    requires Pinned(s, i) && i.clock.slot == s.clock.slot
    requires forall m :: 0 <= m < |LiveOf(s.phase)| ==> LiveOf(s.phase)[m].pos != pos
    ensures i.pos != pos
  {
    hide LiveOf, StoredAs;
    StoredAsFields(i);
    var m :| 0 <= m < |LiveOf(s.phase)| && LiveOf(s.phase)[m] == StoredAs(i);
  }

  lemma DatedByRequest(cfg: Config, s: Life, args: RequestArgs, kind: RequestKind)
    requires Sound(s) && Dated(cfg, s)
    ensures Dated(cfg, NextRequest(cfg, s, args, kind))
  {
    hide NextRequest, StoredAs, LiveOf, Sound, Preimage, Pinned;
    var s' := NextRequest(cfg, s, args, kind);
    RequestFrame(cfg, s, args, kind);
    var k := RequestEffect(cfg, s, args, kind);
    if s' != s {
      var n := |s.issued|;
      var latest := s'.issued[n];
      assert forall j :: 0 <= j < n ==> s'.issued[j] == s'.issued[..n][j] == s.issued[j];
      PinnedKept(s, s', k, StoredAs(latest));
      LatestPinned(s', latest);
      forall j | 0 <= j < n && s.issued[j].clock.slot == latest.clock.slot ensures s.issued[j].pos != latest.pos {
        PlaceTaken(s, s.issued[j], latest.pos);
      }
    }
  }

  lemma LatestPinned(s: Life, i: Issued)
    requires i.clock == s.clock && StoredAs(i) in LiveOf(s.phase)
    ensures Pinned(s, i)
  {
  }

  lemma DatedByProvide(cfg: Config, s: Life, input: Bytes32, proof: Proof, accounts: ProvideAccounts)
    requires Sound(s) && Dated(cfg, s)
    ensures Dated(cfg, NextProvide(cfg, s, input, proof, accounts))
  {
    hide NextProvide, StoredAs, LiveOf, Sound, Preimage;
    var s' := NextProvide(cfg, s, input, proof, accounts);
    ProvideFrame(cfg, s, input, proof, accounts);
    var k := ProvideEffect(cfg, s, input, proof, accounts);
    if s' != s {
      var a := LiveOf(s.phase);
      assert a == a[..k] + [a[k]] + a[k + 1..];
      forall j | 0 <= j < |s.issued| ensures Pinned(s', s.issued[j]) {
        assert Pinned(s, s.issued[j]);
        StoredAsFields(s.issued[j]);
      }
    }
  }

  lemma DatedByPurge(cfg: Config, s: Life)
    requires Sound(s) && Dated(cfg, s)
    ensures Dated(cfg, NextPurge(cfg, s))
  {
    hide NextPurge, StoredAs, Sound, Preimage, RequestOf, Live, WellFormed;
    var s' := NextPurge(cfg, s);
    PurgeFrame(cfg, s);
    PurgeEffect(cfg, s);
    if s' != s {
      forall j | 0 <= j < |s.issued| ensures Pinned(s', s.issued[j]) {
        var i := s.issued[j];
        assert Pinned(s, i);
        if i.clock.slot == s.clock.slot {
          StoredAsFields(i);
          FreshNotExpired(i.clock.time);
          FreshSurvivesPurge(s.phase.q, s.clock, StoredAs(i));
        }
      }
    }
  }

  /** A live request stamped with the current time is not among the purged. */
  lemma FreshSurvivesPurge(q: QueueData, clock: Clock, r: Request)
    requires r in LiveRequests(q)
    requires !Expired(r.item.createdAt, CreatedAtFrom(clock.time))
    ensures r in Requests(q.acc, Filter(Live(q), Not(ExpiredNow(clock))))
  {
    hide Live, ReadPayload, Filter;
    var live := Live(q);
    var kept := Filter(live, Not(ExpiredNow(clock)));
    var m :| 0 <= m < |live| && LiveRequests(q)[m] == r;
    RequestPos(q.acc, live[m]);
    FilterIn(live, Not(ExpiredNow(clock)));
    assert live[m] in kept;
    var n :| 0 <= n < |kept| && kept[n] == live[m];
    assert Requests(q.acc, kept)[n] == r;
  }

  /** With the same history and live requests, time may move on. */
  lemma DatedLater(cfg: Config, s: Life, s': Life)
    requires Dated(cfg, s)
    requires s'.issued == s.issued && LiveOf(s'.phase) == LiveOf(s.phase) && Follows(s'.clock, s.clock)
    ensures Dated(cfg, s')
  {
    hide LiveOf, StoredAs, Preimage;
    forall j | 0 <= j < |s.issued| ensures Pinned(s', s.issued[j]) {
      assert Pinned(s, s.issued[j]);
    }
  }

  lemma DatedNext(cfg: Config, s: Life, step: Step)
    requires Sound(s) && Dated(cfg, s)
    ensures Dated(cfg, Next(cfg, s, step))
  {
    hide Dated, LiveOf, Follows, NextRequest, NextProvide, NextPurge, NextInitialize, NextClose, NextPause;
    hide NextDelegate, NextDonate;
    match step
    case MakeRequest(args, kind) => DatedByRequest(cfg, s, args, kind);
    case Provide(input, proof, accounts) => DatedByProvide(cfg, s, input, proof, accounts);
    case Purge => DatedByPurge(cfg, s);
    case _ =>
      LiveOfSame(cfg, s, step);
      OtherFrame(cfg, s, step);
      DatedLater(cfg, s, Next(cfg, s, step));
  }

  // ---------------------------------------------------------- the fulfilments

  ghost predicate AllFulfil(cfg: Config, s: Life)
  {
    forall i :: 0 <= i < |s.fulfilled| ==> Fulfils(cfg, s.fulfilled[i], s.clock)
  }

  lemma AllFulfilNext(cfg: Config, s: Life, step: Step)
    requires Sound(s) && AllFulfil(cfg, s)
    ensures AllFulfil(cfg, Next(cfg, s, step))
  {
    hide CallbackFor, Sound, NextProvide, NextRequest, NextPurge, NextInitialize, NextClose, NextPause;
    hide NextDelegate, NextDonate, LiveOf;
    var s' := Next(cfg, s, step);
    match step
    case Provide(input, proof, accounts) =>
      var k := ProvideEffect(cfg, s, input, proof, accounts);
      ProvideFrame(cfg, s, input, proof, accounts);
      assert forall i :: 0 <= i < |s.fulfilled| && s' != s ==> s'.fulfilled[..|s.fulfilled|][i] == s.fulfilled[i];
    case MakeRequest(args, kind) => RequestFrame(cfg, s, args, kind);
    case Purge => PurgeFrame(cfg, s);
    case _ => OtherFrame(cfg, s, step);
  }

  ghost predicate HistoryHolds(cfg: Config, s: Life)
  {
    Sound(s) && Conserved(s) && Dated(cfg, s) && AllFulfil(cfg, s)
  }

  lemma {:induction false} HistoryRun(cfg: Config, s: Life, steps: seq<Step>)
    requires Initial(s)
    ensures HistoryHolds(cfg, Run(cfg, s, steps))
  {
    if steps != [] {
      var before := Run(cfg, s, steps[..|steps| - 1]);
      var step := steps[|steps| - 1];
      HistoryRun(cfg, s, steps[..|steps| - 1]);
      hide Sound, Conserved, Dated, AllFulfil, Next;
      SoundNext(cfg, before, step);
      ConservedNext(cfg, before, step);
      DatedNext(cfg, before, step);
      AllFulfilNext(cfg, before, step);
    }
  }

  /** No two requests of a queue, over its whole history, are hashed from the same
      bytes. */
  lemma PreimagesNeverRepeat(cfg: Config, s: Life, steps: seq<Step>, i: nat, j: nat)
    requires Initial(s)
    requires i < j < |Run(cfg, s, steps).issued|
    ensures var issued := Run(cfg, s, steps).issued;
            Preimage(SeedOfIssued(issued[i])) != Preimage(SeedOfIssued(issued[j]))
  {
    HistoryRun(cfg, s, steps);
    hide Preimage, Sound, Conserved, AllFulfil, Run;
    var issued := Run(cfg, s, steps).issued;
    if Preimage(SeedOfIssued(issued[i])) == Preimage(SeedOfIssued(issued[j])) {
      PreimageInjective(SeedOfIssued(issued[i]), SeedOfIssued(issued[j]));
    }
  }

  /** The hash has no collision among what was hashed in this history. */
  ghost predicate NoCollision(cfg: Config, issued: seq<Issued>)
  {
    forall i, j :: 0 <= i < |issued| && 0 <= j < |issued|
      && cfg.hash(Preimage(SeedOfIssued(issued[i]))) == cfg.hash(Preimage(SeedOfIssued(issued[j])))
      ==> Preimage(SeedOfIssued(issued[i])) == Preimage(SeedOfIssued(issued[j]))
  }

  /** So, short of a hash collision, no id is ever issued twice. */
  lemma IdsNeverRepeat(cfg: Config, s: Life, steps: seq<Step>, i: nat, j: nat)
    requires Initial(s) && NoCollision(cfg, Run(cfg, s, steps).issued)
    requires i < j < |Run(cfg, s, steps).issued|
    ensures Run(cfg, s, steps).issued[i].id != Run(cfg, s, steps).issued[j].id
  {
    HistoryRun(cfg, s, steps);
    PreimagesNeverRepeat(cfg, s, steps, i, j);
    hide Preimage, Sound, Conserved, AllFulfil, Run;
  }

  // ------------------------------------------------------ one callback per id

  lemma {:induction false} CountAtMostOne<T>(a: seq<T>, x: T)
    requires forall i, j :: 0 <= i < j < |a| ==> !(a[i] == x && a[j] == x)
    ensures multiset(a)[x] <= 1
  {
    if a != [] {
      var n := |a| - 1;
      CountAtMostOne(a[..n], x);
      assert a == a[..n] + [a[n]];
      if a[n] == x {
        assert x !in a[..n];
        assert multiset(a[..n])[x] == 0;
      }
    }
  }

  lemma CountAtLeastTwo<T>(a: seq<T>, i: nat, j: nat)
    requires i < j < |a| && a[i] == a[j]
    ensures multiset(a)[a[i]] >= 2
  {
    assert a == a[..j] + [a[j]] + a[j + 1..];
    assert a[i] == a[..j][i];
    assert a[i] in multiset(a[..j]);
  }

  /** Where a settled or live request came from. */
  lemma WasIssued(cfg: Config, s: Life, r: Request) returns (m: nat)
    requires HistoryHolds(cfg, s)
    requires r in FulfilledRequests(s.fulfilled) || r in s.purged || r in LiveOf(s.phase)
    ensures m < |s.issued| && StoredAs(s.issued[m]) == r
  {
    hide StoredAs, LiveOf, FulfilledRequests, Sound, Dated, AllFulfil;
    assert r in multiset(FulfilledRequests(s.fulfilled)) || r in multiset(s.purged) || r in multiset(LiveOf(s.phase));
    assert r in multiset(IssuedRequests(s.issued));
    assert r in IssuedRequests(s.issued);
    m :| 0 <= m < |s.issued| && IssuedRequests(s.issued)[m] == r;
  }

  /** Short of a hash collision each id gets at most one callback, and a request
      that was called back is neither purged nor live. */
  lemma AtMostOneCallback(cfg: Config, s: Life, steps: seq<Step>, i: nat)
    requires Initial(s) && NoCollision(cfg, Run(cfg, s, steps).issued)
    requires i < |Run(cfg, s, steps).fulfilled|
    ensures var t := Run(cfg, s, steps);
            var r := t.fulfilled[i].request;
            && (forall j :: 0 <= j < |t.fulfilled| && t.fulfilled[j].request.item.id == r.item.id ==> j == i)
            && r !in t.purged && r !in LiveOf(t.phase)
  {
    var t := Run(cfg, s, steps);
    HistoryRun(cfg, s, steps);
    hide Run, StoredAs, LiveOf, Sound, Dated, AllFulfil, Preimage;
    var r := t.fulfilled[i].request;
    var fs := FulfilledRequests(t.fulfilled);
    assert fs[i] == r;
    var m := WasIssued(cfg, t, r);
    forall a, b | 0 <= a < b < |t.issued| ensures t.issued[a].id != t.issued[b].id {
      IdsNeverRepeat(cfg, s, steps, a, b);
    }
    forall a | 0 <= a < |t.issued| && StoredAs(t.issued[a]).item.id == r.item.id ensures a == m {
      StoredAsFields(t.issued[a]);
      StoredAsFields(t.issued[m]);
    }
    CountAtMostOne(IssuedRequests(t.issued), r);
    forall j | 0 <= j < |t.fulfilled| && t.fulfilled[j].request.item.id == r.item.id ensures j == i {
      assert fs[j] == t.fulfilled[j].request;
      var n := WasIssued(cfg, t, fs[j]);
      if j < i { CountAtLeastTwo(fs, j, i); }
      if i < j { CountAtLeastTwo(fs, i, j); }
    }
    assert r in multiset(fs);
  }

  // -------------------------------------------------- payloads, end to end

  function RequestedMeta(m: SerializableMeta): AccountMeta { AccountMeta(m.pubkey, false, m.isWritable) }

  /** The callback as the caller asked for it. */
  function RequestedCallback(cfg: Config, a: RequestArgs, identity: Bytes32, output: Bytes32): Instruction
  {
    Instruction(
      a.programId,
      [AccountMeta(identity, true, false)]
        + seq(|a.metas|, i requires 0 <= i < |a.metas| => RequestedMeta(a.metas[i])),
      a.disc + cfg.hash(output) + a.args)
  }

  lemma CallbackFromArgs(cfg: Config, i: Issued, identity: Bytes32, output: Bytes32)
    ensures CallbackFor(cfg, StoredAs(i), identity, output) == RequestedCallback(cfg, i.args, identity, output)
  {
    StoredAsFields(i);
    hide StoredAs;
    var p := PayloadOf(i.args);
    assert forall k :: 0 <= k < |i.args.metas| ==> ToAccountMeta(p.metas[k]) == RequestedMeta(i.args.metas[k]);
    assert CallbackFor(cfg, StoredAs(i), identity, output).accounts
        == RequestedCallback(cfg, i.args, identity, output).accounts;
  }

  /** Whatever else happened to the queue in between, every callback invoked is
      exactly the one asked for by a request issued in an earlier slot, signed by the
      identity it called for, without the oracle among its accounts, for an output
      whose proof was verified against that request's id. */
  lemma CallbackAsRequested(cfg: Config, s: Life, steps: seq<Step>, i: nat) returns (m: nat)
    requires Initial(s)
    requires i < |Run(cfg, s, steps).fulfilled|
    ensures var t := Run(cfg, s, steps);
            var f := t.fulfilled[i];
            && m < |t.issued|
            && f.request.item.id == t.issued[m].id
            && cfg.verify(t.issued[m].id, f.proof)
            && f.callback == RequestedCallback(cfg, t.issued[m].args, f.identity, f.proof.output)
            && (if t.issued[m].kind.scoped
                then cfg.scopedAddress(t.issued[m].args.programId, t.issued[m].kind.scopedBump) == Some(f.identity)
                else f.identity == cfg.globalIdentity)
            && (forall k :: 0 <= k < |t.issued[m].args.metas| ==> t.issued[m].args.metas[k].pubkey != cfg.oracle)
            && t.issued[m].clock.slot < t.clock.slot
  {
    var t := Run(cfg, s, steps);
    HistoryRun(cfg, s, steps);
    hide Run, StoredAs, LiveOf, Sound, Dated, Preimage, CallbackFor, RequestedCallback;
    assert FulfilledRequests(t.fulfilled)[i] == t.fulfilled[i].request;
    m := WasIssued(cfg, t, t.fulfilled[i].request);
    StoredAsFields(t.issued[m]);
    assert Fulfils(cfg, t.fulfilled[i], t.clock);
    CallbackFromArgs(cfg, t.issued[m], t.fulfilled[i].identity, t.fulfilled[i].proof.output);
    OracleNotRequested(cfg, t.issued[m].args);
  }

  lemma OracleNotRequested(cfg: Config, a: RequestArgs)
    requires !OracleAmong(cfg, PayloadOf(a).metas)
    ensures forall k :: 0 <= k < |a.metas| ==> a.metas[k].pubkey != cfg.oracle
  {
    forall k | 0 <= k < |a.metas| ensures a.metas[k].pubkey != cfg.oracle {
      assert PayloadOf(a).metas[k].pubkey == a.metas[k].pubkey;
    }
  }
}
