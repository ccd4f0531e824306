/** What each step does to the list of live requests, and that every step keeps
    the queue well formed. */
module LifeEffects {
  import opened Bytes
  import opened QueueItems
  import opened QueueSpec
  import opened QueueScan
  import opened QueueTiling
  import opened QueueRemoval
  import opened QueueInvariant
  import opened QueueInsertion
  import opened QueueRequests
  import opened Instructions
  import opened Initialization
  import opened QueueLife

  predicate Sound(s: Life) { HasQueue(s.phase) ==> WellFormed(s.phase.q) }

  /** The parts of the state a request leaves alone. */
  lemma RequestFrame(cfg: Config, s: Life, args: RequestArgs, kind: RequestKind)
    ensures var s' := NextRequest(cfg, s, args, kind);
            && s'.clock == s.clock && s'.fulfilled == s.fulfilled && s'.purged == s.purged
            && s'.reserve == s.reserve && s'.feesPaid == s.feesPaid && s'.oracleLamports == s.oracleLamports
            && s'.refunded == s.refunded
            && s'.queueLamports + s'.otherLamports == s.queueLamports + s.otherLamports
            && s'.queueLamports - s.queueLamports == s'.feesCharged - s.feesCharged
            && (s' != s ==> s'.stored)
            && (s' != s ==>
                s'.feesCharged == s.feesCharged + if cfg.exempt then 0 else ItemCost(BaseItem(args, kind, s.clock)))
  {
    hide RequestRandomness, ItemCost, BaseItem, IdFromPos;
  }

  /** The parts of the state a fulfilment leaves alone; the fee moves from the
      queue to the oracle. */
  lemma ProvideFrame(cfg: Config, s: Life, input: Bytes32, proof: Proof, accounts: ProvideAccounts)
    ensures var s' := NextProvide(cfg, s, input, proof, accounts);
            && s'.clock == s.clock && s'.issued == s.issued && s'.purged == s.purged && s'.stored == s.stored
            && s'.reserve == s.reserve && s'.feesCharged == s.feesCharged && s'.otherLamports == s.otherLamports
            && s'.queueLamports + s'.oracleLamports == s.queueLamports + s.oracleLamports
            && s'.oracleLamports - s.oracleLamports == s'.feesPaid - s.feesPaid && s'.refunded == s.refunded
  {
    hide ProvideRandomness, ItemCost, LiveRequests;
  }

  lemma PurgeFrame(cfg: Config, s: Life)
    ensures var s' := NextPurge(cfg, s);
            && s'.clock == s.clock && s'.issued == s.issued && s'.fulfilled == s.fulfilled && s'.stored == s.stored
            && s'.reserve == s.reserve && s'.feesCharged == s.feesCharged && s'.otherLamports == s.otherLamports
            && s'.queueLamports + s'.oracleLamports == s.queueLamports + s.oracleLamports
            && s'.oracleLamports - s.oracleLamports == s'.feesPaid - s.feesPaid && s'.refunded == s.refunded
  {
    hide PurgeExpired, SaturatingTotal, ExpiredRequests;
  }

  lemma PositionOfNew(q: QueueData, e: Entry, r: Added, k: nat)
    requires Inserted(q, e, r) && k < |Live(q)|
    ensures Live(q)[k].pos != r.pos
  {
    hide Live, WellFormed;
    var k' := if k < r.index then k else k + 1;
    assert Live(r.q)[k'] == Live(q)[k] && Live(r.q)[r.index] == e;
    if Live(q)[k].pos == r.pos {
      LivePositionsDistinct(r.q, k', r.index);
    }
  }

  /** A request that is accepted appears in the live list as it was issued, at a
      position no live request had; all others stay as they were. */
  lemma RequestEffect(cfg: Config, s: Life, args: RequestArgs, kind: RequestKind) returns (k: nat)
    requires Sound(s)
    ensures var s' := NextRequest(cfg, s, args, kind);
            s' != s ==>
              && s.phase.Open? && s'.phase.Open? && WellFormed(s'.phase.q)
              && s.phase.q.header.paused == 0
              && |s'.issued| == |s.issued| + 1 && s'.issued[..|s.issued|] == s.issued
              && s'.issued[|s.issued|].clock == s.clock
              && s'.issued[|s.issued|].id
                 == cfg.hash(RequestId.Preimage(SeedOf(args, kind, s.clock, s'.issued[|s.issued|].pos)))
              && s'.issued[|s.issued|].args == args && s'.issued[|s.issued|].kind == kind
              && k <= |LiveOf(s.phase)|
              && LiveOf(s'.phase) == LiveOf(s.phase)[..k] + [StoredAs(s'.issued[|s.issued|])] + LiveOf(s.phase)[k..]
              && (forall i :: 0 <= i < |LiveOf(s.phase)| ==> LiveOf(s.phase)[i].pos != s'.issued[|s.issued|].pos)
  {
    hide WellFormed, AddItem, Live, PlacedItem, RequestOf, PlacedAt, PayloadOf, BaseItem, RequestId.Preimage;
    hide ItemCost;
    k := 0;
    if s.phase.Open? && |s.phase.q.acc| < 0x1_0000_0000 && RequestRandomness(cfg, s.phase.q, s.clock, args, kind).Ok? {
      var q := s.phase.q;
      var base := BaseItem(args, kind, s.clock);
      var p := PayloadOf(args);
      var f := IdFromPos(cfg, args, kind, s.clock);
      PayloadDisc(args);
      InsertionExact(q, base, p, f);
      RequestsAfterAdd(q, base, p, f);
      var r := AddItem(q, base, p, f).value;
      k := r.index;
      forall i | 0 <= i < |Live(q)| ensures Requests(q.acc, Live(q))[i].pos != r.pos {
        PositionOfNew(q, NewEntry(r.pos, WithId(base, f, r.pos), p), r, i);
        RequestPos(q.acc, Live(q)[i]);
      }
    }
  }

  lemma PayloadDisc(args: RequestArgs)
    ensures PayloadOf(args).disc == args.disc
  {
  }

  lemma RequestPos(acc: seq<byte>, e: Entry)
    ensures RequestOf(acc, e).pos == e.pos && RequestOf(acc, e).item == e.item
  {
  }

  /** The callback a request calls for, given the identity that signs it and the
      VRF output: the accounts as requested but never as signers, and the
      discriminator, the hashed output and the arguments as data. */
  function CallbackFor(cfg: Config, r: Request, identity: Bytes32, output: Bytes32): Instruction
  {
    Callback(cfg, identity, r.item.callbackProgramId, r.payload, output)
  }

  /** The identity that has to sign the callback: the scoped one of the callback
      program for a scoped request, the global one otherwise. */
  predicate SignedBy(cfg: Config, item: QueueItem, identity: Bytes32)
  {
    if item.identityMode == 1 then cfg.scopedAddress(item.callbackProgramId, item.identityBump) == Some(identity)
    else identity == cfg.globalIdentity
  }

  /** Every remaining account that is executable or owned by a loader is an allowed
      program. */
  predicate OnlyAllowedPrograms(cfg: Config, accounts: ProvideAccounts)
  {
    forall i :: 0 <= i < |accounts.remaining| ==>
      (accounts.remaining[i].executable || accounts.remaining[i].owner in cfg.loaders) ==>
      accounts.remaining[i].key in cfg.allowedPrograms
  }

  /** The identity check passes exactly for the identity that has to sign and, for an
      unscoped item, without a disallowed executable; otherwise which error it gives. */
  lemma IdentityExactly(cfg: Config, item: QueueItem, accounts: ProvideAccounts)
    ensures IdentityError(cfg, item, accounts).None? <==>
            if item.identityMode == 1
            then cfg.scopedAddress(item.callbackProgramId, item.identityBump) == Some(accounts.identity)
            else accounts.identity == cfg.globalIdentity && OnlyAllowedPrograms(cfg, accounts)
    ensures IdentityError(cfg, item, accounts).None? ==> SignedBy(cfg, item, accounts.identity)
    ensures IdentityError(cfg, item, accounts).Some? ==>
            IdentityError(cfg, item, accounts).value
            == if item.identityMode == 1
               then if cfg.scopedAddress(item.callbackProgramId, item.identityBump).None? then InvalidSeeds else InvalidAccountData
               else if !OnlyAllowedPrograms(cfg, accounts) then InvalidCallbackAccounts else InvalidAccountData
  {
  }

  /** What a fulfilment recorded at clock `clock` must satisfy. */
  predicate Fulfils(cfg: Config, f: Fulfilment, clock: Clock)
  {
    && cfg.verify(f.request.item.id, f.proof)
    && SignedBy(cfg, f.request.item, f.identity)
    && !OracleAmong(cfg, f.request.payload.metas)
    && f.request.item.slot < clock.slot
    && f.callback == CallbackFor(cfg, f.request, f.identity, f.proof.output)
  }

  lemma ProvideRemoves(cfg: Config, q: QueueData, clock: Clock, input: Bytes32, proof: Proof, accounts: ProvideAccounts)
    requires WellFormed(q) && ProvideRandomness(cfg, q, clock, input, proof, accounts).Ok?
    ensures var r := ProvideRandomness(cfg, q, clock, input, proof, accounts).value;
            && r.index < |LiveRequests(q)|
            && WellFormed(r.q)
            && LiveRequests(r.q) == LiveRequests(q)[..r.index] + LiveRequests(q)[r.index + 1..]
            && r.item.priorityRequest == LiveRequests(q)[r.index].item.priorityRequest
            && LiveRequests(q)[r.index].item.id == input
            && Fulfils(cfg, Fulfilment(LiveRequests(q)[r.index], proof, accounts.identity, r.callback), clock)
  {
    hide WellFormed, Live, RequestOf, Remove, ReadPayload, IdentityError, Callback, PayloadReadable;
    hide OracleAmong, FindById;
    var (index, item) := FindById(Live(q), input).value;
    RequestsAfterRemove(q, index);
    RequestPos(q.acc, Live(q)[index]);
    RequestPayload(q.acc, Live(q)[index]);
    IdentityExactly(cfg, Remove(q, index).value.item, accounts);
  }

  lemma RequestPayload(acc: seq<byte>, e: Entry)
    requires PayloadReadable(acc, e.item)
    ensures RequestOf(acc, e).payload == ReadPayload(acc, e.item)
  {
  }

  /** A fulfilment takes one live request out of the list, an earlier slot's, and
      its callback is the one that request called for. */
  lemma ProvideEffect(cfg: Config, s: Life, input: Bytes32, proof: Proof, accounts: ProvideAccounts) returns (k: nat)
    requires Sound(s)
    ensures var s' := NextProvide(cfg, s, input, proof, accounts);
            s' != s ==>
              && s.phase.Open? && s'.phase.Open? && WellFormed(s'.phase.q)
              && k < |LiveOf(s.phase)|
              && LiveOf(s'.phase) == LiveOf(s.phase)[..k] + LiveOf(s.phase)[k + 1..]
              && |s'.fulfilled| == |s.fulfilled| + 1 && s'.fulfilled[..|s.fulfilled|] == s.fulfilled
              && s'.fulfilled[|s.fulfilled|].request == LiveOf(s.phase)[k]
              && LiveOf(s.phase)[k].item.id == input
              && Fulfils(cfg, s'.fulfilled[|s.fulfilled|], s.clock)
              && s'.feesPaid == s.feesPaid + (if cfg.exempt then 0 else ItemCost(LiveOf(s.phase)[k].item))
  {
    hide WellFormed, Live, ProvideRandomness, LiveRequests, Fulfils;
    k := 0;
    if s.phase.Open? && ProvideRandomness(cfg, s.phase.q, s.clock, input, proof, accounts).Ok? {
      ProvideRemoves(cfg, s.phase.q, s.clock, input, proof, accounts);
      k := ProvideRandomness(cfg, s.phase.q, s.clock, input, proof, accounts).value.index;
    }
  }

  lemma {:induction false} CostOfRemoved(es: seq<Entry>)
    ensures TotalCost(ClearedItems(es)) == TotalCost(Items(es))
  {
    if es != [] {
      var n := |es| - 1;
      CostOfRemoved(es[..n]);
      assert ClearedItems(es)[..n] == ClearedItems(es[..n]);
      assert Items(es)[..n] == Items(es[..n]);
    }
  }

  /** A purge splits the live list into the expired requests, which it removes and
      is paid for, and the others, which stay as they were. */
  lemma PurgeEffect(cfg: Config, s: Life)
    requires Sound(s)
    ensures var s' := NextPurge(cfg, s);
            s' != s ==>
              && s.phase.Open? && s'.phase.Open? && WellFormed(s'.phase.q)
              && LiveOf(s'.phase) == Requests(s.phase.q.acc, Filter(Live(s.phase.q), Not(ExpiredNow(s.clock))))
              && s'.purged == s.purged + Requests(s.phase.q.acc, Filter(Live(s.phase.q), ExpiredNow(s.clock)))
              && s'.feesPaid == s.feesPaid
                 + (if cfg.exempt then 0 else TotalCost(Items(Filter(Live(s.phase.q), ExpiredNow(s.clock)))))
  {
    if s.phase.Open? {
      hide WellFormed, RemoveWhere, Requests, Filter, Live;
      var q := s.phase.q;
      var w := ExpiredNow(s.clock);
      RemovalKeepsInvariant(q, w);
      RequestsAfterRemoveWhere(q, w);
      LiveAfterRemoveWhere(q, w);
      RemovedBound(q, w);
      TotalNeverSaturates(RemoveWhere(q, w).removed);
      CostOfRemoved(Filter(Live(q), w));
    }
  }

  lemma RemovedBound(q: QueueData, w: Entry -> bool)
    requires WellFormed(q)
    ensures |RemoveWhere(q, w).removed| <= 5461
  {
    EntriesBound(q);
  }

  /** The header's flags do not affect what is stored. */
  lemma PauseEffect(s: Life, paused: byte)
    requires Sound(s)
    ensures var s' := NextPause(s, paused);
            s' != s ==>
              && s.phase.Open? && s'.phase.Open? && WellFormed(s'.phase.q)
              && LiveOf(s'.phase) == LiveOf(s.phase) && s'.phase.q.acc == s.phase.q.acc
              && Entries(s'.phase.q) == Entries(s.phase.q)
              && s'.phase.q.header.itemCount == s.phase.q.header.itemCount
  {
    if s.phase.Open? && SetPaused(s.phase.q, paused).Ok? {
      assert Entries(SetPaused(s.phase.q, paused).value) == Entries(s.phase.q);
    }
  }

  /** A closable queue has no live request. */
  lemma ClosableIsEmpty(q: QueueData)
    requires WellFormed(q)
    ensures Closable(q) <==> LiveRequests(q) == []
  {
  }

  lemma FreshIsEmpty(target: nat, index: byte)
    requires DISCRIMINATOR_SIZE + HEADER_SIZE <= target <= MAX_QUEUE_ACCOUNT_SIZE
    ensures WellFormed(Fresh(target, index)) && LiveRequests(Fresh(target, index)) == []
  {
    FreshWellFormed(target, index);
  }

  /** Every step keeps the queue well formed. */
  lemma SoundNext(cfg: Config, s: Life, step: Step)
    requires Sound(s)
    ensures Sound(Next(cfg, s, step))
  {
    hide WellFormed, NextRequest, NextProvide, NextPurge, NextPause, Fresh;
    match step
    case Tick(_) =>
    case Initialize(target, index, registered, balance) =>
      if InitPhase(s.phase, target, index, registered).Ok? && InitPhase(s.phase, target, index, registered).value.Open? {
        FreshIsEmpty(target, index);
      }
    case MakeRequest(args, kind) => var k := RequestEffect(cfg, s, args, kind);
    case Provide(input, proof, accounts) => var k := ProvideEffect(cfg, s, input, proof, accounts);
    case Purge => PurgeEffect(cfg, s);
    case Pause(paused) => PauseEffect(s, paused);
    case Close =>
    case Delegate =>
    case Donate(_) =>
  }

  /** Every reachable queue is well formed: the tiling invariant holds in every run. */
  lemma {:induction false} SoundRun(cfg: Config, s: Life, steps: seq<Step>)
    requires Initial(s)
    ensures Sound(Run(cfg, s, steps))
  {
    if steps != [] {
      SoundRun(cfg, s, steps[..|steps| - 1]);
      SoundNext(cfg, Run(cfg, s, steps[..|steps| - 1]), steps[|steps| - 1]);
    }
  }
}
