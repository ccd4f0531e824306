/** The program with its own verifier: what every callback of every run carries, and
    that an honest oracle can fulfil every request. */
module VrfLife {
  import opened Bytes
  import opened QueueItems
  import opened QueueSpec
  import opened QueueInvariant
  import opened QueueRequests
  import opened Instructions
  import opened QueueLife
  import opened LifeEffects
  import opened LifeHistory
  import opened LifeFees
  import opened Group
  import opened Vrf

  /** The configuration of a queue whose oracle is registered with the key of secret
      x: the program hashes with the suite's hash and verifies with its verifier. */
  function Deployed<P>(cfg: Config, v: Suite<P>, x: nat): Config
    requires v.g.order > 0
  {
    cfg.(hash := v.hash,
         verify := (input: Bytes32, proof: Proof) =>
           ChainVerify(v, v.g.encode(v.g.mul(x, v.g.base)), input, proof.output, ChainProofOf(proof)))
  }

  function ChainProofOf(proof: Proof): ChainProof
  {
    ChainProof(proof.commitmentBase, proof.commitmentHash, proof.scalar)
  }

  /** The one output the key has for an id that hashes to a point. */
  function VrfOutput<P>(v: Suite<P>, x: nat, id: Bytes32): Bytes32
    requires HostHashToPoint(v, id, 0).Some?
  {
    v.g.encode(v.g.mul(x, HostHashToPoint(v, id, 0).value))
  }

  // ---------------------------------------------------------------- soundness

  /** The proof commits to a wrong output, and its challenge, a hash of the whole
      transcript, is nevertheless the one value modulo the order that any response to
      its commitments can answer. */
  ghost predicate HitsChallenge<P>(v: Suite<P>, x: nat, id: Bytes32, proof: Proof)
    requires v.g.order > 0
  {
    var g := v.g;
    var pk := g.mul(x, g.base);
    && HostHashToPoint(v, id, 0).Some?
    && g.decode(proof.output).Some? && g.decode(proof.commitmentBase).Some? && g.decode(proof.commitmentHash).Some?
    && proof.output != VrfOutput(v, x, id)
    && forall c, s ::
         Accepts(g, pk, HostHashToPoint(v, id, 0).value, g.decode(proof.output).value,
                 g.decode(proof.commitmentBase).value, g.decode(proof.commitmentHash).value, c, s)
         ==> (Challenge(v, proof.output, proof.commitmentBase, proof.commitmentHash, g.encode(pk), id) - c) % g.order == 0
  }

  lemma VerifiedOutput<P(!new)>(v: Suite<P>, x: nat, id: Bytes32, proof: Proof)
    requires ValidSuite(v) && v.g.order > 0
    requires ChainVerify(v, v.g.encode(v.g.mul(x, v.g.base)), id, proof.output, ChainProofOf(proof))
    ensures HostHashToPoint(v, id, 0).Some?
    ensures proof.output == VrfOutput(v, x, id) || HitsChallenge(v, x, id, proof)
  {
    hide Lawful, UnLE, HostHashToPoint, Challenge, ChainVerify, Accepts;
    var g := v.g;
    ChainVerifyIs(v, g.mul(x, g.base), id, proof.output, ChainProofOf(proof));
    var h := HostHashToPoint(v, id, 0).value;
    EncodingRules(g, proof.output, g.decode(proof.output).value);
    EncodingRules(g, proof.output, g.mul(x, h));
    if proof.output != VrfOutput(v, x, id) {
      forall c, s | Accepts(g, g.mul(x, g.base), h, g.decode(proof.output).value,
                            g.decode(proof.commitmentBase).value, g.decode(proof.commitmentHash).value, c, s)
        ensures (Challenge(v, proof.output, proof.commitmentBase, proof.commitmentHash, g.encode(g.mul(x, g.base)), id) - c)
                % g.order == 0
      {
        WrongOutputPinsChallenge(v, x, id, proof.output, ChainProofOf(proof), c, s);
      }
    }
  }

  /** In every run, every callback is the one a request asked for, and the randomness
      in it is the hash of x times the point its id hashes to: fixed by the key and the
      id, whatever the oracle does, unless the hash hit the one challenge that a wrong
      output can answer. */
  lemma CallbacksCarryVrf<P(!new)>(cfg: Config, v: Suite<P>, x: nat, s: Life, steps: seq<Step>, i: nat) returns (m: nat)
    requires ValidSuite(v) && v.g.order > 0 && Initial(s)
    requires i < |Run(Deployed(cfg, v, x), s, steps).fulfilled|
    ensures var t := Run(Deployed(cfg, v, x), s, steps);
            var f := t.fulfilled[i];
            && m < |t.issued| && HostHashToPoint(v, t.issued[m].id, 0).Some?
            && (f.callback == RequestedCallback(Deployed(cfg, v, x), t.issued[m].args, f.identity, VrfOutput(v, x, t.issued[m].id))
                || HitsChallenge(v, x, t.issued[m].id, f.proof))
  {
    hide Run, Initial, ValidSuite, HostHashToPoint, ChainVerify, HitsChallenge, RequestedCallback, VrfOutput;
    var t := Run(Deployed(cfg, v, x), s, steps);
    m := CallbackAsRequested(Deployed(cfg, v, x), s, steps, i);
    VerifiedOutput(v, x, t.issued[m].id, t.fulfilled[i].proof);
  }

  // ----------------------------------------------------------------- liveness

  /** The accounts are the ones the request calls for: its program, and the scoped
      identity of that program for a scoped request, or else the global identity and no
      program that is not allowed; and its callback succeeds. */
  predicate RightAccounts(cfg: Config, item: QueueItem, accounts: ProvideAccounts)
  {
    && accounts.callbackProgram == item.callbackProgramId
    && (if item.identityMode == 1
        then cfg.scopedAddress(item.callbackProgramId, item.identityBump) == Some(accounts.identity)
        else accounts.identity == cfg.globalIdentity && OnlyAllowedPrograms(cfg, accounts))
    && accounts.callbackSucceeds
  }

  predicate OracleAbsent(cfg: Config, r: Request)
  {
    forall i :: 0 <= i < |r.payload.metas| ==> r.payload.metas[i].pubkey != cfg.oracle
  }

  lemma OracleAbsentIs(cfg: Config, r: Request)
    ensures OracleAbsent(cfg, r) <==> !OracleAmong(cfg, r.payload.metas)
  {
  }

  lemma SameIdentityError(cfg: Config, item: QueueItem, accounts: ProvideAccounts)
    ensures IdentityError(cfg, item.(used := 0), accounts) == IdentityError(cfg, item, accounts)
  {
  }

  lemma SameRemaining(cfg: Config, accounts: ProvideAccounts)
    ensures OnlyAllowedPrograms(cfg, accounts.(callbackSucceeds := true)) == OnlyAllowedPrograms(cfg, accounts)
  {
  }

  /** Exactly which fulfilments of a live request pass all checks, when no other live
      request has its id, and the error of the first check that fails. */
  lemma ProvideExactly(cfg: Config, q: QueueData, clock: Clock, k: nat, proof: Proof, accounts: ProvideAccounts)
    requires WellFormed(q) && k < |LiveRequests(q)|
    requires forall j :: 0 <= j < |LiveRequests(q)| && LiveRequests(q)[j].item.id == LiveRequests(q)[k].item.id ==> j == k
    ensures var r := LiveRequests(q)[k];
            var result := ProvideRandomness(cfg, q, clock, r.item.id, proof, accounts);
            && (result.Ok? <==>
                && OracleAbsent(cfg, r) && r.item.slot < clock.slot
                && cfg.verify(r.item.id, proof) && RightAccounts(cfg, r.item, accounts))
            && (result.Ok? ==> result.value.index == k)
            && (!OracleAbsent(cfg, r) ==> result == Err(InvalidCallbackAccounts))
            && (OracleAbsent(cfg, r) && r.item.slot >= clock.slot ==> result == Err(OracleMustProvideInDifferentSlot))
            && (OracleAbsent(cfg, r) && r.item.slot < clock.slot && !cfg.verify(r.item.id, proof) ==> result == Err(InvalidProof))
            && (OracleAbsent(cfg, r) && r.item.slot < clock.slot && cfg.verify(r.item.id, proof) && result.Err? ==>
                result.error
                == if accounts.callbackProgram != r.item.callbackProgramId then InvalidAccountData
                   else if RightAccounts(cfg, r.item, accounts.(callbackSucceeds := true)) then CallbackFailed
                   else if r.item.identityMode == 1
                   then if cfg.scopedAddress(r.item.callbackProgramId, r.item.identityBump).None? then InvalidSeeds
                        else InvalidAccountData
                   else if !OnlyAllowedPrograms(cfg, accounts) then InvalidCallbackAccounts
                   else InvalidAccountData)
  {
    hide WellFormed, Live, RequestOf, Remove, ReadPayload, IdentityError, Callback, PayloadReadable, OracleAmong;
    hide OracleAbsent, OnlyAllowedPrograms;
    var live := Live(q);
    forall j | 0 <= j < |live| ensures LiveRequests(q)[j].item == live[j].item {
      RequestPos(q.acc, live[j]);
    }
    var id := live[k].item.id;
    assert FindById(live, id) == Some((k, live[k].item));
    hide FindById;
    RequestsAfterRemove(q, k);
    RequestPayload(q.acc, live[k]);
    OracleAbsentIs(cfg, LiveRequests(q)[k]);
    SameIdentityError(cfg, live[k].item, accounts);
    IdentityExactly(cfg, live[k].item, accounts);
    assert OnlyAllowedPrograms(cfg, accounts.(callbackSucceeds := true)) == OnlyAllowedPrograms(cfg, accounts) by {
      SameRemaining(cfg, accounts);
    }
  }

  /** A fulfilment of an id that no live request has is refused. */
  lemma UnknownIdRefused(cfg: Config, q: QueueData, clock: Clock, input: Bytes32, proof: Proof, accounts: ProvideAccounts)
    requires forall j :: 0 <= j < |LiveRequests(q)| ==> LiveRequests(q)[j].item.id != input
    ensures ProvideRandomness(cfg, q, clock, input, proof, accounts) == Err(RandomnessRequestNotFound)
  {
    hide Live, PayloadReadable, FindById;
    forall j | 0 <= j < |Live(q)| ensures Live(q)[j].item.id != input {
      assert LiveRequests(q)[j].item == Live(q)[j].item;
    }
  }

  /** In a run without a hash collision, live requests have different ids. */
  lemma LiveIdsDiffer(cfg: Config, s: Life, steps: seq<Step>, j: nat, k: nat)
    requires Initial(s) && NoCollision(cfg, Run(cfg, s, steps).issued)
    requires j < |LiveOf(Run(cfg, s, steps).phase)| && k < |LiveOf(Run(cfg, s, steps).phase)|
    requires LiveOf(Run(cfg, s, steps).phase)[j].item.id == LiveOf(Run(cfg, s, steps).phase)[k].item.id
    ensures j == k
  {
    var t := Run(cfg, s, steps);
    HistoryRun(cfg, s, steps);
    hide Run, StoredAs, LiveOf, Sound, Dated, AllFulfil, NoCollision;
    var live := LiveOf(t.phase);
    var m := WasIssued(cfg, t, live[j]);
    var n := WasIssued(cfg, t, live[k]);
    StoredAsFields(t.issued[m]);
    StoredAsFields(t.issued[n]);
    forall a, b | 0 <= a < b < |t.issued| ensures t.issued[a].id != t.issued[b].id {
      IdsNeverRepeat(cfg, s, steps, a, b);
    }
    assert m == n;
    if j != k {
      CountAtLeastTwo(live, if j < k then j else k, if j < k then k else j);
      forall a, b | 0 <= a < b < |t.issued|
        ensures !(IssuedRequests(t.issued)[a] == live[j] && IssuedRequests(t.issued)[b] == live[j])
      {
        StoredAsFields(t.issued[a]);
        StoredAsFields(t.issued[b]);
      }
      CountAtMostOne(IssuedRequests(t.issued), live[j]);
    }
  }

  /** The fulfilment of live request k, and exactly when it goes through. */
  ghost predicate FulfilledExactly(cfg: Config, t: Life, k: nat, proof: Proof, accounts: ProvideAccounts)
    requires k < |LiveOf(t.phase)|
  {
    var r := LiveOf(t.phase)[k];
    var t' := NextProvide(cfg, t, r.item.id, proof, accounts);
    && (t' != t <==>
        && OracleAbsent(cfg, r) && r.item.slot < t.clock.slot
        && cfg.verify(r.item.id, proof) && RightAccounts(cfg, r.item, accounts))
    && (t' != t ==>
        && LiveOf(t'.phase) == LiveOf(t.phase)[..k] + LiveOf(t.phase)[k + 1..]
        && |t'.fulfilled| == |t.fulfilled| + 1 && t'.fulfilled[|t.fulfilled|].request == r
        && t'.fulfilled[|t.fulfilled|].callback == CallbackFor(cfg, r, accounts.identity, proof.output)
        && var fee := if cfg.exempt then 0 else if r.item.priorityRequest == 1 then 800000 else 500000;
           t'.queueLamports == t.queueLamports - fee && t'.oracleLamports == t.oracleLamports + fee)
  }

  lemma FulfilsNow(cfg: Config, start: Life, t: Life, k: nat, proof: Proof, accounts: ProvideAccounts)
    requires Sound(t) && Solvent(cfg, t, start) && t.phase.Open? && k < |LiveOf(t.phase)|
    requires forall j :: 0 <= j < |LiveOf(t.phase)| && LiveOf(t.phase)[j].item.id == LiveOf(t.phase)[k].item.id ==> j == k
    ensures FulfilledExactly(cfg, t, k, proof, accounts)
  {
    hide WellFormed, ProvideRandomness, LiveRequests, Solvent, OracleAbsent, RightAccounts, CallbackFor;
    ProvideExactly(cfg, t.phase.q, t.clock, k, proof, accounts);
    var id := LiveOf(t.phase)[k].item.id;
    if ProvideRandomness(cfg, t.phase.q, t.clock, id, proof, accounts).Ok? {
      ProvidePayable(cfg, t, id, proof, accounts, start);
      ProvideRemoves(cfg, t.phase.q, t.clock, id, proof, accounts);
    }
  }

  /** In every run without a collision a live request is fulfilled, and taken off the
      queue, exactly by a transaction in a later slot with a verified proof and the
      accounts it calls for, unless the oracle is among them; the queue then pays the
      oracle the request's fee. */
  lemma FulfilsExactly(cfg: Config, s: Life, steps: seq<Step>, k: nat, proof: Proof, accounts: ProvideAccounts)
    requires Initial(s) && NoCollision(cfg, Run(cfg, s, steps).issued) && Run(cfg, s, steps).phase.Open?
    requires k < |LiveOf(Run(cfg, s, steps).phase)|
    ensures FulfilledExactly(cfg, Run(cfg, s, steps), k, proof, accounts)
  {
    hide Run, NoCollision, Initial, Sound, LiveOf, Solvent, FulfilledExactly;
    SoundRun(cfg, s, steps);
    FeeConservation(cfg, s, steps);
    var live := LiveOf(Run(cfg, s, steps).phase);
    forall j | 0 <= j < |live| && live[j].item.id == live[k].item.id ensures j == k {
      LiveIdsDiffer(cfg, s, steps, j, k);
    }
    FulfilsNow(cfg, s, Run(cfg, s, steps), k, proof, accounts);
  }

  /** What the oracle computes for an id, as it is sent to the program. */
  function HonestProof<P>(v: Suite<P>, x: nat, id: Bytes32): Proof
    requires v.g.order > 0 && ComputeVrf(v, x, id).Some?
  {
    var (output, proof) := ComputeVrf(v, x, id).value;
    Proof(output, proof.base, proof.hash, ScalarBytes(proof.s))
  }

  lemma HonestProofRight<P(!new)>(v: Suite<P>, x: nat, id: Bytes32)
    requires ValidSuite(v) && v.g.order > 0 && HostHashToPoint(v, id, 0).Some?
    ensures ComputeVrf(v, x, id).Some? && HonestProof(v, x, id).output == VrfOutput(v, x, id)
    ensures var p := HonestProof(v, x, id);
            ChainVerify(v, v.g.encode(v.g.mul(x, v.g.base)), id, p.output, ChainProofOf(p))
  {
    hide Lawful, HostHashToPoint, HostChallenge, ChainVerify, LE;
    ComputedProofAcceptedOnChain(v, x, id);
  }

  /** An honest oracle can always fulfil: in every run, a request of an earlier slot
      that is still live, did not name the oracle and whose id hashes to a point is
      fulfilled by the computed proof, and its callback carries the VRF output. */
  lemma HonestOracleFulfils<P(!new)>(
    cfg: Config, v: Suite<P>, x: nat, s: Life, steps: seq<Step>, k: nat, accounts: ProvideAccounts)
    requires ValidSuite(v) && v.g.order > 0 && Initial(s)
    requires var t := Run(Deployed(cfg, v, x), s, steps);
             && NoCollision(Deployed(cfg, v, x), t.issued) && t.phase.Open? && k < |LiveOf(t.phase)|
             && var r := LiveOf(t.phase)[k];
                && r.item.slot < t.clock.slot && OracleAbsent(cfg, r)
                && RightAccounts(Deployed(cfg, v, x), r.item, accounts)
                && HostHashToPoint(v, r.item.id, 0).Some?
    ensures var t := Run(Deployed(cfg, v, x), s, steps);
            var r := LiveOf(t.phase)[k];
            && ComputeVrf(v, x, r.item.id).Some?
            && var t' := NextProvide(Deployed(cfg, v, x), t, r.item.id, HonestProof(v, x, r.item.id), accounts);
               && |t'.fulfilled| == |t.fulfilled| + 1 && t'.fulfilled[|t.fulfilled|].request == r
               && t'.fulfilled[|t.fulfilled|].callback
                  == CallbackFor(Deployed(cfg, v, x), r, accounts.identity, VrfOutput(v, x, r.item.id))
  {
    hide Run, Initial, ValidSuite, HostHashToPoint, ChainVerify, VrfOutput, NoCollision, NextProvide, CallbackFor;
    hide RightAccounts, ComputeVrf, HonestProof, LiveOf;
    var t := Run(Deployed(cfg, v, x), s, steps);
    var r := LiveOf(t.phase)[k];
    HonestProofRight(v, x, r.item.id);
    FulfilsExactly(Deployed(cfg, v, x), s, steps, k, HonestProof(v, x, r.item.id), accounts);
  }
}
