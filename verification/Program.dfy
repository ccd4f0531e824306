/** The instruction processors as the program runs them: on a queue account and
    lamport balances that they change in place.  Each is proved against the
    instruction's function in Instructions.  When a processor returns an error the
    runtime discards what it wrote, so nothing is promised about the state then. */
module Program {
  import opened Bytes
  import opened QueueItems
  import opened QueueSpec
  import opened QueueInvariant
  import opened QueueAccounts
  import opened Instructions
  import opened Expiry

  class OracleQueue {
    const cfg: Config
    const queue: QueueAccount
    var queueLamports: u64
    var oracleLamports: u64
    var payerLamports: u64

    constructor (cfg: Config, queue: QueueAccount, queueLamports: u64, oracleLamports: u64, payerLamports: u64)
      ensures this.cfg == cfg && this.queue == queue
      ensures this.queueLamports == queueLamports && this.oracleLamports == oracleLamports
      ensures this.payerLamports == payerLamports
    {
      this.cfg, this.queue := cfg, queue;
      this.queueLamports, this.oracleLamports, this.payerLamports := queueLamports, oracleLamports, payerLamports;
    }

    ghost function Data(): QueueData
      reads queue, queue.acc
    {
      queue.Data()
    }

    /** Move the fee from the queue to the oracle with checked arithmetic. */
    method TransferFee(amount: u64) returns (r: Result<()>)
      modifies this
      ensures r.Ok? <==> amount <= old(queueLamports) && old(oracleLamports) + amount <= U64_MAX
      ensures r.Ok? ==>
                && queueLamports == old(queueLamports) - amount
                && oracleLamports == old(oracleLamports) + amount
                && payerLamports == old(payerLamports)
      ensures r.Err? ==> r.error == if old(queueLamports) < amount then InsufficientFunds else InvalidArgument
    {
      if queueLamports < amount {
        return Err(InsufficientFunds);
      }
      queueLamports := queueLamports - amount;
      if oracleLamports + amount > U64_MAX {
        return Err(InvalidArgument);
      }
      oracleLamports := oracleLamports + amount;
      r := Ok(());
    }

    method ProcessRequest(clock: Clock, args: RequestArgs, kind: RequestKind) returns (r: Result<nat>)
      requires ITEMS_START <= queue.header.cursor && queue.acc.Length < 0x1_0000_0000
      requires queueLamports + payerLamports <= U64_MAX
      modifies this, queue, queue.acc
      ensures match RequestRandomness(cfg, old(Data()), clock, args, kind)
              case Err(error) => r == Err(error)
              case Ok(added) =>
                var cost := if cfg.exempt then 0 else ItemCost(BaseItem(args, kind, clock));
                if old(payerLamports) < cost then r == Err(InsufficientFunds)
                else
                  && r == Ok(added.index) && Data() == added.q
                  && queueLamports == old(queueLamports) + cost && payerLamports == old(payerLamports) - cost
                  && oracleLamports == old(oracleLamports)
    {
      hide AddItem;
      if queue.header.paused != 0 {
        return Err(QueuePaused);
      }
      if |args.disc| > MAX_DISCRIMINATOR_LEN {
        return Err(ArgumentSizeTooLarge);
      }
      var metas: seq<CompactMeta> := [];
      for i := 0 to |args.metas|
        invariant |metas| == i && forall k :: 0 <= k < i ==> metas[k] == Compact(args.metas[k])
      {
        metas := metas + [Compact(args.metas[i])];
      }
      assert Payload(args.disc, metas, args.args) == PayloadOf(args);
      var added := queue.AddItemWithId(
        BaseItem(args, kind, clock), Payload(args.disc, metas, args.args), IdFromPos(cfg, args, kind, clock));
      if added.Err? {
        return Err(added.error);
      }
      if !cfg.exempt {
        var cost := if kind.highPriority then VRF_HIGH_PRIORITY_LAMPORTS_COST else VRF_LAMPORTS_COST;
        if payerLamports < cost {
          return Err(InsufficientFunds);
        }
        payerLamports := payerLamports - cost;
        queueLamports := queueLamports + cost;
      }
      r := Ok(added.value);
    }

    method BuildCallback(identity: Bytes32, item: QueueItem, p: Payload, output: Bytes32) returns (ix: Instruction)
      ensures ix == Callback(cfg, identity, item.callbackProgramId, p, output)
    {
      var accounts := [AccountMeta(identity, true, false)];
      for i := 0 to |p.metas|
        invariant |accounts| == i + 1 && accounts[0] == AccountMeta(identity, true, false)
        invariant forall k :: 0 <= k < i ==> accounts[k + 1] == ToAccountMeta(p.metas[k])
      {
        accounts := accounts + [ToAccountMeta(p.metas[i])];
      }
      var data := p.disc;
      data := data + cfg.hash(output);
      data := data + p.args;
      ix := Instruction(item.callbackProgramId, accounts, data);
      assert ix.accounts == Callback(cfg, identity, item.callbackProgramId, p, output).accounts;
    }

    method ProcessProvide(clock: Clock, input: Bytes32, proof: Proof, accounts: ProvideAccounts) returns (r: Result<Instruction>)
      modifies this, queue, queue.acc
      ensures match ProvideRandomness(cfg, old(Data()), clock, input, proof, accounts)
              case Err(error) => r == Err(error)
              case Ok(provided) =>
                var cost := if cfg.exempt then 0 else ItemCost(provided.item);
                if old(queueLamports) < cost then r == Err(InsufficientFunds)
                else if old(oracleLamports) + cost > U64_MAX then r == Err(InvalidArgument)
                else
                  && r == Ok(provided.callback) && Data() == provided.q
                  && queueLamports == old(queueLamports) - cost && oracleLamports == old(oracleLamports) + cost
                  && payerLamports == old(payerLamports)
    {
      hide Remove, ReadPayload, Callback, Live, FindById;
      ghost var q := Data();
      var found := queue.FindItemById(input);
      if found.None? {
        return Err(RandomnessRequestNotFound);
      }
      var (index, item) := found.value;
      if !PayloadReadable(queue.acc[..], item) {
        return Err(Panicked);
      }
      if OracleAmong(cfg, ReadPayload(queue.acc[..], item).metas) {
        return Err(InvalidCallbackAccounts);
      }
      if clock.slot <= item.slot {
        return Err(OracleMustProvideInDifferentSlot);
      }
      if !cfg.verify(input, proof) {
        return Err(InvalidProof);
      }
      var removed := queue.RemoveItem(index);
      if removed.Err? {
        return Err(InvalidQueueIndex);
      }
      var removedItem := removed.value;
      if !PayloadReadable(queue.acc[..], removedItem) {
        return Err(Panicked);
      }
      var payload := ReadPayload(queue.acc[..], removedItem);
      if accounts.callbackProgram != removedItem.callbackProgramId {
        return Err(InvalidAccountData);
      }
      var callback := BuildCallback(accounts.identity, removedItem, payload, proof.output);
      var identityError := IdentityError(cfg, removedItem, accounts);
      if identityError.Some? {
        return Err(identityError.value);
      }
      if !accounts.callbackSucceeds {
        return Err(CallbackFailed);
      }
      if !cfg.exempt {
        var fee := TransferFee(ItemCost(removedItem));
        if fee.Err? {
          return Err(fee.error);
        }
      }
      r := Ok(callback);
    }

    method ProcessPurge(clock: Clock) returns (r: Result<nat>)
      modifies this, queue, queue.acc
      ensures var purge := PurgeExpired(old(Data()), clock);
              var total := if cfg.exempt then 0 else SaturatingTotal(purge.removed);
              if old(queueLamports) < total then r == Err(InsufficientFunds)
              else if old(oracleLamports) + total > U64_MAX then r == Err(InvalidArgument)
              else
                && r == Ok(|purge.removed|) && Data() == purge.q
                && queueLamports == old(queueLamports) - total && oracleLamports == old(oracleLamports) + total
                && payerLamports == old(payerLamports)
    {
      hide RemoveWhere;
      var nowStamp := CreatedAtFrom(clock.time);
      var removed := queue.RemoveItemsMatching(IsExpired(nowStamp));
      var totalCost: u64 := 0;
      for i := 0 to |removed|
        invariant totalCost == SaturatingTotal(removed[..i])
      {
        assert removed[..i + 1][..i] == removed[..i];
        totalCost := SatAdd64(totalCost, ItemCost(removed[i]));
      }
      assert removed[..|removed|] == removed;
      if totalCost > 0 && !cfg.exempt {
        var fee := TransferFee(totalCost);
        if fee.Err? {
          return Err(fee.error);
        }
      }
      r := Ok(|removed|);
    }

    /** Set the flag; no item and no part of the invariant depends on it. */
    method ProcessSetPaused(paused: byte) returns (r: Result<()>)
      modifies queue
      ensures match SetPaused(old(Data()), paused)
              case Err(error) => r == Err(error) && Data() == old(Data())
              case Ok(q) => r == Ok(()) && Data() == q
      ensures Entries(Data()) == old(Entries(Data())) && (old(WellFormed(Data())) ==> WellFormed(Data()))
    {
      if paused > 1 {
        return Err(InvalidInstructionData);
      }
      queue.header := queue.header.(paused := paused);
      r := Ok(());
    }

    /** The delegation gate: scan everything after the header for a non-zero byte. */
    method CheckUnused() returns (r: Result<()>)
      requires queue.acc.Length >= HEADER_SIZE
      ensures r == if Delegable(Data()) then Ok(()) else Err(QueueAlreadyInUse)
    {
      if queue.header.itemCount != 0 {
        return Err(QueueAlreadyInUse);
      }
      for j := HEADER_SIZE to queue.acc.Length
        invariant forall k :: HEADER_SIZE <= k < j ==> queue.acc[k] == 0
      {
        if queue.acc[j] != 0 {
          assert Data().acc[j] != 0;
          return Err(QueueAlreadyInUse);
        }
      }
      r := Ok(());
    }
  }
}
