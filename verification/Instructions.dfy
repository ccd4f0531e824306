/** The program's instructions on an open queue, as functions of the queue data,
    the clock and the instruction's inputs.  Foreign code is a parameter: the hash,
    the proof verifier and PDA derivation in Config, the callback's outcome in the
    accounts.  An error means the transaction is rolled back. */
module Instructions {
  import opened Bytes
  import opened QueueItems
  import opened QueueSpec
  import opened RequestId
  import opened Expiry

  const VRF_HIGH_PRIORITY_LAMPORTS_COST: nat := 800000
  const VRF_LAMPORTS_COST: nat := 500000
  const MAX_DISCRIMINATOR_LEN: nat := 8

  datatype Clock = Clock(slot: u64, time: i64)

  datatype Proof = Proof(output: Bytes32, commitmentBase: Bytes32, commitmentHash: Bytes32, scalar: Bytes32)

  /** What is fixed for one queue: the oracle's identity, whether the queue is fee
      exempt, the foreign functions, the program loaders and the programs a callback with
      the global identity may be given. `verify` is the on-chain verifier applied
      to the oracle's registered key. */
  datatype Config = Config(
    oracle: Bytes32,
    exempt: bool,
    hash: seq<byte> -> Bytes32,
    verify: (Bytes32, Proof) -> bool,
    scopedAddress: (Bytes32, byte) -> Option<Bytes32>,
    globalIdentity: Bytes32,
    loaders: set<Bytes32>,
    allowedPrograms: set<Bytes32>)

  // ------------------------------------------------------- request_randomness

  datatype SerializableMeta = SerializableMeta(pubkey: Bytes32, isSigner: bool, isWritable: bool)

  datatype RequestArgs = RequestArgs(
    callerSeed: Bytes32, programId: Bytes32, disc: seq<byte>, metas: seq<SerializableMeta>, args: seq<byte>)

  /** Which of the four request instructions it is, the scoped identity's bump and
      the slot hash read from the sysvar. */
  datatype RequestKind = RequestKind(highPriority: bool, scoped: bool, scopedBump: byte, slothash: Bytes32)

  function Compact(m: SerializableMeta): CompactMeta
  {
    CompactMeta(m.pubkey, if m.isWritable then 1 else 0)
  }

  function PayloadOf(a: RequestArgs): Payload
  {
    Payload(a.disc, seq(|a.metas|, i requires 0 <= i < |a.metas| => Compact(a.metas[i])), a.args)
  }

  function SeedOf(a: RequestArgs, kind: RequestKind, clock: Clock, pos: u32): Seed
  {
    Seed(a.callerSeed, clock.slot, kind.slothash, a.disc, a.programId, clock.time, pos)
  }

  function IdFromPos(cfg: Config, a: RequestArgs, kind: RequestKind, clock: Clock): u32 -> Bytes32
  {
    (pos: u32) => cfg.hash(Preimage(SeedOf(a, kind, clock, pos)))
  }

  function BaseItem(a: RequestArgs, kind: RequestKind, clock: Clock): QueueItem
  {
    QueueItem(
      clock.slot, seq(32, i => 0), a.programId, 0, 0, 0, 0, 0, 0,
      if kind.highPriority then 1 else 0, 1,
      if kind.scoped then 1 else 0, if kind.scoped then kind.scopedBump else 0,
      CreatedAtFrom(clock.time))
  }

  function RequestRandomness(cfg: Config, q: QueueData, clock: Clock, a: RequestArgs, kind: RequestKind): Result<Added>
    requires |q.acc| < 0x1_0000_0000
  {
    if q.header.paused != 0 then Err(QueuePaused)
    else if |a.disc| > MAX_DISCRIMINATOR_LEN then Err(ArgumentSizeTooLarge)
    else AddItem(q, BaseItem(a, kind, clock), PayloadOf(a), IdFromPos(cfg, a, kind, clock))
  }

  // ------------------------------------------------------- provide_randomness

  datatype AccountMeta = AccountMeta(pubkey: Bytes32, isSigner: bool, isWritable: bool)

  datatype Instruction = Instruction(programId: Bytes32, accounts: seq<AccountMeta>, data: seq<byte>)

  datatype AccountInfo = AccountInfo(key: Bytes32, owner: Bytes32, executable: bool)

  /** The accounts passed in, with the remaining ones, and whether the invoked callback
      succeeds. */
  datatype ProvideAccounts = ProvideAccounts(
    callbackProgram: Bytes32, identity: Bytes32, remaining: seq<AccountInfo>, callbackSucceeds: bool)

  predicate IsProgram(cfg: Config, a: AccountInfo) { a.executable || a.owner in cfg.loaders }

  /** `has_disallowed_executable_callback_account`. */
  predicate HasDisallowed(cfg: Config, accounts: seq<AccountInfo>)
  {
    exists i :: 0 <= i < |accounts| && IsProgram(cfg, accounts[i]) && accounts[i].key !in cfg.allowedPrograms
  }

  datatype Provided = Provided(q: QueueData, index: nat, item: QueueItem, callback: Instruction)

  function ToAccountMeta(m: CompactMeta): AccountMeta
  {
    AccountMeta(m.pubkey, false, m.isWritable != 0)
  }

  function Callback(cfg: Config, identity: Bytes32, programId: Bytes32, p: Payload, output: Bytes32): Instruction
  {
    Instruction(
      programId,
      [AccountMeta(identity, true, false)]
        + seq(|p.metas|, i requires 0 <= i < |p.metas| => ToAccountMeta(p.metas[i])),
      p.disc + cfg.hash(output) + p.args)
  }

  /** Which identity must sign the callback. */
  function IdentityError(cfg: Config, item: QueueItem, accounts: ProvideAccounts): Option<Error>
  {
    if item.identityMode == 1 then
      match cfg.scopedAddress(item.callbackProgramId, item.identityBump)
      case None => Some(InvalidSeeds)
      case Some(scoped) => if accounts.identity != scoped then Some(InvalidAccountData) else None
    else if HasDisallowed(cfg, accounts.remaining) then Some(InvalidCallbackAccounts)
    else if accounts.identity != cfg.globalIdentity then Some(InvalidAccountData)
    else None
  }

  predicate OracleAmong(cfg: Config, metas: seq<CompactMeta>)
  {
    exists i :: 0 <= i < |metas| && metas[i].pubkey == cfg.oracle
  }

  /** Build and invoke the callback from what is left in the bytes after removal. */
  function InvokeCallback(cfg: Config, index: nat, removed: Removed, accounts: ProvideAccounts, output: Bytes32): Result<Provided>
  {
    var item := removed.item;
    if !PayloadReadable(removed.q.acc, item) then Err(Panicked)
    else if accounts.callbackProgram != item.callbackProgramId then Err(InvalidAccountData)
    else
      var callback := Callback(cfg, accounts.identity, item.callbackProgramId, ReadPayload(removed.q.acc, item), output);
      match IdentityError(cfg, item, accounts)
      case Some(error) => Err(error)
      case None =>
        if !accounts.callbackSucceeds then Err(CallbackFailed)
        else Ok(Provided(removed.q, index, item, callback))
  }

  function ProvideRandomness(
    cfg: Config, q: QueueData, clock: Clock, input: Bytes32, proof: Proof, accounts: ProvideAccounts): Result<Provided>
  {
    match FindById(Live(q), input)
    case None => Err(RandomnessRequestNotFound)
    case Some((index, item)) =>
      if !PayloadReadable(q.acc, item) then Err(Panicked)
      else if OracleAmong(cfg, ReadPayload(q.acc, item).metas) then Err(InvalidCallbackAccounts)
      else if clock.slot <= item.slot then Err(OracleMustProvideInDifferentSlot)
      else if !cfg.verify(input, proof) then Err(InvalidProof)
      else
        match Remove(q, index)
        case Err(error) => Err(error)
        case Ok(removed) => InvokeCallback(cfg, index, removed, accounts, proof.output)
  }

  // --------------------------------------------------- purge_expired_requests

  function IsExpired(nowStamp: u16): QueueItem -> bool
  {
    (it: QueueItem) => Expired(it.createdAt, nowStamp)
  }

  function PurgeExpired(q: QueueData, clock: Clock): Purged
  {
    RemoveMatching(q, IsExpired(CreatedAtFrom(clock.time)))
  }

  // -------------------------------------------------------------------- fees

  function ItemCost(it: QueueItem): nat
  {
    if it.priorityRequest == 1 then VRF_HIGH_PRIORITY_LAMPORTS_COST else VRF_LAMPORTS_COST
  }

  function SatAdd64(x: u64, y: nat): u64 { if x + y <= U64_MAX then x + y else U64_MAX }

  /** The purge's running total, with `saturating_add`. */
  function SaturatingTotal(items: seq<QueueItem>): u64
  {
    if items == [] then 0
    else SatAdd64(SaturatingTotal(items[..|items| - 1]), ItemCost(items[|items| - 1]))
  }

  function TotalCost(items: seq<QueueItem>): nat
  {
    if items == [] then 0 else TotalCost(items[..|items| - 1]) + ItemCost(items[|items| - 1])
  }

  lemma {:induction false} TotalCostBound(items: seq<QueueItem>)
    ensures TotalCost(items) <= |items| * VRF_HIGH_PRIORITY_LAMPORTS_COST
  {
    if items != [] {
      TotalCostBound(items[..|items| - 1]);
    }
  }

  /** At any size the account may have, the purge's total does not saturate. */
  lemma {:induction false} TotalNeverSaturates(items: seq<QueueItem>)
    requires |items| <= 5461
    ensures SaturatingTotal(items) == TotalCost(items)
  {
    if items != [] {
      TotalNeverSaturates(items[..|items| - 1]);
      TotalCostBound(items);
    }
  }

  // ------------------------------------------------ pause, close and delegate

  function SetPaused(q: QueueData, paused: byte): Result<QueueData>
  {
    if paused > 1 then Err(InvalidInstructionData)
    else Ok(q.(header := q.header.(paused := paused)))
  }

  /** The gate of `close_oracle_queue`. */
  predicate Closable(q: QueueData) { q.header.itemCount == 0 }

  /** The gate of `delegate_oracle_queue`: no live item and nothing but zeros after
      the header. */
  predicate Delegable(q: QueueData)
    requires |q.acc| >= HEADER_SIZE
  {
    q.header.itemCount == 0 && forall j :: HEADER_SIZE <= j < |q.acc| ==> q.acc[j] == 0
  }
}
