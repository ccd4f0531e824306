/** The life of one queue on chain: every instruction as a step, with the ledger
    balances and the history of what was issued, fulfilled and purged. */
module QueueLife {
  import opened Bytes
  import opened QueueItems
  import opened QueueSpec
  import opened QueueRemoval
  import opened QueueRequests
  import opened Instructions
  import opened Initialization

  datatype Phase =
    | Absent
    | Growing(size: nat)
    | Open(q: QueueData)
    | Delegated(q: QueueData)

  /** A request as it was made. */
  datatype Issued = Issued(args: RequestArgs, kind: RequestKind, clock: Clock, pos: u32, id: Bytes32)

  /** A callback as it was invoked, with the live request it was built from. */
  datatype Fulfilment = Fulfilment(request: Request, proof: Proof, identity: Bytes32, callback: Instruction)

  /** `reserve` is the queue's balance when it was opened plus what anyone sent it
      since; `refunded` is what closings returned to the oracle; `stored` says whether a
      request was stored since the queue was opened. */
  datatype Life = Life(
    clock: Clock,
    phase: Phase,
    queueLamports: nat,
    oracleLamports: nat,
    otherLamports: nat,
    reserve: nat,
    feesCharged: nat,
    feesPaid: nat,
    refunded: nat,
    stored: bool,
    issued: seq<Issued>,
    fulfilled: seq<Fulfilment>,
    purged: seq<Request>)

  /** `balance` is the queue's balance after the rent top-up or refund. */
  datatype Step =
    | Tick(clock: Clock)
    | Initialize(target: u32, index: byte, registered: bool, balance: nat)
    | MakeRequest(args: RequestArgs, kind: RequestKind)
    | Provide(input: Bytes32, proof: Proof, accounts: ProvideAccounts)
    | Purge
    | Pause(paused: byte)
    | Close
    | Delegate
    | Donate(amount: nat)

  predicate HasQueue(phase: Phase) { phase.Open? || phase.Delegated? }

  /** The request an issued one is stored as. */
  function StoredAs(i: Issued): Request
  {
    NewRequest(i.pos, BaseItem(i.args, i.kind, i.clock).(id := i.id), PayloadOf(i.args))
  }

  /** The live requests, as read from the bytes. */
  function LiveOf(phase: Phase): seq<Request>
  {
    if HasQueue(phase) then LiveRequests(phase.q) else []
  }

  predicate Follows(next: Clock, clock: Clock)
  {
    next.slot >= clock.slot && (next.slot == clock.slot ==> next.time == clock.time)
  }

  /** Initialisation of the account in the given phase. */
  function InitPhase(phase: Phase, target: u32, index: byte, registered: bool): Result<Phase>
  {
    if HasQueue(phase) then Err(AccountAlreadyInitialized)
    else if target > MAX_QUEUE_ACCOUNT_SIZE then Err(QueueSizeTooLarge)
    else
      var size := if phase.Growing? then phase.size else 0;
      if target - size > MAX_EXTRA_BYTES then Ok(Growing(size + MAX_EXTRA_BYTES))
      else if target < DISCRIMINATOR_SIZE then Err(Panicked)
      else if target < DISCRIMINATOR_SIZE + HEADER_SIZE then Err(InvalidAccountData)
      else if !registered then Err(InvalidAccountOwner)
      else Ok(Open(Fresh(target, index)))
  }

  function NextInitialize(s: Life, target: u32, index: byte, registered: bool, balance: nat): Life
  {
    match InitPhase(s.phase, target, index, registered)
    case Err(_) => s
    case Ok(phase) =>
      if balance > s.queueLamports + s.otherLamports then s
      else s.(phase := phase, queueLamports := balance, reserve := balance,
              otherLamports := s.queueLamports + s.otherLamports - balance, stored := false)
  }

  function NextRequest(cfg: Config, s: Life, args: RequestArgs, kind: RequestKind): Life
  {
    if !s.phase.Open? || |s.phase.q.acc| >= 0x1_0000_0000 then s
    else
      match RequestRandomness(cfg, s.phase.q, s.clock, args, kind)
      case Err(_) => s
      case Ok(added) =>
        var cost := if cfg.exempt then 0 else ItemCost(BaseItem(args, kind, s.clock));
        if s.otherLamports < cost || added.pos > U32_MAX then s
        else
          var id := IdFromPos(cfg, args, kind, s.clock)(added.pos);
          s.(phase := Open(added.q), stored := true,
             queueLamports := s.queueLamports + cost, otherLamports := s.otherLamports - cost,
             feesCharged := s.feesCharged + cost,
             issued := s.issued + [Issued(args, kind, s.clock, added.pos, id)])
  }

  /** `transfer_fee`: move the fee from the queue to the oracle, with checks. */
  function PayFee(s: Life, amount: nat): Result<Life>
  {
    if s.queueLamports < amount then Err(InsufficientFunds)
    else if s.oracleLamports + amount > U64_MAX then Err(InvalidArgument)
    else Ok(s.(queueLamports := s.queueLamports - amount, oracleLamports := s.oracleLamports + amount,
               feesPaid := s.feesPaid + amount))
  }

  function NextProvide(cfg: Config, s: Life, input: Bytes32, proof: Proof, accounts: ProvideAccounts): Life
  {
    if !s.phase.Open? then s
    else
      match ProvideRandomness(cfg, s.phase.q, s.clock, input, proof, accounts)
      case Err(_) => s
      case Ok(provided) =>
        match PayFee(s, if cfg.exempt then 0 else ItemCost(provided.item))
        case Err(_) => s
        case Ok(paid) =>
          if provided.index >= |LiveRequests(s.phase.q)| then s
          else
            var request := LiveRequests(s.phase.q)[provided.index];
            paid.(phase := Open(provided.q),
                  fulfilled := s.fulfilled + [Fulfilment(request, proof, accounts.identity, provided.callback)])
  }

  /** What a purge at this clock removes. */
  function ExpiredNow(clock: Clock): Entry -> bool { OnItem(IsExpired(Expiry.CreatedAtFrom(clock.time))) }

  /** The live requests a purge at this clock removes. */
  function ExpiredRequests(q: QueueData, clock: Clock): seq<Request>
  {
    Requests(q.acc, Filter(Live(q), ExpiredNow(clock)))
  }

  function NextPurge(cfg: Config, s: Life): Life
  {
    if !s.phase.Open? then s
    else
      var result := PurgeExpired(s.phase.q, s.clock);
      match PayFee(s, if cfg.exempt then 0 else SaturatingTotal(result.removed))
      case Err(_) => s
      case Ok(paid) =>
        paid.(phase := Open(result.q), purged := s.purged + ExpiredRequests(s.phase.q, s.clock))
  }

  function NextPause(s: Life, paused: byte): Life
  {
    if !s.phase.Open? then s
    else
      match SetPaused(s.phase.q, paused)
      case Err(_) => s
      case Ok(q) => s.(phase := Open(q))
  }

  function NextClose(s: Life): Life
  {
    if s.phase.Open? && Closable(s.phase.q) then
      s.(phase := Absent, oracleLamports := s.oracleLamports + s.queueLamports,
         refunded := s.refunded + s.queueLamports, queueLamports := 0, reserve := 0, stored := false)
    else s
  }

  function NextDelegate(s: Life): Life
  {
    if s.phase.Open? && |s.phase.q.acc| >= HEADER_SIZE && Delegable(s.phase.q)
    then s.(phase := Delegated(s.phase.q)) else s
  }

  function NextDonate(s: Life, amount: nat): Life
  {
    if amount > s.otherLamports then s
    else s.(queueLamports := s.queueLamports + amount, reserve := s.reserve + amount,
            otherLamports := s.otherLamports - amount)
  }

  /** One transaction, or the clock moving on.  A failed instruction changes nothing. */
  function Next(cfg: Config, s: Life, step: Step): Life
  {
    match step
    case Tick(clock) => if Follows(clock, s.clock) then s.(clock := clock) else s
    case Initialize(target, index, registered, balance) => NextInitialize(s, target, index, registered, balance)
    case MakeRequest(args, kind) => NextRequest(cfg, s, args, kind)
    case Provide(input, proof, accounts) => NextProvide(cfg, s, input, proof, accounts)
    case Purge => NextPurge(cfg, s)
    case Pause(paused) => NextPause(s, paused)
    case Close => NextClose(s)
    case Delegate => NextDelegate(s)
    case Donate(amount) => NextDonate(s, amount)
  }

  function Run(cfg: Config, s: Life, steps: seq<Step>): Life
  {
    if steps == [] then s else Next(cfg, Run(cfg, s, steps[..|steps| - 1]), steps[|steps| - 1])
  }

  /** Before anything happened: no queue, no history, some lamports in the world. */
  predicate Initial(s: Life)
  {
    && s.phase.Absent? && s.issued == [] && s.fulfilled == [] && s.purged == [] && !s.stored
    && s.feesCharged == 0 && s.feesPaid == 0 && s.refunded == 0 && s.reserve == s.queueLamports
    && s.queueLamports + s.oracleLamports + s.otherLamports <= U64_MAX
  }

  // ------------------------------------------- the account behind each phase

  /** The raw account a phase stands for, while the program owns it. */
  function AccountOf(phase: Phase): RawAccount
    requires HasQueue(phase) ==> |phase.q.acc| >= HEADER_SIZE
  {
    match phase
    case Absent => RawAccount(false, [])
    case Growing(size) => RawAccount(true, Zeros(size))
    case Open(q) => RawAccount(true, Store(q))
    case Delegated(q) => RawAccount(false, Store(q))
  }

  /** Initialisation by phase is initialisation of the account's bytes. */
  lemma InitPhaseAgrees(phase: Phase, target: u32, index: byte, registered: bool)
    requires HasQueue(phase) ==> |phase.q.acc| >= HEADER_SIZE
    ensures InitializeQueue(AccountOf(phase), target, index, registered)
            == match InitPhase(phase, target, index, registered)
               case Err(error) => Err(error)
               case Ok(next) => Ok((AccountOf(next), next.Open?))
  {
    hide EncodeHeader, DecodeHeader;
    var a := AccountOf(phase);
    if HasQueue(phase) {
      assert Store(phase.q)[0] == 3;
      assert a.data[0] == 3;
    } else if target <= MAX_QUEUE_ACCOUNT_SIZE {
      var size := |a.data|;
      if target - size > MAX_EXTRA_BYTES {
        assert Resized(a.data, size + MAX_EXTRA_BYTES) == Zeros(size + MAX_EXTRA_BYTES);
      } else if target >= DISCRIMINATOR_SIZE + HEADER_SIZE {
        FinalisingCall(a, target, index);
      } else if target >= DISCRIMINATOR_SIZE {
        var data := QueueDiscriminator() + Resized(a.data, target)[DISCRIMINATOR_SIZE..];
        assert data[..DISCRIMINATOR_SIZE] == QueueDiscriminator();
      }
    }
  }
}
