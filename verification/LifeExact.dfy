/** Exactly what each instruction does to a queue in any run: when it goes through,
    which error it gives otherwise, and what it costs, all in numbers. */
module LifeExact {
  import opened Bytes
  import opened QueueItems
  import opened QueueSpec
  import opened QueueScan
  import opened QueueTiling
  import opened QueueRemoval
  import opened QueueInvariant
  import opened QueueInsertion
  import opened QueueRequests
  import opened Expiry
  import opened Instructions
  import opened Initialization
  import opened QueueLife
  import opened LifeEffects
  import opened LifeHistory
  import opened LifeFees
  import LifeUse

  // ------------------------------------------------------------------ request

  /** Bytes a request takes before alignment. */
  function Size(a: RequestArgs): nat { 96 + |a.disc| + 33 * |a.metas| + |a.args| }

  function RoundUp8(x: nat): nat { if x % 8 == 0 then x else x + 8 - x % 8 }

  lemma RoundUp8Is(x: nat)
    ensures AlignUp(x) == RoundUp8(x)
  {
  }

  lemma SizeIs(a: RequestArgs)
    ensures TotalNeeded(PayloadOf(a)) == Size(a) && RequiredSpan(PayloadOf(a)) == RoundUp8(Size(a))
    ensures WithinLimits(PayloadOf(a)) <==> |a.metas| <= 25 && |a.args| <= 512
    ensures |PayloadOf(a).disc| == |a.disc|
  {
    hide EncodeMetas, AlignUp, RoundUp8;
    RoundUp8Is(Size(a));
  }

  /** A free item takes exactly the request's room, or there is room after the last. */
  ghost predicate HasRoom(q: QueueData, a: RequestArgs)
  {
    || (exists i :: 0 <= i < |Entries(q)| && Entries(q)[i].item.used != 1
                 && Entries(q)[i].next - Entries(q)[i].pos == RoundUp8(Size(a)))
    || RoundUp8(q.header.cursor) + Size(a) <= |q.acc|
  }

  /** The request is one the queue takes. */
  ghost predicate Acceptable(q: QueueData, a: RequestArgs)
  {
    q.header.paused == 0 && |a.disc| <= 8 && |a.metas| <= 25 && |a.args| <= 512 && HasRoom(q, a)
  }

  /** Which requests are stored, and the error of the others. */
  lemma StoresExactly(cfg: Config, q: QueueData, clock: Clock, a: RequestArgs, kind: RequestKind)
    requires WellFormed(q)
    ensures |q.acc| < 0x1_0000_0000
    ensures var r := RequestRandomness(cfg, q, clock, a, kind);
            && (r.Ok? <==> Acceptable(q, a))
            && (r.Err? ==> r.error == if q.header.paused != 0 then QueuePaused
                                      else if |a.disc| > 8 || |a.metas| > 25 || |a.args| > 512 then ArgumentSizeTooLarge
                                      else AccountDataTooSmall)
            && (r.Ok? ==> r.value.pos <= U32_MAX)
  {
    hide WellFormed, Entries, AddItem, AlignUp, RoundUp8, PayloadOf, BaseItem, IdFromPos, Inserted, PlacedAt;
    hide WithinLimits, TotalNeeded, RequiredSpan, Size;
    WellFormedSize(q);
    SizeIs(a);
    RoundUp8Is(q.header.cursor);
    InsertionExact(q, BaseItem(a, kind, clock), PayloadOf(a), IdFromPos(cfg, a, kind, clock));
  }

  /** What a request of this kind costs. */
  function Price(cfg: Config, kind: RequestKind): nat
  {
    if cfg.exempt then 0 else if kind.highPriority then 800000 else 500000
  }

  /** In every run a request is stored exactly on an open, unpaused queue with room for
      it, within the limits, when the payer holds the price; the payer then pays the
      queue that price, and the request is live as it was made. */
  lemma RequestExactly(cfg: Config, s: Life, steps: seq<Step>, a: RequestArgs, kind: RequestKind)
    requires Initial(s)
    ensures var t := Run(cfg, s, steps);
            var t' := Run(cfg, s, steps + [MakeRequest(a, kind)]);
            && (t' != t <==> t.phase.Open? && Acceptable(t.phase.q, a) && t.otherLamports >= Price(cfg, kind))
            && (t' != t ==>
                && |t'.issued| == |t.issued| + 1 && t'.issued[..|t.issued|] == t.issued
                && t'.issued[|t.issued|].args == a && t'.issued[|t.issued|].kind == kind
                && t'.issued[|t.issued|].clock == t.clock
                && multiset(LiveOf(t'.phase)) == multiset(LiveOf(t.phase)) + multiset{StoredAs(t'.issued[|t.issued|])}
                && t'.queueLamports == t.queueLamports + Price(cfg, kind)
                && t'.otherLamports == t.otherLamports - Price(cfg, kind)
                && t'.oracleLamports == t.oracleLamports)
  {
    SoundRun(cfg, s, steps);
    LifeUse.RunAppend(cfg, s, steps, MakeRequest(a, kind));
    hide Run, Initial, Sound, NextRequest, LiveOf, StoredAs, Acceptable;
    var t := Run(cfg, s, steps);
    var t' := NextRequest(cfg, t, a, kind);
    RequestGoesThrough(cfg, t, a, kind);
    var k := RequestEffect(cfg, t, a, kind);
    if t' != t { MultisetInsert(LiveOf(t.phase), k, StoredAs(t'.issued[|t.issued|])); }
  }

  lemma RequestGoesThrough(cfg: Config, t: Life, a: RequestArgs, kind: RequestKind)
    requires Sound(t)
    ensures var t' := NextRequest(cfg, t, a, kind);
            && (t' != t <==> t.phase.Open? && Acceptable(t.phase.q, a) && t.otherLamports >= Price(cfg, kind))
            && (t' != t ==>
                && t'.queueLamports == t.queueLamports + Price(cfg, kind)
                && t'.otherLamports == t.otherLamports - Price(cfg, kind)
                && t'.oracleLamports == t.oracleLamports)
  {
    hide WellFormed, RequestRandomness, Acceptable, IdFromPos;
    if t.phase.Open? { StoresExactly(cfg, t.phase.q, t.clock, a, kind); }
  }

  // ------------------------------------------------------------------- the id

  /** In every run the id of a request is the hash of the caller's seed, the slot, the
      slot hash, the discriminator, the program, the time and the position it was stored
      at, in that order; no two requests are hashed from the same bytes. */
  lemma IdsAreHashes(cfg: Config, s: Life, steps: seq<Step>, i: nat)
    requires Initial(s) && i < |Run(cfg, s, steps).issued|
    ensures var r := Run(cfg, s, steps).issued[i];
            r.id == cfg.hash(
              r.args.callerSeed + LE(r.clock.slot, 8) + r.kind.slothash + r.args.disc + r.args.programId
              + LE(r.clock.time % 0x1_0000_0000_0000_0000, 8) + LE(r.pos, 4))
  {
    HistoryRun(cfg, s, steps);
    hide Run, LE, Sound, Conserved, AllFulfil, Initial, Pinned;
    var r := Run(cfg, s, steps).issued[i];
    assert r.id == cfg.hash(RequestId.Preimage(SeedOfIssued(r)));
    PreimageIs(SeedOfIssued(r));
  }

  lemma PreimageIs(d: RequestId.Seed)
    ensures RequestId.Preimage(d)
            == d.callerSeed + LE(d.slot, 8) + d.slothash + d.disc + d.programId
               + LE(d.time % 0x1_0000_0000_0000_0000, 8) + LE(d.pos, 4)
  {
    hide LE;
    var time := LE(d.time % 0x1_0000_0000_0000_0000, 8);
    assert I64Bytes(d.time) == time;
    hide I64Bytes;
    var all := d.callerSeed + LE(d.slot, 8) + d.slothash + d.disc + d.programId + time + LE(d.pos, 4);
    assert RequestId.Front(d) == d.callerSeed + LE(d.slot, 8) + d.slothash;
    assert RequestId.Back(d) == d.programId + time + LE(d.pos, 4);
    assert RequestId.Preimage(d) == all;
  }

  // -------------------------------------------------------------------- fees

  function HighIssued(issued: seq<Issued>): nat
  {
    if issued == [] then 0
    else HighIssued(issued[..|issued| - 1]) + if issued[|issued| - 1].kind.highPriority then 1 else 0
  }

  function High(rs: seq<Request>): nat
  {
    if rs == [] then 0 else High(rs[..|rs| - 1]) + if rs[|rs| - 1].item.priorityRequest == 1 then 1 else 0
  }

  lemma {:induction false} SumCostIs(rs: seq<Request>)
    ensures High(rs) <= |rs| && SumCost(rs) == 800000 * High(rs) + 500000 * (|rs| - High(rs))
  {
    if rs != [] { SumCostIs(rs[..|rs| - 1]); }
  }

  lemma {:induction false} HighIssuedIs(issued: seq<Issued>)
    ensures High(IssuedRequests(issued)) == HighIssued(issued) <= |issued|
  {
    if issued != [] {
      var n := |issued| - 1;
      HighIssuedIs(issued[..n]);
      PriorityIs(issued[n]);
      hide StoredAs;
      assert IssuedRequests(issued)[..n] == IssuedRequests(issued[..n]);
    }
  }

  /** A request is stored with the priority of its kind and the stamp of its time. */
  lemma PriorityIs(i: Issued)
    ensures StoredAs(i).item.priorityRequest == if i.kind.highPriority then 1 else 0
    ensures i.clock.time >= 0 ==> StoredAs(i).item.createdAt == i.clock.time / 4 % 0x1_0000
  {
  }

  /** In every run of a queue that is not exempt: 800000 lamports were charged for each
      high-priority request and 500000 for each other, and the same was paid to the
      oracle for each that was fulfilled or purged. An exempt queue moves nothing. */
  lemma FeesByKind(cfg: Config, s: Life, steps: seq<Step>)
    requires Initial(s)
    ensures var t := Run(cfg, s, steps);
            var settled := FulfilledRequests(t.fulfilled) + t.purged;
            && HighIssued(t.issued) <= |t.issued| && High(settled) <= |settled|
            && (cfg.exempt ==> t.feesCharged == 0 && t.oracleLamports == s.oracleLamports + t.refunded)
            && (!cfg.exempt ==>
                && t.feesCharged == 800000 * HighIssued(t.issued) + 500000 * (|t.issued| - HighIssued(t.issued))
                && t.oracleLamports == s.oracleLamports + t.refunded
                   + 800000 * High(settled) + 500000 * (|settled| - High(settled)))
  {
    FeeConservation(cfg, s, steps);
    hide Run, Initial, SumCost, High, HighIssued, FulfilledRequests, IssuedRequests, LiveOf;
    var t := Run(cfg, s, steps);
    SumCostIs(IssuedRequests(t.issued));
    HighIssuedIs(t.issued);
    SumCostIs(FulfilledRequests(t.fulfilled) + t.purged);
    SumCostConcat(FulfilledRequests(t.fulfilled), t.purged);
  }

  // ------------------------------------------------------------------- purge

  /** A request's age in stamps of four seconds, which wrap at 65536. */
  function Age(now: int, r: Request): int { (now / 4 - r.item.createdAt) % 0x1_0000 }

  /** What a purge of t leaves and takes: the requests younger than 31 stamps stay live,
      the others are recorded as purged. */
  ghost predicate PurgedByAge(t: Life, t': Life)
  {
    && t'.phase.Open?
    && (forall r :: r in LiveOf(t'.phase) <==> r in LiveOf(t.phase) && Age(t.clock.time, r) < 31)
    && |t.purged| <= |t'.purged| && t'.purged[..|t.purged|] == t.purged
    && (forall r :: r in t'.purged[|t.purged|..] <==> r in LiveOf(t.phase) && Age(t.clock.time, r) >= 31)
  }

  /** In every run a purge leaves a live request exactly if it is less than 31 stamps
      old, and takes all the others off. */
  lemma PurgeExactly(cfg: Config, s: Life, steps: seq<Step>)
    requires Initial(s) && Run(cfg, s, steps).phase.Open? && Run(cfg, s, steps).clock.time >= 0
    ensures PurgedByAge(Run(cfg, s, steps), Run(cfg, s, steps + [Purge]))
  {
    hide PurgedByAge, Initial, Sound, Solvent, NextPurge, Run;
    SoundRun(cfg, s, steps);
    FeeConservation(cfg, s, steps);
    LifeUse.RunAppend(cfg, s, steps, Purge);
    PurgeSplits(cfg, s, Run(cfg, s, steps));
  }

  lemma PurgeSplits(cfg: Config, start: Life, t: Life)
    requires Sound(t) && Solvent(cfg, t, start) && t.phase.Open? && t.clock.time >= 0
    ensures PurgedByAge(t, NextPurge(cfg, t))
  {
    hide WellFormed, Solvent, NextPurge, PurgeExpired, ExpiredRequests, LiveRequests, Age;
    PurgePayable(cfg, t, start);
    forall r ensures r in LiveRequests(PurgeExpired(t.phase.q, t.clock).q)
                     <==> r in LiveRequests(t.phase.q) && Age(t.clock.time, r) < 31
    {
      PurgeKeeps(t.phase.q, t.clock, r);
    }
    forall r ensures r in ExpiredRequests(t.phase.q, t.clock)
                     <==> r in LiveRequests(t.phase.q) && Age(t.clock.time, r) >= 31
    {
      PurgeTakes(t.phase.q, t.clock, r);
    }
  }

  lemma PurgeKeeps(q: QueueData, clock: Clock, r: Request)
    requires WellFormed(q) && clock.time >= 0
    ensures r in LiveRequests(PurgeExpired(q, clock).q) <==> r in LiveRequests(q) && Age(clock.time, r) < 31
  {
    hide WellFormed, Live, Filter, RemoveWhere, Expired;
    RequestsAfterRemoveWhere(q, ExpiredNow(clock));
    PickedRequests(q.acc, Live(q), Not(ExpiredNow(clock)),
                   (it: QueueItem) => !Expired(it.createdAt, CreatedAtFrom(clock.time)), r);
    ExpiredIs(clock.time, r.item.createdAt);
  }

  lemma PurgeTakes(q: QueueData, clock: Clock, r: Request)
    requires clock.time >= 0
    ensures r in ExpiredRequests(q, clock) <==> r in LiveRequests(q) && Age(clock.time, r) >= 31
  {
    hide Live, Filter, Expired;
    PickedRequests(q.acc, Live(q), ExpiredNow(clock),
                   (it: QueueItem) => Expired(it.createdAt, CreatedAtFrom(clock.time)), r);
    ExpiredIs(clock.time, r.item.createdAt);
  }

  lemma {:induction false} PickedRequests(acc: seq<byte>, es: seq<Entry>, w: Entry -> bool, p: QueueItem -> bool, r: Request)
    requires forall e :: w(e) == p(e.item)
    ensures r in Requests(acc, Filter(es, w)) <==> r in Requests(acc, es) && p(r.item)
  {
    if es != [] {
      var before, last := es[..|es| - 1], Last(es);
      PickedRequests(acc, before, w, p, r);
      RequestPos(acc, last);
      RequestsAppend(acc, before, last);
      RequestsAppend(acc, Filter(before, w), last);
      assert es == before + [last];
      assert Filter(before, w) + [] == Filter(before, w);
    }
  }

  lemma RequestsAppend(acc: seq<byte>, es: seq<Entry>, e: Entry)
    ensures Requests(acc, es + [e]) == Requests(acc, es) + [RequestOf(acc, e)]
  {
  }

  lemma ExpiredIs(now: i64, createdAt: u16)
    requires now >= 0
    ensures Expired(createdAt, CreatedAtFrom(now)) <==> (now / 4 - createdAt) % 0x1_0000 >= 31
  {
    SubMod(now / 4, createdAt);
  }

  lemma SubMod(a: int, b: int)
    ensures (a % 0x1_0000 - b) % 0x1_0000 == (a - b) % 0x1_0000
  {
    var k := a / 0x1_0000;
    assert a - b == (a % 0x1_0000 - b) + k * 0x1_0000;
  }

  // ------------------------------------------------- pause, close and delegate

  /** In every run pausing writes exactly the flag given, 0 or 1, of an open queue, and
      changes nothing else; any other value is refused. */
  lemma PauseExactly(cfg: Config, s: Life, steps: seq<Step>, paused: byte)
    ensures var t := Run(cfg, s, steps);
            var t' := Run(cfg, s, steps + [Pause(paused)]);
            if t.phase.Open? && paused <= 1
            then && t' == t.(phase := t'.phase) && t'.phase.Open? && t'.phase.q.acc == t.phase.q.acc
                 && t'.phase.q.header.paused == paused
                 && t'.phase.q.header.itemCount == t.phase.q.header.itemCount
                 && t'.phase.q.header.cursor == t.phase.q.header.cursor
                 && t'.phase.q.header.index == t.phase.q.header.index
            else t' == t
  {
    LifeUse.RunAppend(cfg, s, steps, Pause(paused));
    hide Run;
  }

  /** Closing goes through exactly on an open queue without live requests; the whole
      balance, which is then the reserve alone, goes to the oracle. */
  ghost predicate ClosedExactly(t: Life, t': Life)
  {
    && (t' != t <==> t.phase.Open? && LiveOf(t.phase) == [])
    && (t' != t ==>
        && t'.phase.Absent? && t.queueLamports == t.reserve && t'.queueLamports == 0
        && t'.oracleLamports == t.oracleLamports + t.reserve && t'.otherLamports == t.otherLamports
        && t'.refunded == t.refunded + t.reserve && t'.issued == t.issued)
  }

  lemma CloseNow(cfg: Config, start: Life, t: Life)
    requires Sound(t) && Solvent(cfg, t, start)
    ensures ClosedExactly(t, NextClose(t))
  {
    hide WellFormed, IssuedRequests, FulfilledRequests, LiveRequests;
    if t.phase.Open? { ClosableIsEmpty(t.phase.q); }
  }

  /** So it is in every run. */
  lemma CloseExactly(cfg: Config, s: Life, steps: seq<Step>)
    requires Initial(s)
    ensures ClosedExactly(Run(cfg, s, steps), Run(cfg, s, steps + [Close]))
  {
    hide Run, Initial, Sound, Solvent, ClosedExactly, NextClose;
    SoundRun(cfg, s, steps);
    FeeConservation(cfg, s, steps);
    LifeUse.RunAppend(cfg, s, steps, Close);
    CloseNow(cfg, s, Run(cfg, s, steps));
  }

  /** In every run delegation succeeds exactly on an open queue in which nothing was
      stored since it was initialised, and leaves its bytes as they are. */
  lemma DelegateExactly(cfg: Config, s: Life, steps: seq<Step>)
    requires Initial(s)
    ensures var t := Run(cfg, s, steps);
            var t' := Run(cfg, s, steps + [Delegate]);
            if t.phase.Open? && !t.stored then t' == t.(phase := Delegated(t.phase.q)) else t' == t
  {
    LifeUse.RunAppend(cfg, s, steps, Delegate);
    var t := Run(cfg, s, steps);
    if t.phase.Open? { LifeUse.DelegationExact(cfg, s, steps); }
    hide Run, Initial, Delegable;
  }

  // ------------------------------------------------------------ initialisation

  /** In every run: an account without a queue grows by 10240 bytes while the target is
      further away, and otherwise becomes an empty, zeroed, unpaused queue of the target
      size with the given index, if its oracle is registered and the target is 20 bytes to
      512 KiB; the rent moves between the payer and the account and nothing else changes. */
  lemma OpensExactly(cfg: Config, s: Life, steps: seq<Step>, target: u32, index: byte, registered: bool, balance: nat)
    ensures var t := Run(cfg, s, steps);
            var t' := Run(cfg, s, steps + [Initialize(target, index, registered, balance)]);
            var size := if t.phase.Growing? then t.phase.size else 0;
            && (t' != t <==>
                && !t.phase.Open? && !t.phase.Delegated? && target <= 524288
                && (target > size + 10240 || (20 <= target && registered))
                && balance <= t.queueLamports + t.otherLamports)
            && (t' != t && target > size + 10240 ==> t'.phase == Growing(size + 10240))
            && (t' != t && target <= size + 10240 ==>
                && t'.phase.Open? && t'.phase.q.header == Header(0, 16, index, 0, (0, 0)) && !t'.stored
                && |t'.phase.q.acc| == target - 8
                && forall j :: 0 <= j < target - 8 ==> t'.phase.q.acc[j] == 0)
            && (t' != t ==>
                && t'.queueLamports == balance == t'.reserve
                && t'.otherLamports == t.queueLamports + t.otherLamports - balance
                && t'.oracleLamports == t.oracleLamports && t'.clock == t.clock && t'.issued == t.issued
                && t'.fulfilled == t.fulfilled && t'.purged == t.purged)
  {
    LifeUse.RunAppend(cfg, s, steps, Initialize(target, index, registered, balance));
    hide Run;
  }

  /** The clock moves on to any later slot, and within a slot stands still. */
  lemma ClockMoves(cfg: Config, s: Life, steps: seq<Step>, clock: Clock)
    ensures var t := Run(cfg, s, steps);
            var t' := Run(cfg, s, steps + [Tick(clock)]);
            && t' == t.(clock := t'.clock)
            && t'.clock == if clock.slot > t.clock.slot then clock else t.clock
  {
    LifeUse.RunAppend(cfg, s, steps, Tick(clock));
    hide Run;
  }

  /** Exactly what initialisation does to an account that has not been initialised:
      the errors, the growth by 10240 bytes, and the finished queue. */
  lemma InitializeExactly(size: nat, owned: bool, target: u32, index: byte, registered: bool)
    ensures var r := InitializeQueue(RawAccount(owned, Zeros(size)), target, index, registered);
            && (target > 524288 ==> r == Err(QueueSizeTooLarge))
            && (target <= 524288 && target > size + 10240 ==> r == Ok((RawAccount(true, Zeros(size + 10240)), false)))
            && (target <= 524288 && target <= size + 10240 && target < 8 ==> r == Err(Panicked))
            && (target <= 524288 && target <= size + 10240 && 8 <= target < 20 ==> r == Err(InvalidAccountData))
            && (20 <= target <= 524288 && target <= size + 10240 && !registered ==> r == Err(InvalidAccountOwner))
            && (20 <= target <= 524288 && target <= size + 10240 && registered ==>
                r == Ok((RawAccount(true, [3, 0, 0, 0, 0, 0, 0, 0] + [0, 0, 0, 0] + [16, 0, 0, 0] + [index, 0, 0, 0]
                                          + Zeros(target - 20)), true)))
  {
    hide EncodeHeader, DecodeHeader;
    var a := RawAccount(owned, Zeros(size));
    assert IsZeroed(a.data);
    assert Resized(a.data, size + 10240) == Zeros(size + 10240);
    if 20 <= target <= 524288 && target <= size + 10240 {
      if registered {
        FinalisingCall(a, target, index);
        FreshBytes(target, index);
      } else {
        UnregisteredRefused(a, target, index);
      }
    }
  }

  lemma FreshBytes(target: u32, index: byte)
    requires 20 <= target <= 524288
    ensures Store(Fresh(target, index))
            == [3, 0, 0, 0, 0, 0, 0, 0] + [0, 0, 0, 0] + [16, 0, 0, 0] + [index, 0, 0, 0] + Zeros(target - 20)
  {
    SmallLE(0);
    SmallLE(16);
    hide LE;
    assert Zeros(target - 8)[12..] == Zeros(target - 20);
  }

  lemma SmallLE(v: byte)
    ensures LE(v, 4) == [v, 0, 0, 0]
  {
    assert v / 256 == 0 && v % 256 == v;
    assert LE(0, 1) == [0] + LE(0, 0);
    assert LE(0, 2) == [0] + LE(0, 1);
    assert LE(0, 3) == [0] + LE(0, 2);
    assert LE(v, 4) == [v] + LE(0, 3);
  }

  lemma UnregisteredRefused(a: RawAccount, target: u32, index: byte)
    requires IsZeroed(a.data) && 20 <= target <= 524288 && target <= |a.data| + 10240
    ensures InitializeQueue(a, target, index, false) == Err(InvalidAccountOwner)
  {
    hide DecodeHeader;
    var data := QueueDiscriminator() + Resized(a.data, target)[8..];
    assert data[..8] == QueueDiscriminator();
  }

  /** An account with any byte set is refused. */
  lemma InitializedRefused(a: RawAccount, target: u32, index: byte, registered: bool, j: nat)
    requires j < |a.data| && a.data[j] != 0
    ensures InitializeQueue(a, target, index, registered) == Err(AccountAlreadyInitialized)
  {
  }

  /** Loading accepts exactly the queue discriminator with a body of at least the
      header, reads the header's fields from their places and the body as it is; a
      cursor of 0 reads as 16. */
  lemma LoadExactly(data: seq<byte>)
    ensures Load(data).Ok? <==> |data| >= 20 && data[..8] == [3, 0, 0, 0, 0, 0, 0, 0]
    ensures Load(data).Err? ==> Load(data).error == InvalidAccountData
    ensures Load(data).Ok? ==>
              var q := Load(data).value;
              && q.acc == data[8..]
              && q.header.itemCount == UnLE(data[8..12])
              && q.header.cursor == (if UnLE(data[12..16]) == 0 then 16 else UnLE(data[12..16]))
              && q.header.index == data[16] && q.header.paused == data[17] && q.header.padding == (data[18], data[19])
  {
    hide UnLE;
    if |data| >= 20 {
      var body := data[8..];
      assert body[..12][0..4] == data[8..12] && body[..12][4..8] == data[12..16];
    }
  }
}
