/** Two more whole-run properties of a queue: that it was used is never forgotten,
    and a paused queue drains and can be closed. */
module LifeUse {
  import opened Bytes
  import opened QueueItems
  import opened QueueSpec
  import opened QueueTiling
  import opened QueueRemoval
  import opened QueueInvariant
  import opened QueueInsertion
  import opened QueueRequests
  import opened QueueAccounts
  import opened Instructions
  import opened Initialization
  import opened Expiry
  import opened QueueLife
  import opened LifeEffects
  import opened LifeHistory
  import LifeFees

  // ------------------------------------------------------- used, once and for all

  /** Low byte of the discriminator offset of an item at the start of the area. */
  const MARK: nat := ITEMS_START + DISC_OFFSET_OFFSET

  /** The mark the first stored item leaves: its discriminator offset, 112. */
  predicate Marked(q: QueueData) { |q.acc| > MARK && q.acc[MARK] == 112 }

  predicate Untouched(q: QueueData)
  {
    q.header.itemCount == 0 && Entries(q) == [] && forall j :: HEADER_SIZE <= j < |q.acc| ==> q.acc[j] == 0
  }

  lemma MarkOfEntry(acc: seq<byte>)
    requires ITEMS_START + ITEM_SIZE <= |acc|
    requires EntryAt(acc, ITEMS_START).item.discOffset == 112
    ensures acc[MARK] == 112
  {
    var b := acc[ITEMS_START..ITEMS_START + ITEM_SIZE];
    var f := b[72..76];
    assert U32Of(f) == 112;
    assert UnLE(f) == f[0] + 256 * UnLE(f[1..]);
    assert f[0] == acc[MARK];
  }

  /** A stored request leaves the mark, wherever it is stored. */
  lemma AddMarks(q: QueueData, base: QueueItem, p: Payload, idFromPos: u32 -> Bytes32)
    requires WellFormed(q) && |p.disc| < 0x1_0000
    requires |q.acc| < 0x1_0000_0000 && AddItem(q, base, p, idFromPos).Ok?
    requires Marked(q) || Entries(q) == []
    ensures Marked(AddItem(q, base, p, idFromPos).value.q)
  {
    hide AddItem, Live, Entries, Used, EntryAt, PayloadReadable, ReadPayload, FirstHole, RequiredSpan;
    hide PlacedItem, PlacedAt;
    var r := AddItem(q, base, p, idFromPos).value;
    InsertionExact(q, base, p, idFromPos);
    var i := AddItemBytes(q, base, p, idFromPos);
    if r.pos == ITEMS_START {
      var e := NewEntry(r.pos, WithId(base, idFromPos, r.pos), p);
      assert Live(r.q)[r.index] == e;
      LiveItemAt(r.q, r.index);
      PlacedExtents(WithId(base, idFromPos, r.pos), r.pos, p);
      MarkOfEntry(r.q.acc);
    } else if Entries(q) != [] {
      TilingInvariant(q, 0);
      if i < |Entries(q)| {
        TilingInvariant(q, i);
      }
    }
  }

  /** Removals clear flags only, never the mark. */
  lemma RemovalKeepsMark(q: QueueData, w: Entry -> bool)
    requires WellFormed(q)
    ensures Marked(q) ==> Marked(RemoveWhere(q, w).q)
    ensures Untouched(q) ==> Untouched(RemoveWhere(q, w).q)
  {
    var es := Entries(q);
    assert !IsClearedByte(es, w, MARK) by {
      hide Entries;
      forall i | 0 <= i < |es| ensures es[i].pos + USED_OFFSET != MARK { TilingInvariant(q, i); }
    }
    if es == [] {
      RemoveNothing(q, w);
      EntriesTrim(q);
    }
  }

  ghost predicate UseRecorded(s: Life)
  {
    HasQueue(s.phase) ==> if s.stored then Marked(s.phase.q) else Untouched(s.phase.q)
  }

  lemma UseByRequest(cfg: Config, s: Life, args: RequestArgs, kind: RequestKind)
    requires Sound(s) && UseRecorded(s)
    ensures UseRecorded(NextRequest(cfg, s, args, kind))
  {
    hide WellFormed, AddItem, Marked, ItemCost, BaseItem, PayloadOf, Entries, IdFromPos;
    if s.phase.Open? && |s.phase.q.acc| < 0x1_0000_0000 && RequestRandomness(cfg, s.phase.q, s.clock, args, kind).Ok? {
      PayloadDisc(args);
      AddMarks(s.phase.q, BaseItem(args, kind, s.clock), PayloadOf(args), IdFromPos(cfg, args, kind, s.clock));
    }
  }

  /** The queue a fulfilment leaves is the one removing that request leaves. */
  lemma ProvidedQueue(cfg: Config, q: QueueData, clock: Clock, input: Bytes32, proof: Proof, accounts: ProvideAccounts)
    requires ProvideRandomness(cfg, q, clock, input, proof, accounts).Ok?
    ensures var r := ProvideRandomness(cfg, q, clock, input, proof, accounts).value;
            && r.index < |Live(q)|
            && r.q == RemoveWhere(q, AtPos(Live(q)[r.index].pos)).q
  {
    hide Live, Remove, RemoveWhere, ReadPayload, PayloadReadable, IdentityError, Callback, OracleAmong;
    hide FindById;
    RemoveIsRemoveWhere(q, FindById(Live(q), input).value.0);
  }

  lemma UseByProvide(cfg: Config, s: Life, input: Bytes32, proof: Proof, accounts: ProvideAccounts)
    requires Sound(s) && UseRecorded(s)
    ensures UseRecorded(NextProvide(cfg, s, input, proof, accounts))
  {
    hide WellFormed, Live, Marked, Untouched, RemoveWhere, ProvideRandomness, LiveRequests, ItemCost;
    ProvideFrame(cfg, s, input, proof, accounts);
    if s.phase.Open? && ProvideRandomness(cfg, s.phase.q, s.clock, input, proof, accounts).Ok? {
      var r := ProvideRandomness(cfg, s.phase.q, s.clock, input, proof, accounts).value;
      ProvidedQueue(cfg, s.phase.q, s.clock, input, proof, accounts);
      RemovalKeepsMark(s.phase.q, AtPos(Live(s.phase.q)[r.index].pos));
    }
  }

  lemma UseByPurge(cfg: Config, s: Life)
    requires Sound(s) && UseRecorded(s)
    ensures UseRecorded(NextPurge(cfg, s))
  {
    hide WellFormed, Marked, Untouched, RemoveWhere, SaturatingTotal, ExpiredRequests;
    PurgeFrame(cfg, s);
    if s.phase.Open? {
      RemovalKeepsMark(s.phase.q, ExpiredNow(s.clock));
    }
  }

  lemma UseNext(cfg: Config, s: Life, step: Step)
    requires Sound(s) && UseRecorded(s)
    ensures UseRecorded(Next(cfg, s, step))
  {
    hide NextRequest, NextProvide, NextPurge, WellFormed;
    match step
    case MakeRequest(args, kind) => UseByRequest(cfg, s, args, kind);
    case Provide(input, proof, accounts) => UseByProvide(cfg, s, input, proof, accounts);
    case Purge => UseByPurge(cfg, s);
    case Initialize(target, index, registered, balance) =>
      if target >= DISCRIMINATOR_SIZE + HEADER_SIZE && target <= MAX_QUEUE_ACCOUNT_SIZE {
        FreshWellFormed(target, index);
      }
    case _ =>
  }

  lemma {:induction false} UseRun(cfg: Config, s: Life, steps: seq<Step>)
    requires Initial(s)
    ensures UseRecorded(Run(cfg, s, steps))
  {
    if steps != [] {
      UseRun(cfg, s, steps[..|steps| - 1]);
      hide Sound, UseRecorded, Next;
      SoundRun(cfg, s, steps[..|steps| - 1]);
      UseNext(cfg, Run(cfg, s, steps[..|steps| - 1]), steps[|steps| - 1]);
    }
  }

  /** In every run the delegation gate is open exactly when no request has been
      stored since the queue was initialised, however many were removed since. */
  lemma DelegationExact(cfg: Config, s: Life, steps: seq<Step>)
    requires Initial(s) && HasQueue(Run(cfg, s, steps).phase)
    ensures var t := Run(cfg, s, steps);
            |t.phase.q.acc| >= HEADER_SIZE && (Delegable(t.phase.q) <==> !t.stored)
  {
    UseRun(cfg, s, steps);
    SoundRun(cfg, s, steps);
    hide Run, Entries;
  }

  // ------------------------------------------------------------ pause and drain

  predicate IsPaused(s: Life) { s.phase.Open? && s.phase.q.header.paused != 0 }

  /** While paused, a step only ever takes requests out. */
  lemma PausedNext(cfg: Config, s: Life, step: Step)
    requires Sound(s) && IsPaused(s)
    ensures multiset(LiveOf(Next(cfg, s, step).phase)) <= multiset(LiveOf(s.phase))
  {
    hide Sound, NextProvide, NextPurge, NextRequest, NextInitialize, NextClose, NextPause, NextDelegate;
    hide NextDonate, Requests, Filter, Live;
    match step
    case MakeRequest(args, kind) => var k := RequestEffect(cfg, s, args, kind);
    case Provide(input, proof, accounts) =>
      var k := ProvideEffect(cfg, s, input, proof, accounts);
      if Next(cfg, s, step) != s { MultisetDelete(LiveOf(s.phase), k); }
    case Purge =>
      PurgeEffect(cfg, s);
      RequestsSplit(s.phase.q.acc, Live(s.phase.q), ExpiredNow(s.clock));
    case _ => LiveOfSame(cfg, s, step);
  }

  /** While the queue stays paused its live requests never grow, in any run. */
  lemma {:induction false} PausedNeverGrows(cfg: Config, s: Life, steps: seq<Step>)
    requires Sound(s)
    requires forall n :: 0 <= n <= |steps| ==> IsPaused(Run(cfg, s, steps[..n]))
    ensures Sound(Run(cfg, s, steps))
    ensures multiset(LiveOf(Run(cfg, s, steps).phase)) <= multiset(LiveOf(s.phase))
  {
    if steps != [] {
      var before := steps[..|steps| - 1];
      forall n | 0 <= n <= |before| ensures IsPaused(Run(cfg, s, before[..n])) {
        assert before[..n] == steps[..n];
      }
      PausedNeverGrows(cfg, s, before);
      hide Sound, Next, IsPaused;
      SoundNext(cfg, Run(cfg, s, before), steps[|steps| - 1]);
      PausedNext(cfg, Run(cfg, s, before), steps[|steps| - 1]);
    }
  }

  lemma {:induction false} FilterNone(es: seq<Entry>, w: Entry -> bool)
    requires forall i :: 0 <= i < |es| ==> !w(es[i])
    ensures Filter(es, w) == []
  {
    if es != [] {
      FilterNone(es[..|es| - 1], w);
    }
  }

  /** A purge at which every live request is expired empties the queue. */
  lemma PurgeEmpties(q: QueueData, clock: Clock)
    requires WellFormed(q)
    requires forall k :: 0 <= k < |Live(q)| ==> Expired(Live(q)[k].item.createdAt, CreatedAtFrom(clock.time))
    ensures var r := PurgeExpired(q, clock).q;
            && Live(r) == [] && r.header.itemCount == 0 && r.header.cursor == ITEMS_START && Closable(r)
  {
    var w := ExpiredNow(clock);
    RemovalKeepsInvariant(q, w);
    LiveAfterRemoveWhere(q, w);
    FilterNone(Live(q), Not(w));
    var r := RemoveWhere(q, w).q;
    hide RemoveWhere;
    UsedAreEntries(Entries(r));
  }

  /** Every remaining request is between 124 s and 262140 s old. */
  ghost predicate AllInWindow(s: Life)
  {
    forall m :: 0 <= m < |s.issued| && StoredAs(s.issued[m]) in LiveOf(s.phase) ==>
      0 <= s.issued[m].clock.time && 124 <= s.clock.time - s.issued[m].clock.time <= 262140
  }

  lemma WindowExpires(cfg: Config, s: Life, k: nat)
    requires HistoryHolds(cfg, s) && s.phase.Open? && AllInWindow(s)
    requires k < |Live(s.phase.q)|
    ensures Expired(Live(s.phase.q)[k].item.createdAt, CreatedAtFrom(s.clock.time))
  {
    hide Sound, Conserved, Dated, AllFulfil, StoredAs, RequestOf, Live, Expired, CreatedAtFrom;
    var q := s.phase.q;
    var r := LiveRequests(q)[k];
    assert r in LiveOf(s.phase);
    var m := WasIssued(cfg, s, r);
    StoredAsFields(s.issued[m]);
    RequestPos(q.acc, Live(q)[k]);
    ExpiryExact(s.issued[m].clock.time, s.clock.time);
  }

  /** Wait, purge, close: once every remaining request is in the window, a purge
      empties the queue and closing succeeds. */
  lemma DrainThenClose(cfg: Config, s: Life, steps: seq<Step>)
    requires Initial(s) && Run(cfg, s, steps).phase.Open? && AllInWindow(Run(cfg, s, steps))
    ensures var purged := Run(cfg, s, steps + [Purge]);
            && purged.phase.Open? && LiveOf(purged.phase) == []
            && purged.phase.q.header.itemCount == 0 && purged.phase.q.header.cursor == ITEMS_START
    ensures Run(cfg, s, steps + [Purge] + [Close]).phase.Absent?
  {
    var t := Run(cfg, s, steps);
    RunAppend(cfg, s, steps, Purge);
    RunAppend(cfg, s, steps + [Purge], Close);
    HistoryRun(cfg, s, steps);
    LifeFees.FeeConservation(cfg, s, steps);
    hide Run, HistoryHolds, LifeFees.Solvent, Live, NextPurge, PurgeExpired, AllInWindow, Expired;
    hide CreatedAtFrom, WellFormed;
    forall k | 0 <= k < |Live(t.phase.q)| ensures Expired(Live(t.phase.q)[k].item.createdAt, CreatedAtFrom(t.clock.time)) {
      WindowExpires(cfg, t, k);
    }
    SoundRun(cfg, s, steps);
    LifeFees.PurgePayable(cfg, t, s);
    PurgeEmpties(t.phase.q, t.clock);
  }

  lemma RunAppend(cfg: Config, s: Life, steps: seq<Step>, step: Step)
    ensures Run(cfg, s, steps + [step]) == Next(cfg, Run(cfg, s, steps), step)
  {
    hide Next;
    assert (steps + [step])[..|steps|] == steps;
  }
}
