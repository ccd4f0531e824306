/** Oracles and their queues across all instructions: the count of open queues in
    each oracle's data account, and what it protects. */
module Registry {
  import opened Bytes
  import opened QueueSpec
  import opened Instructions
  import opened QueueItems
  import Initialization
  import opened QueueLife

  type QueueKey = (Bytes32, byte)

  /** `list` is the oracle list account, `open` the open-queue count in each oracle
      data account that exists, `queues` the queue accounts by oracle and index. */
  datatype World = World(list: seq<Bytes32>, open: map<Bytes32, u64>, queues: map<QueueKey, Phase>)

  datatype Action =
    | AddOracle(identity: Bytes32)
    | RemoveOracle(identity: Bytes32)
    | InitializeQueue(oracle: Bytes32, index: byte, target: u32)
    | CloseQueue(oracle: Bytes32, index: byte)
    | DelegateQueue(oracle: Bytes32, index: byte)
    | UseQueue(oracle: Bytes32, index: byte, q: QueueData)

  function PhaseOf(w: World, k: QueueKey): Phase { if k in w.queues then w.queues[k] else Absent }

  function SatInc64(x: u64): u64 { if x < U64_MAX then x + 1 else x }

  function SatDec64(x: u64): u64 { if x > 0 then x - 1 else x }

  /** `retain`: the list without that identity. */
  function Without(list: seq<Bytes32>, identity: Bytes32): (r: seq<Bytes32>)
    ensures forall k :: k in r <==> k in list && k != identity
  {
    if list == [] then []
    else
      var before := Without(list[..|list| - 1], identity);
      var last := list[|list| - 1];
      assert list == list[..|list| - 1] + [last];
      if last != identity then before + [last] else before
  }

  function ApplyAdd(w: World, identity: Bytes32): Result<World>
  {
    if identity in w.open then Err(AccountAlreadyInitialized)
    else Ok(w.(list := w.list + [identity], open := w.open[identity := 0]))
  }

  function ApplyRemove(w: World, identity: Bytes32): Result<World>
  {
    if identity !in w.open then Err(InvalidAccountOwner)
    else if w.open[identity] != 0 then Err(QueueNotEmpty)
    else Ok(w.(list := Without(w.list, identity), open := w.open - {identity}))
  }

  function ApplyInitialize(w: World, oracle: Bytes32, index: byte, target: u32): Result<World>
  {
    var k := (oracle, index);
    match InitPhase(PhaseOf(w, k), target, index, oracle in w.open)
    case Err(error) => Err(error)
    case Ok(phase) =>
      var w1 := w.(queues := w.queues[k := phase]);
      if phase.Open? && oracle in w.open then Ok(w1.(open := w.open[oracle := SatInc64(w.open[oracle])]))
      else Ok(w1)
  }

  function ApplyClose(w: World, oracle: Bytes32, index: byte): Result<World>
  {
    var k := (oracle, index);
    if !PhaseOf(w, k).Open? || oracle !in w.open then Err(InvalidAccountOwner)
    else if !Closable(PhaseOf(w, k).q) then Err(QueueNotEmpty)
    else Ok(w.(queues := w.queues[k := Absent], open := w.open[oracle := SatDec64(w.open[oracle])]))
  }

  /** Delegation, and any other instruction on an open queue, keeps it initialised. */
  function ApplyKeep(w: World, k: QueueKey, phase: Phase): Result<World>
  {
    if !PhaseOf(w, k).Open? then Err(InvalidAccountOwner) else Ok(w.(queues := w.queues[k := phase]))
  }

  function Apply(w: World, a: Action): Result<World>
  {
    match a
    case AddOracle(identity) => ApplyAdd(w, identity)
    case RemoveOracle(identity) => ApplyRemove(w, identity)
    case InitializeQueue(oracle, index, target) => ApplyInitialize(w, oracle, index, target)
    case CloseQueue(oracle, index) => ApplyClose(w, oracle, index)
    case DelegateQueue(oracle, index) =>
      var phase := PhaseOf(w, (oracle, index));
      if phase.Open? && |phase.q.acc| >= HEADER_SIZE && Delegable(phase.q)
      then ApplyKeep(w, (oracle, index), Delegated(phase.q)) else Err(QueueAlreadyInUse)
    case UseQueue(oracle, index, q) => ApplyKeep(w, (oracle, index), Open(q))
  }

  /** Before anything happened. */
  function Start(): World { World([], map[], map[]) }

  function After(w: World, actions: seq<Action>): World
  {
    if actions == [] then w
    else
      var before := After(w, actions[..|actions| - 1]);
      match Apply(before, actions[|actions| - 1])
      case Ok(next) => next
      case Err(_) => before
  }

  // ----------------------------------------------------------- the invariant

  predicate IsOpen(w: World, oracle: Bytes32, index: int)
  {
    0 <= index < 256 && HasQueue(PhaseOf(w, (oracle, index)))
  }

  /** The indices of the oracle's initialised queues. */
  function OpenIndices(w: World, oracle: Bytes32): set<int>
  {
    set i | 0 <= i < 256 && IsOpen(w, oracle, i)
  }

  ghost predicate NoDuplicates(list: seq<Bytes32>)
  {
    forall i, j :: 0 <= i < j < |list| ==> list[i] != list[j]
  }

  ghost predicate Counted(w: World)
  {
    && NoDuplicates(w.list)
    && (forall k :: k in w.list <==> k in w.open)
    && (forall k :: k in w.open ==> w.open[k] == |OpenIndices(w, k)|)
    && (forall k, i :: IsOpen(w, k, i) ==> k in w.open)
  }

  lemma {:induction false} WithoutNoDuplicates(list: seq<Bytes32>, identity: Bytes32)
    requires NoDuplicates(list)
    ensures NoDuplicates(Without(list, identity))
  {
    if list != [] {
      WithoutNoDuplicates(list[..|list| - 1], identity);
      var last := list[|list| - 1];
      assert last !in list[..|list| - 1];
    }
  }

  lemma {:induction false} IndicesBounded(s: set<int>, n: nat)
    requires forall i :: i in s ==> 0 <= i < n
    ensures |s| <= n
  {
    if n > 0 {
      IndicesBounded(s - {n - 1}, n - 1);
    } else {
      assert forall i :: i in s ==> i in {};
      assert s <= {};
    }
  }

  lemma OpenCountBounded(w: World, oracle: Bytes32)
    ensures |OpenIndices(w, oracle)| <= 256
  {
    IndicesBounded(OpenIndices(w, oracle), 256);
  }

  /** Only the key whose phase changes is affected. */
  lemma OtherIndices(w: World, w': World, k: QueueKey, oracle: Bytes32)
    requires w'.queues == w.queues[k := PhaseOf(w', k)]
    requires oracle != k.0 || HasQueue(PhaseOf(w', k)) == HasQueue(PhaseOf(w, k))
    ensures OpenIndices(w', oracle) == OpenIndices(w, oracle)
  {
    forall i ensures IsOpen(w', oracle, i) <==> IsOpen(w, oracle, i) {}
  }

  lemma AddKeepsCount(w: World, identity: Bytes32)
    requires Counted(w) && ApplyAdd(w, identity).Ok?
    ensures Counted(ApplyAdd(w, identity).value)
  {
    var w' := ApplyAdd(w, identity).value;
    forall k ensures OpenIndices(w', k) == OpenIndices(w, k) {
      forall i ensures IsOpen(w', k, i) <==> IsOpen(w, k, i) {}
    }
    forall k, i | IsOpen(w', k, i) ensures k in w'.open { assert IsOpen(w, k, i); }
    assert OpenIndices(w, identity) == {} by {
      forall i ensures !IsOpen(w, identity, i) {}
    }
  }

  lemma RemoveKeepsCount(w: World, identity: Bytes32)
    requires Counted(w) && ApplyRemove(w, identity).Ok?
    ensures Counted(ApplyRemove(w, identity).value)
    ensures forall i :: !IsOpen(w, identity, i)
  {
    var w' := ApplyRemove(w, identity).value;
    WithoutNoDuplicates(w.list, identity);
    forall k ensures OpenIndices(w', k) == OpenIndices(w, k) {
      forall i ensures IsOpen(w', k, i) <==> IsOpen(w, k, i) {}
    }
    assert OpenIndices(w, identity) == {};
    forall i ensures !IsOpen(w, identity, i) {
      assert IsOpen(w, identity, i) ==> i in OpenIndices(w, identity);
    }
    forall k, i | IsOpen(w', k, i) ensures k in w'.open { assert IsOpen(w, k, i); }
  }

  lemma InitializeKeepsCount(w: World, oracle: Bytes32, index: byte, target: u32)
    requires Counted(w) && ApplyInitialize(w, oracle, index, target).Ok?
    ensures Counted(ApplyInitialize(w, oracle, index, target).value)
  {
    var w' := ApplyInitialize(w, oracle, index, target).value;
    var k := (oracle, index);
    assert w'.queues == w.queues[k := PhaseOf(w', k)];
    assert !HasQueue(PhaseOf(w, k));
    CountChanges(w, w', k);
  }

  lemma CloseKeepsCount(w: World, oracle: Bytes32, index: byte)
    requires Counted(w) && ApplyClose(w, oracle, index).Ok?
    ensures Counted(ApplyClose(w, oracle, index).value)
  {
    var w' := ApplyClose(w, oracle, index).value;
    var k := (oracle, index);
    assert w'.queues == w.queues[k := PhaseOf(w', k)];
    assert IsOpen(w, oracle, index) && index in OpenIndices(w, oracle);
    CountChanges(w, w', k);
  }

  /** How the number of open indices follows the phase of one queue. */
  lemma IndicesChange(w: World, w': World, k: QueueKey)
    requires w'.queues == w.queues[k := PhaseOf(w', k)]
    ensures |OpenIndices(w', k.0)| + (if HasQueue(PhaseOf(w, k)) then 1 else 0)
            == |OpenIndices(w, k.0)| + (if HasQueue(PhaseOf(w', k)) then 1 else 0)
  {
    forall i ensures IsOpen(w', k.0, i) <==> if i == k.1 then HasQueue(PhaseOf(w', k)) else IsOpen(w, k.0, i) {}
    var rest := OpenIndices(w, k.0) - {k.1 as int};
    assert k.1 as int in OpenIndices(w, k.0) <==> HasQueue(PhaseOf(w, k));
    assert OpenIndices(w, k.0) == if HasQueue(PhaseOf(w, k)) then rest + {k.1 as int} else rest;
    assert OpenIndices(w', k.0) == if HasQueue(PhaseOf(w', k)) then rest + {k.1 as int} else rest;
  }

  /** A change of one queue's phase is matched by the change of its oracle's count. */
  lemma CountChanges(w: World, w': World, k: QueueKey)
    requires Counted(w) && w'.list == w.list
    requires w'.queues == w.queues[k := PhaseOf(w', k)]
    requires HasQueue(PhaseOf(w', k)) ==> k.0 in w.open
    requires w'.open == if HasQueue(PhaseOf(w', k)) == HasQueue(PhaseOf(w, k)) then w.open
                        else if HasQueue(PhaseOf(w', k)) && k.0 in w.open then w.open[k.0 := SatInc64(w.open[k.0])]
                        else if k.0 in w.open then w.open[k.0 := SatDec64(w.open[k.0])]
                        else w.open
    ensures Counted(w')
  {
    hide OpenIndices, NoDuplicates;
    forall o | o != k.0 || HasQueue(PhaseOf(w', k)) == HasQueue(PhaseOf(w, k))
      ensures OpenIndices(w', o) == OpenIndices(w, o)
    {
      OtherIndices(w, w', k, o);
    }
    OpenCountBounded(w, k.0);
    IndicesChange(w, w', k);
    forall o, i | IsOpen(w', o, i) ensures o in w'.open {
      if (o, i) != k { assert IsOpen(w, o, i); }
    }
  }

  lemma KeepKeepsCount(w: World, k: QueueKey, phase: Phase)
    requires Counted(w) && HasQueue(phase) && ApplyKeep(w, k, phase).Ok?
    ensures Counted(ApplyKeep(w, k, phase).value)
  {
    assert IsOpen(w, k.0, k.1);
    CountChanges(w, ApplyKeep(w, k, phase).value, k);
  }

  lemma CountedNext(w: World, a: Action)
    requires Counted(w) && Apply(w, a).Ok?
    ensures Counted(Apply(w, a).value)
  {
    hide Counted, ApplyAdd, ApplyRemove, ApplyInitialize, ApplyClose, ApplyKeep;
    match a
    case AddOracle(identity) => AddKeepsCount(w, identity);
    case RemoveOracle(identity) => RemoveKeepsCount(w, identity);
    case InitializeQueue(oracle, index, target) => InitializeKeepsCount(w, oracle, index, target);
    case CloseQueue(oracle, index) => CloseKeepsCount(w, oracle, index);
    case DelegateQueue(oracle, index) => KeepKeepsCount(w, (oracle, index), Delegated(PhaseOf(w, (oracle, index)).q));
    case UseQueue(oracle, index, q) => KeepKeepsCount(w, (oracle, index), Open(q));
  }

  /** In every run the stored count is the number of that oracle's initialised
      queues, so the saturating updates never saturate, and the listed oracles are
      those with a data account, each once. */
  lemma {:induction false} OpenQueuesCounted(actions: seq<Action>)
    ensures Counted(After(Start(), actions))
  {
    var start := World([], map[], map[]);
    if actions != [] {
      OpenQueuesCounted(actions[..|actions| - 1]);
      var before := After(start, actions[..|actions| - 1]);
      hide Counted, Apply;
      if Apply(before, actions[|actions| - 1]).Ok? {
        CountedNext(before, actions[|actions| - 1]);
      }
    }
  }

  /** An oracle's data account is never closed while one of its queues is initialised. */
  lemma OracleKeptWhileQueuesOpen(actions: seq<Action>, identity: Bytes32)
    ensures var w := After(Start(), actions);
            Apply(w, RemoveOracle(identity)).Ok? <==> identity in w.open && forall i :: !IsOpen(w, identity, i)
  {
    var w := After(Start(), actions);
    OpenQueuesCounted(actions);
    hide After;
    if Apply(w, RemoveOracle(identity)).Ok? {
      RemoveKeepsCount(w, identity);
    }
    assert (forall i :: !IsOpen(w, identity, i)) ==> OpenIndices(w, identity) == {};
  }

  // -------------------------------------------------- exactly what each does

  lemma {:induction false} WithoutAt(list: seq<Bytes32>, i: nat)
    requires NoDuplicates(list) && i < |list|
    ensures Without(list, list[i]) == list[..i] + list[i + 1..]
  {
    var n := |list| - 1;
    var before, last := list[..n], list[n];
    if i == n {
      WithoutNone(before, last);
      assert list[..i] + list[i + 1..] == before;
    } else {
      WithoutAt(before, i);
      assert list[..i] + list[i + 1..] == before[..i] + before[i + 1..] + [last];
    }
  }

  lemma {:induction false} WithoutNone(list: seq<Bytes32>, identity: Bytes32)
    requires identity !in list
    ensures Without(list, identity) == list
  {
    if list != [] {
      WithoutNone(list[..|list| - 1], identity);
      assert list == list[..|list| - 1] + [list[|list| - 1]];
    }
  }

  /** In every run an oracle is added exactly if it is not registered: it is then last
      in the list with no open queue. It is removed, from its place in the list, exactly
      if it is registered and has no open queue. Nothing else changes. */
  lemma OraclesExactly(actions: seq<Action>, identity: Bytes32)
    ensures var w := After(Start(), actions);
            && Apply(w, AddOracle(identity))
               == (if identity in w.list then Err(AccountAlreadyInitialized)
                   else Ok(World(w.list + [identity], w.open[identity := 0], w.queues)))
            && (identity !in w.list ==> Apply(w, RemoveOracle(identity)) == Err(InvalidAccountOwner))
            && (forall i :: 0 <= i < |w.list| && w.list[i] == identity ==>
                 Apply(w, RemoveOracle(identity))
                 == if exists q :: IsOpen(w, identity, q) then Err(QueueNotEmpty)
                    else Ok(World(w.list[..i] + w.list[i + 1..], w.open - {identity}, w.queues)))
  {
    var w := After(Start(), actions);
    OpenQueuesCounted(actions);
    OracleKeptWhileQueuesOpen(actions, identity);
    hide After, Without;
    forall i | 0 <= i < |w.list| && w.list[i] == identity
      ensures Without(w.list, identity) == w.list[..i] + w.list[i + 1..]
    {
      WithoutAt(w.list, i);
    }
  }

  /** In every run: an uninitialised queue account grows by 10240 bytes per call until
      the target is within reach, and is then opened and counted if its oracle is
      registered; an open queue is closed and uncounted exactly if it has no item. */
  lemma QueuesExactly(actions: seq<Action>, oracle: Bytes32, index: byte, target: u32)
    ensures var w := After(Start(), actions);
            var phase := PhaseOf(w, (oracle, index));
            var size := if phase.Growing? then phase.size else 0;
            var r := Apply(w, InitializeQueue(oracle, index, target));
            && (HasQueue(phase) ==> r == Err(AccountAlreadyInitialized))
            && (!HasQueue(phase) && target > 524288 ==> r == Err(QueueSizeTooLarge))
            && (!HasQueue(phase) && size + 10240 < target <= 524288 ==>
                r == Ok(w.(queues := w.queues[(oracle, index) := Growing(size + 10240)])))
            && (!HasQueue(phase) && 20 <= target <= 524288 && target <= size + 10240 ==>
                if oracle !in w.list then r == Err(InvalidAccountOwner)
                else && r.Ok? && oracle in w.open && w.open[oracle] <= 256
                     && r.value.list == w.list && r.value.open == w.open[oracle := w.open[oracle] + 1]
                     && r.value.queues == w.queues[(oracle, index) := Open(Initialization.Fresh(target, index))])
    ensures var w := After(Start(), actions);
            var phase := PhaseOf(w, (oracle, index));
            var r := Apply(w, CloseQueue(oracle, index));
            && (!phase.Open? ==> r == Err(InvalidAccountOwner))
            && (phase.Open? && phase.q.header.itemCount != 0 ==> r == Err(QueueNotEmpty))
            && (phase.Open? && phase.q.header.itemCount == 0 ==>
                && r.Ok? && oracle in w.open && w.open[oracle] > 0
                && r.value.list == w.list && r.value.open == w.open[oracle := w.open[oracle] - 1]
                && r.value.queues == w.queues[(oracle, index) := Absent])
  {
    var w := After(Start(), actions);
    OpenQueuesCounted(actions);
    hide After;
    var phase := PhaseOf(w, (oracle, index));
    OpenCountBounded(w, oracle);
    assert HasQueue(phase) ==> IsOpen(w, oracle, index) && index in OpenIndices(w, oracle);
  }

  // ------------------------------------------------ the accounts, in place

  lemma Keeps(w: World, a: Action)
    ensures Counted(w) && Apply(w, a).Ok? ==> Counted(Apply(w, a).value)
  {
    hide Counted, Apply;
    if Counted(w) && Apply(w, a).Ok? { CountedNext(w, a); }
  }

  /** The accounts behind a World, changed in place by the instructions, which keep
      the count of open queues right. */
  class Accounts {
    var list: seq<Bytes32>
    var open: map<Bytes32, u64>
    var queues: map<QueueKey, Phase>

    constructor ()
      ensures View() == World([], map[], map[]) && Counted(View())
    {
      list, open, queues := [], map[], map[];
      new;
      OpenQueuesCounted([]);
    }

    ghost function View(): World
      reads this
    {
      World(list, open, queues)
    }

    /** Add (operation 0) or remove (operation 1) an oracle. */
    method ModifyOracles(identity: Bytes32, operation: byte) returns (r: Result<()>)
      modifies this
      ensures match if operation == 0 then ApplyAdd(old(View()), identity)
                    else if operation == 1 then ApplyRemove(old(View()), identity)
                    else Err(InvalidArgument)
              case Ok(w) => r == Ok(()) && View() == w
              case Err(error) => r == Err(error) && View() == old(View())
      ensures old(Counted(View())) ==> Counted(View())
    {
      Keeps(View(), if operation == 0 then AddOracle(identity) else RemoveOracle(identity));
      hide Counted;
      if operation == 0 {
        if identity in open {
          return Err(AccountAlreadyInitialized);
        }
        list := list + [identity];
        open := open[identity := 0];
      } else if operation == 1 {
        if identity !in open {
          return Err(InvalidAccountOwner);
        }
        if open[identity] != 0 {
          return Err(QueueNotEmpty);
        }
        var kept: seq<Bytes32> := [];
        for i := 0 to |list|
          invariant kept == Without(list[..i], identity)
        {
          assert list[..i + 1][..i] == list[..i];
          if list[i] != identity {
            kept := kept + [list[i]];
          }
        }
        assert list[..|list|] == list;
        list := kept;
        open := open - {identity};
      } else {
        return Err(InvalidArgument);
      }
      r := Ok(());
    }

    method ProcessInitialize(oracle: Bytes32, index: byte, target: u32) returns (r: Result<()>)
      modifies this
      ensures match ApplyInitialize(old(View()), oracle, index, target)
              case Ok(w) => r == Ok(()) && View() == w
              case Err(error) => r == Err(error) && View() == old(View())
      ensures old(Counted(View())) ==> Counted(View())
    {
      Keeps(View(), InitializeQueue(oracle, index, target));
      hide Counted;
      var k := (oracle, index);
      var phase := if k in queues then queues[k] else Absent;
      var next := InitPhase(phase, target, index, oracle in open);
      if next.Err? {
        return Err(next.error);
      }
      queues := queues[k := next.value];
      if next.value.Open? {
        open := open[oracle := SatInc64(open[oracle])];
      }
      r := Ok(());
    }

    method ProcessClose(oracle: Bytes32, index: byte) returns (r: Result<()>)
      modifies this
      ensures match ApplyClose(old(View()), oracle, index)
              case Ok(w) => r == Ok(()) && View() == w
              case Err(error) => r == Err(error) && View() == old(View())
      ensures old(Counted(View())) ==> Counted(View())
    {
      Keeps(View(), CloseQueue(oracle, index));
      hide Counted;
      var k := (oracle, index);
      var phase := if k in queues then queues[k] else Absent;
      if !phase.Open? || oracle !in open {
        return Err(InvalidAccountOwner);
      }
      if phase.q.header.itemCount != 0 {
        return Err(QueueNotEmpty);
      }
      open := open[oracle := SatDec64(open[oracle])];
      queues := queues[k := Absent];
      r := Ok(());
    }
  }
}
