/** The queue as the list of live requests with their payloads, read from the
    bytes, and what each operation does to that list. */
module QueueRequests {
  import opened Bytes
  import opened QueueItems
  import opened QueueSpec
  import opened QueueRemoval
  import opened QueueInvariant
  import opened QueueInsertion

  datatype Request = Request(pos: nat, item: QueueItem, payload: Payload)

  function RequestOf(acc: seq<byte>, e: Entry): Request
  {
    Request(e.pos, e.item, if PayloadReadable(acc, e.item) then ReadPayload(acc, e.item) else Payload([], [], []))
  }

  function Requests(acc: seq<byte>, es: seq<Entry>): (r: seq<Request>)
    ensures |r| == |es|
    ensures forall i :: 0 <= i < |es| ==> r[i] == RequestOf(acc, es[i])
  {
    seq(|es|, i requires 0 <= i < |es| => RequestOf(acc, es[i]))
  }

  function LiveRequests(q: QueueData): seq<Request> { Requests(q.acc, Live(q)) }

  /** The request that storing `p` at `pos` creates. */
  function NewRequest(pos: nat, base: QueueItem, p: Payload): Request
  {
    Request(pos, PlacedItem(base, pos, p), p)
  }

  lemma RequestsAt(acc: seq<byte>, acc': seq<byte>, es: seq<Entry>)
    requires forall i :: 0 <= i < |es| ==> RequestOf(acc, es[i]) == RequestOf(acc', es[i])
    ensures Requests(acc, es) == Requests(acc', es)
  {
  }

  /** A successful insertion puts the request, with its payload as given, at the
      returned index and leaves every other request as it was. */
  lemma RequestsAfterAdd(q: QueueData, base: QueueItem, p: Payload, idFromPos: u32 -> Bytes32)
    requires WellFormed(q) && |p.disc| < 0x1_0000
    requires |q.acc| < 0x1_0000_0000 && AddItem(q, base, p, idFromPos).Ok?
    ensures var r := AddItem(q, base, p, idFromPos).value;
            && r.pos <= U32_MAX
            && r.index <= |LiveRequests(q)|
            && LiveRequests(r.q) == LiveRequests(q)[..r.index]
                                    + [NewRequest(r.pos, WithId(base, idFromPos, r.pos), p)]
                                    + LiveRequests(q)[r.index..]
  {
    hide AddItem, Live, WellFormed, ReadPayload, PlacedItem, PayloadReadable, PlacedAt, RequiredSpan;
    InsertionExact(q, base, p, idFromPos);
    var i := AddItemBytes(q, base, p, idFromPos);
    var r := AddItem(q, base, p, idFromPos).value;
    var e := NewEntry(r.pos, WithId(base, idFromPos, r.pos), p);
    forall k | 0 <= k < |Live(q)| ensures RequestOf(r.q.acc, Live(q)[k]) == RequestOf(q.acc, Live(q)[k]) {
      PayloadSurvivesInsertion(q, base, p, idFromPos, k);
    }
    assert RequestOf(r.q.acc, e) == NewRequest(r.pos, WithId(base, idFromPos, r.pos), p);
    RequestsAt(q.acc, r.q.acc, Live(q));
    RequestsInsert(r.q.acc, Live(q), r.index, e);
  }

  lemma RequestsInsert(acc: seq<byte>, es: seq<Entry>, k: nat, e: Entry)
    requires k <= |es|
    ensures Requests(acc, es[..k] + [e] + es[k..])
            == Requests(acc, es)[..k] + [RequestOf(acc, e)] + Requests(acc, es)[k..]
  {
    hide RequestOf;
  }

  lemma {:induction false} FilterIn(es: seq<Entry>, w: Entry -> bool)
    ensures forall e :: e in Filter(es, w) <==> e in es && w(e)
  {
    if es != [] {
      FilterIn(es[..|es| - 1], w);
      assert es == es[..|es| - 1] + [Last(es)];
    }
  }

  /** A removal leaves exactly the requests that were not picked, unchanged. */
  lemma RequestsAfterRemoveWhere(q: QueueData, w: Entry -> bool)
    requires WellFormed(q)
    ensures LiveRequests(RemoveWhere(q, w).q) == Requests(q.acc, Filter(Live(q), Not(w)))
  {
    hide WellFormed, RemoveWhere, ReadPayload, PayloadReadable, Filter;
    LiveAfterRemoveWhere(q, w);
    var kept := Filter(Live(q), Not(w));
    FilterIn(Live(q), Not(w));
    forall i | 0 <= i < |kept|
      ensures RequestOf(RemoveWhere(q, w).q.acc, kept[i]) == RequestOf(q.acc, kept[i])
    {
      assert kept[i] in Live(q);
      UsedAreEntries(Entries(q));
      var m :| 0 <= m < |Entries(q)| && Entries(q)[m] == kept[i];
      PayloadSurvivesRemoval(q, w, m);
    }
    RequestsAt(RemoveWhere(q, w).q.acc, q.acc, kept);
  }

  lemma {:induction false} RequestsSplit(acc: seq<byte>, es: seq<Entry>, w: Entry -> bool)
    ensures multiset(Requests(acc, es))
            == multiset(Requests(acc, Filter(es, w))) + multiset(Requests(acc, Filter(es, Not(w))))
  {
    if es == [] {
      assert Requests(acc, []) == [];
    } else {
      var before := es[..|es| - 1];
      RequestsSplit(acc, before, w);
      RequestsAppend(acc, before, Last(es));
      assert es == before + [Last(es)];
      RequestsAppend(acc, Filter(before, w), Last(es));
      RequestsAppend(acc, Filter(before, Not(w)), Last(es));
      hide RequestOf, Requests;
      if w(Last(es)) {
        assert Filter(es, w) == Filter(before, w) + [Last(es)];
        assert Filter(es, Not(w)) == Filter(before, Not(w));
      } else {
        assert Filter(es, w) == Filter(before, w);
        assert Filter(es, Not(w)) == Filter(before, Not(w)) + [Last(es)];
      }
    }
  }

  lemma RequestsAppend(acc: seq<byte>, es: seq<Entry>, e: Entry)
    ensures Requests(acc, es + [e]) == Requests(acc, es) + [RequestOf(acc, e)]
  {
    hide RequestOf;
  }

  /** Removing by index takes that request out of the list, and its payload can
      still be read from the bytes afterwards. */
  lemma RequestsAfterRemove(q: QueueData, k: nat)
    requires WellFormed(q) && k < |Live(q)|
    ensures var r := Remove(q, k);
            && r.Ok? && WellFormed(r.value.q)
            && LiveRequests(r.value.q) == LiveRequests(q)[..k] + LiveRequests(q)[k + 1..]
            && r.value.item == Live(q)[k].item.(used := 0)
            && PayloadReadable(q.acc, Live(q)[k].item)
            && PayloadReadable(r.value.q.acc, r.value.item)
            && ReadPayload(r.value.q.acc, r.value.item) == LiveRequests(q)[k].payload
  {
    hide WellFormed, RemoveWhere, Filter, DecodeMetas, Entries, Live, Remove;
    var w := AtPos(Live(q)[k].pos);
    RemoveIsRemoveWhere(q, k);
    RemovalKeepsInvariant(q, w);
    RequestsAfterRemoveWhere(q, w);
    LiveAfterRemove(q, k);
    LiveAfterRemoveWhere(q, w);
    var m := LiveIndex(q, k);
    PayloadSurvivesRemoval(q, w, m);
    RequestsDelete(q.acc, Live(q), k);
  }

  lemma RequestsDelete(acc: seq<byte>, es: seq<Entry>, k: nat)
    requires k < |es|
    ensures Requests(acc, es[..k] + es[k + 1..]) == Requests(acc, es)[..k] + Requests(acc, es)[k + 1..]
  {
    hide RequestOf;
  }
}
