/**
 * The second implementation of the repository: no `by_seq` index, only an insertion-ordered map that a query
 * scans in full. Each method is tied to the same function as its indexed counterpart, so the two agree.
 */
module KnowledgeScanStore {
  import opened Common
  import opened Text
  import opened KnowledgeEvents
  import opened KnowledgeStore

  /** `order` lists the keys of `records` by insertion, which is also by ascending sequence number. */
  ghost predicate OrderedMap(svc: Service, records: map<Id, Record>, order: seq<Id>, highWater: nat) {
    && (forall id :: id in records <==> id in order)
    && (forall i | 0 <= i < |order| :: order[i] in records)
    && (forall i, j | 0 <= i < j < |order| :: records[order[i]].seqNo < records[order[j]].seqNo)
    && highWater <= MAX_SAFE
    && forall id | id in records ::
         && records[id].envelope.hash == id && svc.verifies(records[id].envelope) && SafeTime(records[id].acceptedAt)
         && 1 <= records[id].seqNo <= highWater
  }

  lemma SequenceNumbersAreDistinct(svc: Service, records: map<Id, Record>, order: seq<Id>, highWater: nat, a: Id, b: Id)
    requires OrderedMap(svc, records, order, highWater)
    requires a in records && b in records && records[a].seqNo == records[b].seqNo
    ensures a == b
  {
  }

  /** The index that the scanning store does without. */
  ghost function IndexOf(svc: Service, records: map<Id, Record>, order: seq<Id>, highWater: nat): map<nat, Id>
    requires OrderedMap(svc, records, order, highWater)
  {
    assert forall a, b | a in records && b in records && records[a].seqNo == records[b].seqNo :: a == b by {
      forall a, b | a in records && b in records && records[a].seqNo == records[b].seqNo
        ensures a == b
      {
        SequenceNumbersAreDistinct(svc, records, order, highWater, a, b);
      }
    }
    map id | id in records :: records[id].seqNo := id
  }

  /** The entries a scan keeps: inside the window, not hidden, matching. */
  predicate Kept(r: Record, hidden: set<Id>, filters: Filters, last: nat, checkpoint: nat) {
    last < r.seqNo <= checkpoint && r.envelope.hash !in hidden && Matches(r.envelope.event, filters)
  }

  ghost function FullScan(
    records: map<Id, Record>, order: seq<Id>, hidden: set<Id>, filters: Filters, last: nat, checkpoint: nat)
    : seq<Record>
    requires forall i | 0 <= i < |order| :: order[i] in records
  {
    if order == [] then []
    else
      var n := |order| - 1;
      FullScan(records, order[..n], hidden, filters, last, checkpoint)
      + if Kept(records[order[n]], hidden, filters, last, checkpoint) then [records[order[n]]] else []
  }

  lemma {:induction false} FullScanIsExact(
    svc: Service, records: map<Id, Record>, order: seq<Id>, hidden: set<Id>, filters: Filters, last: nat,
    checkpoint: nat)
    requires forall i | 0 <= i < |order| :: order[i] in records && records[order[i]].envelope.hash == order[i]
    requires forall i, j | 0 <= i < j < |order| :: records[order[i]].seqNo < records[order[j]].seqNo
    ensures var found := FullScan(records, order, hidden, filters, last, checkpoint);
      && Ascending(found)
      && (forall r :: r in found <==>
            && r.envelope.hash in order && records[r.envelope.hash] == r
            && Kept(r, hidden, filters, last, checkpoint))
  {
    hide Matches, Kept;
    if order != [] {
      var n := |order| - 1;
      FullScanIsExact(svc, records, order[..n], hidden, filters, last, checkpoint);
      var before := FullScan(records, order[..n], hidden, filters, last, checkpoint);
      var found := FullScan(records, order, hidden, filters, last, checkpoint);
      var newest := records[order[n]];
      forall r | r in before
        ensures r.seqNo < newest.seqNo
      {
        var i :| 0 <= i < n && order[..n][i] == r.envelope.hash;
      }
      assert order == order[..n] + [order[n]];
      forall i | 0 <= i < |before|
        ensures before[i].seqNo < newest.seqNo
      {
        assert before[i] in before;
      }
    }
  }

  lemma OrderedMapInv(svc: Service, records: map<Id, Record>, order: seq<Id>, hidden: set<Id>, highWater: nat)
    requires OrderedMap(svc, records, order, highWater) && hidden <= records.Keys
    ensures Inv(svc, State(records, IndexOf(svc, records, order, highWater), hidden, highWater))
  {
  }

  /** The full scan of the ordered map is the index walk of the same repository. */
  lemma FullScanIsIndexedScan(
    svc: Service, records: map<Id, Record>, order: seq<Id>, hidden: set<Id>, highWater: nat,
    filters: Filters, last: nat, checkpoint: nat)
    requires OrderedMap(svc, records, order, highWater) && hidden <= records.Keys
    ensures Inv(svc, State(records, IndexOf(svc, records, order, highWater), hidden, highWater))
    ensures FullScan(records, order, hidden, filters, last, checkpoint)
         == Scan(State(records, IndexOf(svc, records, order, highWater), hidden, highWater), filters, last, checkpoint)
  {
    hide Matches, IndexOf, Inv, FullScan, Scan;
    var s := State(records, IndexOf(svc, records, order, highWater), hidden, highWater);
    OrderedMapInv(svc, records, order, hidden, highWater);
    FullScanIsExact(svc, records, order, hidden, filters, last, checkpoint);
    ScanIsExact(svc, s, filters, last, checkpoint);
    AscendingListsAgree(FullScan(records, order, hidden, filters, last, checkpoint),
        Scan(s, filters, last, checkpoint));
  }

  function Without(order: seq<Id>, id: Id): seq<Id> {
    if order == [] then []
    else Without(order[..|order| - 1], id) + if order[|order| - 1] == id then [] else [order[|order| - 1]]
  }

  lemma {:induction false} WithoutKeepsOrder(records: map<Id, Record>, order: seq<Id>, id: Id)
    requires forall i | 0 <= i < |order| :: order[i] in records
    requires forall i, j | 0 <= i < j < |order| :: records[order[i]].seqNo < records[order[j]].seqNo
    ensures forall other :: other in Without(order, id) <==> other in order && other != id
    ensures forall i | 0 <= i < |Without(order, id)| :: Without(order, id)[i] in records
    ensures forall i, j | 0 <= i < j < |Without(order, id)| ::
              records[Without(order, id)[i]].seqNo < records[Without(order, id)[j]].seqNo
  {
    if order != [] {
      var n := |order| - 1;
      WithoutKeepsOrder(records, order[..n], id);
      var before := Without(order[..n], id);
      assert order == order[..n] + [order[n]];
      forall i | 0 <= i < |before|
        ensures before[i] in records && records[before[i]].seqNo < records[order[n]].seqNo
      {
        assert before[i] in before;
        var j :| 0 <= j < n && order[..n][j] == before[i];
      }
    }
  }

  lemma AppendKeepsOrder(svc: Service, records: map<Id, Record>, order: seq<Id>, highWater: nat, r: Record)
    requires OrderedMap(svc, records, order, highWater) && highWater < MAX_SAFE
    requires r.envelope.hash !in records && r.seqNo == highWater + 1
    requires svc.verifies(r.envelope) && SafeTime(r.acceptedAt)
    ensures OrderedMap(svc, records[r.envelope.hash := r], order + [r.envelope.hash], r.seqNo)
  {
  }

  lemma AppendIsInsert(svc: Service, records: map<Id, Record>, order: seq<Id>, highWater: nat, r: Record)
    requires OrderedMap(svc, records, order, highWater) && highWater < MAX_SAFE
    requires r.envelope.hash !in records && r.seqNo == highWater + 1
    requires svc.verifies(r.envelope) && SafeTime(r.acceptedAt)
    ensures var id := r.envelope.hash;
      && OrderedMap(svc, records[id := r], order + [id], r.seqNo)
      && IndexOf(svc, records[id := r], order + [id], r.seqNo) == IndexOf(svc, records, order, highWater)[r.seqNo := id]
  {
    hide OrderedMap, IndexOf;
    AppendKeepsOrder(svc, records, order, highWater, r);
    var id := r.envelope.hash;
    var records', order' := records[id := r], order + [id];
    var before, after := IndexOf(svc, records, order, highWater), IndexOf(svc, records', order', r.seqNo);
    forall n: nat
      ensures n in after <==> n in before[r.seqNo := id]
      ensures n in after ==> after[n] == before[r.seqNo := id][n]
    {
      AppendAt(svc, records, order, highWater, r, n);
    }
    assert after == before[r.seqNo := id];
  }

  lemma AppendAt(svc: Service, records: map<Id, Record>, order: seq<Id>, highWater: nat, r: Record, n: nat)
    requires OrderedMap(svc, records, order, highWater)
    requires r.envelope.hash !in records && r.seqNo == highWater + 1
    requires OrderedMap(svc, records[r.envelope.hash := r], order + [r.envelope.hash], r.seqNo)
    ensures var before := IndexOf(svc, records, order, highWater);
      var after := IndexOf(svc, records[r.envelope.hash := r], order + [r.envelope.hash], r.seqNo);
      && (n in after <==> n == r.seqNo || n in before)
      && (n == r.seqNo ==> after[n] == r.envelope.hash)
      && (n != r.seqNo && n in after ==> after[n] == before[n])
  {
  }

  lemma RemovalKeepsOrder(svc: Service, records: map<Id, Record>, order: seq<Id>, highWater: nat, id: Id)
    requires OrderedMap(svc, records, order, highWater)
    ensures OrderedMap(svc, records - {id}, Without(order, id), highWater)
  {
    WithoutKeepsOrder(records, order, id);
    var order' := Without(order, id);
    assert forall i | 0 <= i < |order'| :: order'[i] in order';
  }

  lemma IndexEntry(svc: Service, records: map<Id, Record>, order: seq<Id>, highWater: nat, n: nat, id: Id)
    requires OrderedMap(svc, records, order, highWater)
    ensures var index := IndexOf(svc, records, order, highWater);
      (n in index && index[n] == id) <==> (id in records && records[id].seqNo == n)
  {
  }

  lemma RemovalAt(svc: Service, records: map<Id, Record>, order: seq<Id>, highWater: nat, id: Id, n: nat)
    requires OrderedMap(svc, records, order, highWater)
    requires OrderedMap(svc, records - {id}, Without(order, id), highWater)
    ensures var before := IndexOf(svc, records, order, highWater);
      var after := IndexOf(svc, records - {id}, Without(order, id), highWater);
      && (n in after <==> n in before && before[n] != id)
      && (n in after ==> after[n] == before[n])
      && (n in before ==> (before[n] == id <==> id in records && n == records[id].seqNo))
  {
    var before := IndexOf(svc, records, order, highWater);
    var after := IndexOf(svc, records - {id}, Without(order, id), highWater);
    if n in before {
      IndexEntry(svc, records, order, highWater, n, before[n]);
      IndexEntry(svc, records - {id}, Without(order, id), highWater, n, before[n]);
    }
    if n in after {
      IndexEntry(svc, records - {id}, Without(order, id), highWater, n, after[n]);
      IndexEntry(svc, records, order, highWater, n, after[n]);
    }
    IndexEntry(svc, records, order, highWater, n, id);
  }

  lemma RemovalIsPrune(svc: Service, records: map<Id, Record>, order: seq<Id>, highWater: nat, id: Id)
    requires OrderedMap(svc, records, order, highWater)
    ensures OrderedMap(svc, records - {id}, Without(order, id), highWater)
    ensures IndexOf(svc, records - {id}, Without(order, id), highWater)
         == if id in records then IndexOf(svc, records, order, highWater) - {records[id].seqNo}
            else IndexOf(svc, records, order, highWater)
  {
    hide OrderedMap, IndexOf, Without;
    RemovalKeepsOrder(svc, records, order, highWater, id);
    var before := IndexOf(svc, records, order, highWater);
    var after := IndexOf(svc, records - {id}, Without(order, id), highWater);
    var expected := if id in records then before - {records[id].seqNo} else before;
    forall n: nat
      ensures n in after <==> n in expected
      ensures n in after ==> after[n] == expected[n]
    {
      RemovalAt(svc, records, order, highWater, id, n);
    }
    assert after == expected;
  }

  /** As the indexed store submits, except that a bad clock is refused before anything else is looked at. */
  function ScanSubmitted(svc: Service, s: State, item: Envelope, now: int): (State, Result<Record, Error>) {
    if SafeTime(now) then Submitted(svc, s, item, now) else (s, Err(InvalidRequest))
  }

  /** The two stores differ exactly under a bad clock, on an envelope that is invalid or already retained. */
  lemma SubmissionsDifferIff(svc: Service, s: State, item: Envelope, now: int)
    ensures ScanSubmitted(svc, s, item, now) != Submitted(svc, s, item, now) <==>
              !SafeTime(now) && (!svc.verifies(item) || item.hash in s.records)
    ensures ScanSubmitted(svc, s, item, now).0 == Submitted(svc, s, item, now).0
  {
    hide CheckDependencies;
  }

  class ScanStore {
    const svc: Service
    var records: map<Id, Record>
    var order: seq<Id>
    var hidden: set<Id>
    var highWater: nat

    ghost predicate Valid()
      reads this
    {
      OrderedMap(svc, records, order, highWater) && hidden <= records.Keys && svc.futureSkew >= 0
    }

    /** The repository this store represents, as the indexed store would hold it. */
    ghost function Contents(): State
      requires Valid()
      reads this
    {
      State(records, IndexOf(svc, records, order, highWater), hidden, highWater)
    }

    constructor (svc: Service)
      requires 0 <= svc.futureSkew <= MAX_SAFE
      ensures Valid() && this.svc == svc && Contents() == EMPTY
    {
      this.svc := svc;
      records, order, hidden, highWater := map[], [], {}, 0;
    }

    method SubmitEvent(item: Envelope, now: int) returns (r: Result<Record, Error>)
      requires Valid()
      modifies this
      ensures Valid()
      ensures (Contents(), r) == ScanSubmitted(svc, old(Contents()), item, now)
    {
      if !SafeTime(now) {
        return Err(InvalidRequest);
      }
      if !svc.verifies(item) {
        return Err(InvalidEvent);
      }
      if item.hash in records {
        return Ok(records[item.hash]);
      }
      if item.event.createdAt > SaturatingAdd(now, svc.futureSkew) {
        return Err(TimestampOutOfWindow);
      }
      var dependencies := CheckDependencies(item.event, map id | id in records :: records[id].envelope);
      if dependencies.Err? {
        return Err(BadDependency(dependencies.error));
      }
      if svc.encodedSize(item) > svc.maxEnvelopeBytes {
        return Err(PayloadTooLarge);
      }
      if highWater == MAX_SAFE {
        return Err(SequenceExhausted);
      }
      if !svc.admits(item) {
        return Err(NotAdmitted);
      }
      var record := Record(item, now, highWater + 1);
      AppendIsInsert(svc, records, order, highWater, record);
      highWater := highWater + 1;
      records, order := records[item.hash := record], order + [item.hash];
      r := Ok(record);
    }

    method HideEvent(id: Id)
      requires Valid()
      modifies this
      ensures Valid() && Contents() == Hidden(old(Contents()), id)
    {
      if id in records {
        hidden := hidden + {id};
      }
    }

    method UnhideEvent(id: Id)
      requires Valid()
      modifies this
      ensures Valid() && Contents() == Unhidden(old(Contents()), id)
    {
      hidden := hidden - {id};
    }

    method PruneEvent(id: Id)
      requires Valid()
      modifies this
      ensures Valid() && Contents() == Pruned(old(Contents()), id)
    {
      RemovalIsPrune(svc, records, order, highWater, id);
      if id !in records {
        assert records - {id} == records;
      }
      records, order, hidden := records - {id}, Without(order, id), hidden - {id};
    }

    /** Looks at every record and skips those outside the window, hidden, or not matching. */
    method Query(request: QueryRequest, now: int) returns (r: Result<Response, Error>)
      requires Valid()
      ensures r == Queried(svc, Contents(), request, now)
    {
      hide Matches, FiltersValid, Split, ParseDecimal, AllDigits, Join, Decimal, OrderedMap, IndexOf, FullScan, Scan,
          Inv;
      if !RequestValid(request) {
        return Err(InvalidRequest);
      }
      var binding := BindingOf(request);
      var digest := svc.digest(binding);
      var start := Position(highWater, now, binding.after);
      if request.cursor.Some? {
        var decoded := DecodeCursor(EMPTY.(highWater := highWater), request.cursor.value, digest, binding.after);
        if decoded.Err? {
          return Err(decoded.error);
        }
        start := decoded.value;
      } else if binding.after > highWater || !SafeTime(now) {
        return Err(InvalidRequest);
      }
      var result, more := Collect(binding.filters, binding.limit, start);
      FullScanIsIndexedScan(svc, records, order, hidden, highWater, binding.filters, start.last, start.checkpoint);
      var nextCursor := None;
      if more {
        nextCursor := Some(FormatCursor(start.(last := result[|result| - 1].seqNo), digest));
      }
      r := Ok(Response(result, svc.origin, start.checkpoint, start.asOf, nextCursor));
    }

    method Collect(filters: Filters, limit: nat, start: Position) returns (result: seq<Record>, more: bool)
      requires Valid()
      ensures var found := FullScan(records, order, hidden, filters, start.last, start.checkpoint);
        if |found| <= limit then result == found && !more else result == found[..limit] && more
    {
      hide OrderedMap, FullScan, Kept;
      assert forall j | 0 <= j < |order| :: order[j] in records by {
        EntriesAreRecords();
      }
      result, more := [], false;
      ghost var found := FullScan(records, order, hidden, filters, start.last, start.checkpoint);
      FullScanBegins(filters, start.last, start.checkpoint);
      var i := 0;
      while i < |order| && !more
        invariant 0 <= i <= |order| && |result| <= limit
        invariant !more ==> result == FullScan(records, order[..i], hidden, filters, start.last, start.checkpoint)
        invariant more ==> |found| > limit && result == found[..limit]
        decreases |order| - i
      {
        var record := records[order[i]];
        FullScanStep(i, filters, start.last, start.checkpoint);
        if Kept(record, hidden, filters, start.last, start.checkpoint) {
          if |result| == limit {
            FullScanGrows(i + 1, filters, start.last, start.checkpoint);
            more := true;
          } else {
            result := result + [record];
          }
        }
        i := i + 1;
      }
      assert order[..|order|] == order;
    }

    lemma EntriesAreRecords()
      requires Valid()
      ensures forall j | 0 <= j < |order| :: order[j] in records
    {
    }

    lemma FullScanBegins(filters: Filters, last: nat, checkpoint: nat)
      requires Valid()
      ensures FullScan(records, order[..0], hidden, filters, last, checkpoint) == []
    {
    }

    lemma FullScanStep(i: nat, filters: Filters, last: nat, checkpoint: nat)
      requires Valid() && i < |order|
      ensures FullScan(records, order[..i + 1], hidden, filters, last, checkpoint)
           == FullScan(records, order[..i], hidden, filters, last, checkpoint)
              + if Kept(records[order[i]], hidden, filters, last, checkpoint) then [records[order[i]]] else []
    {
      assert order[..i + 1][..i] == order[..i];
    }

    lemma {:induction false} FullScanGrows(i: nat, filters: Filters, last: nat, checkpoint: nat)
      requires Valid() && i <= |order|
      ensures FullScan(records, order[..i], hidden, filters, last, checkpoint)
           <= FullScan(records, order, hidden, filters, last, checkpoint)
      decreases |order| - i
    {
      if i == |order| {
        assert order[..i] == order;
      } else {
        FullScanStep(i, filters, last, checkpoint);
        FullScanGrows(i + 1, filters, last, checkpoint);
      }
    }
  }
}
