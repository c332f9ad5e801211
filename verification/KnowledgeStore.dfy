/**
 * The in-memory knowledge repository: acceptance, visibility, pruning, and checkpoint-bound queries.
 *
 * `State` and the functions over it say what each operation does to the repository as a value; the class
 * `KnowledgeStore` is the mutable repository with its `by_seq` index, each method tied to one of them.
 */
module KnowledgeStore {
  import opened Common
  import opened Text
  import opened KnowledgeEvents

  datatype Record = Record(envelope: Envelope, acceptedAt: int, seqNo: nat)

  /** Cryptography, sizes and local policy are parameters; only `digest` needs a law (see `DigestIsText`). */
  datatype Service = Service(
    origin: string,
    verifies: Envelope -> bool,
    encodedSize: Envelope -> nat,
    admits: Envelope -> bool,
    digest: Binding -> string,
    futureSkew: int,
    maxEnvelopeBytes: nat)

  /** A query digest is base64url text, so it never contains the cursor separator. */
  ghost predicate DigestIsText(svc: Service) {
    forall b: Binding :: '.' !in svc.digest(b)
  }

  datatype Error =
    | InvalidEvent | InvalidRequest | TimestampOutOfWindow | BadDependency(why: DependencyError)
    | PayloadTooLarge | SequenceExhausted | NotAdmitted | InvalidCursor

  datatype State = State(records: map<Id, Record>, bySeq: map<nat, Id>, hidden: set<Id>, highWater: nat)

  const EMPTY := State(map[], map[], {}, 0)

  ghost predicate Inv(svc: Service, s: State) {
    && s.highWater <= MAX_SAFE
    && s.hidden <= s.records.Keys
    && (forall id | id in s.records ::
          && s.records[id].envelope.hash == id
          && svc.verifies(s.records[id].envelope)
          && SafeTime(s.records[id].acceptedAt)
          && 1 <= s.records[id].seqNo <= s.highWater
          && s.records[id].seqNo in s.bySeq
          && s.bySeq[s.records[id].seqNo] == id)
    && (forall n | n in s.bySeq :: s.bySeq[n] in s.records && s.records[s.bySeq[n]].seqNo == n)
  }

  function Envelopes(s: State): map<Id, Envelope> {
    map id | id in s.records :: s.records[id].envelope
  }

  // ---- Mutations ----------------------------------------------------------

  /** Every check of a submission that is not a resubmission, in order. */
  function SubmitRefusal(svc: Service, s: State, item: Envelope, now: int): Option<Error> {
    if !SafeTime(now) || svc.futureSkew < 0 then Some(InvalidRequest)
    else if item.event.createdAt > SaturatingAdd(now, svc.futureSkew) then Some(TimestampOutOfWindow)
    else
      var dependencies := CheckDependencies(item.event, Envelopes(s));
      if dependencies.Err? then Some(BadDependency(dependencies.error))
      else if svc.encodedSize(item) > svc.maxEnvelopeBytes then Some(PayloadTooLarge)
      else if s.highWater == MAX_SAFE then Some(SequenceExhausted)
      else if !svc.admits(item) then Some(NotAdmitted)
      else None
  }

  function Insert(s: State, item: Envelope, now: int): State {
    State(s.records[item.hash := Record(item, now, s.highWater + 1)], s.bySeq[s.highWater + 1 := item.hash],
        s.hidden, s.highWater + 1)
  }

  function Submitted(svc: Service, s: State, item: Envelope, now: int): (State, Result<Record, Error>) {
    if !svc.verifies(item) then (s, Err(InvalidEvent))
    else if item.hash in s.records then (s, Ok(s.records[item.hash]))
    else
      var refusal := SubmitRefusal(svc, s, item, now);
      if refusal.Some? then (s, Err(refusal.value))
      else (Insert(s, item, now), Ok(Record(item, now, s.highWater + 1)))
  }

  function Hidden(s: State, id: Id): State {
    if id in s.records then s.(hidden := s.hidden + {id}) else s
  }

  function Unhidden(s: State, id: Id): State {
    s.(hidden := s.hidden - {id})
  }

  function Pruned(s: State, id: Id): State {
    if id in s.records then
      State(s.records - {id}, s.bySeq - {s.records[id].seqNo}, s.hidden - {id}, s.highWater)
    else s.(hidden := s.hidden - {id})
  }

  datatype Op = Submit(item: Envelope, now: int) | Hide(id: Id) | Unhide(id: Id) | Prune(id: Id)

  function Apply(svc: Service, s: State, op: Op): State {
    match op
    case Submit(item, now) => Submitted(svc, s, item, now).0
    case Hide(id) => Hidden(s, id)
    case Unhide(id) => Unhidden(s, id)
    case Prune(id) => Pruned(s, id)
  }

  function Run(svc: Service, s: State, ops: seq<Op>): State
    decreases |ops|
  {
    if ops == [] then s else Run(svc, Apply(svc, s, ops[0]), ops[1..])
  }

  /**
   * What any later state keeps of an earlier one: the high-water mark only rises, and whatever still sits at
   * or below the earlier mark is exactly what was there then. A pruned event that comes back comes back above.
   */
  ghost predicate Evolves(s: State, t: State) {
    && s.highWater <= t.highWater
    && forall id | id in t.records && t.records[id].seqNo <= s.highWater ::
        id in s.records && s.records[id] == t.records[id]
  }

  /** What a submission that changes the repository must have passed. */
  lemma ApplySubmit(svc: Service, s: State, item: Envelope, now: int)
    ensures var t := Submitted(svc, s, item, now).0;
      t == s || (
        && t == Insert(s, item, now) && svc.verifies(item) && item.hash !in s.records
        && SafeTime(now) && s.highWater != MAX_SAFE)
  {
  }

  /** Whatever the order of the checks: what is accepted, under which number, and what a resubmission gets. */
  lemma AcceptedIff(svc: Service, s: State, item: Envelope, now: int)
    ensures Submitted(svc, s, item, now).1.Ok? <==>
              && svc.verifies(item)
              && (|| item.hash in s.records
                  || (&& SafeTime(now) && 0 <= svc.futureSkew && s.highWater != MAX_SAFE
                      && item.event.createdAt <= now + svc.futureSkew && item.event.createdAt <= I64_MAX
                      && FitsItsTargets(item.event, Envelopes(s))
                      && svc.encodedSize(item) <= svc.maxEnvelopeBytes && svc.admits(item)))
    ensures Submitted(svc, s, item, now).1.Ok? ==>
              Submitted(svc, s, item, now).1.value ==
                if item.hash in s.records then s.records[item.hash] else Record(item, now, s.highWater + 1)
    ensures Submitted(svc, s, item, now).1.Ok? ==>
              Envelopes(Submitted(svc, s, item, now).0)
                == if item.hash in s.records then Envelopes(s) else Envelopes(s)[item.hash := item]
    ensures Submitted(svc, s, item, now).1.Ok? ==>
              var t := Submitted(svc, s, item, now).0;
              item.hash in t.records && t.records[item.hash] == Submitted(svc, s, item, now).1.value
    ensures Submitted(svc, s, item, now).1.Err? ==> Submitted(svc, s, item, now).0 == s
  {
    hide CheckDependencies, FitsItsTargets;
    CheckedIff(item.event, Envelopes(s));
  }

  lemma ApplyKeepsInv(svc: Service, s: State, op: Op)
    requires Inv(svc, s)
    ensures Inv(svc, Apply(svc, s, op)) && Evolves(s, Apply(svc, s, op))
  {
    hide CheckDependencies, SubmitRefusal;
    var t := Apply(svc, s, op);
    if op.Submit? {
      ApplySubmit(svc, s, op.item, op.now);
    }
    if op.Prune? && op.id in s.records {
      forall n | n in t.bySeq
        ensures t.bySeq[n] in t.records && t.records[t.bySeq[n]].seqNo == n
      {
        assert s.bySeq[s.records[op.id].seqNo] == op.id;
      }
    }
  }

  lemma {:induction false} RunKeepsInv(svc: Service, s: State, ops: seq<Op>)
    requires Inv(svc, s)
    ensures Inv(svc, Run(svc, s, ops)) && Evolves(s, Run(svc, s, ops))
    decreases |ops|
  {
    if ops != [] {
      ApplyKeepsInv(svc, s, ops[0]);
      RunKeepsInv(svc, Apply(svc, s, ops[0]), ops[1..]);
    }
  }

  // ---- Queries ------------------------------------------------------------

  datatype QueryRequest = QueryRequest(
    filters: Filters, afterSeq: Option<nat>, limit: Option<nat>, cursor: Option<string>)

  predicate RequestValid(request: QueryRequest) {
    && FiltersValid(request.filters)
    && (request.afterSeq.Some? ==> request.afterSeq.value <= MAX_SAFE)
    && (request.limit.Some? ==> 1 <= request.limit.value <= 1000)
    && request.cursor != Some("")
  }

  /** What a cursor is bound to: the effective query, without its cursor and with defaults applied. */
  datatype Binding = Binding(filters: Filters, limit: nat, after: nat)

  function BindingOf(request: QueryRequest): Binding {
    Binding(request.filters, request.limit.GetOr(100), request.afterSeq.GetOr(0))
  }

  datatype Response = Response(
    result: seq<Record>, service: string, checkpoint: nat, asOf: int, nextCursor: Option<string>)

  datatype Position = Position(checkpoint: nat, asOf: int, last: nat)

  function FormatCursor(p: Position, digest: string): string {
    Join([Decimal(p.checkpoint), Decimal(p.asOf), Decimal(p.last), digest], '.')
  }

  predicate CursorNumber(part: string) {
    1 <= |part| <= 16 && AllDigits(part)
  }

  function DecodeCursor(s: State, cursor: string, digest: string, after: nat): Result<Position, Error> {
    var parts := Split(cursor, '.');
    if |parts| != 4 || parts[3] != digest || !CursorNumber(parts[0]) || !CursorNumber(parts[1])
        || !CursorNumber(parts[2])
    then Err(InvalidCursor)
    else
      var p := Position(ParseDecimal(parts[0]), ParseDecimal(parts[1]), ParseDecimal(parts[2]));
      if !(after <= p.last <= p.checkpoint <= s.highWater) || p.asOf > MAX_SAFE then Err(InvalidCursor)
      else Ok(p)
  }

  lemma CursorRoundTrip(s: State, p: Position, digest: string, after: nat)
    requires after <= p.last <= p.checkpoint <= s.highWater <= MAX_SAFE && SafeTime(p.asOf)
    requires '.' !in digest
    ensures DecodeCursor(s, FormatCursor(p, digest), digest, after) == Ok(p)
    ensures FormatCursor(p, digest) != ""
  {
    hide Split, ParseDecimal, Decimal, Pow10;
    SafeIntegersFitSixteenDigits();
    DecimalRoundTrip(p.checkpoint, 16);
    DecimalRoundTrip(p.asOf, 16);
    DecimalRoundTrip(p.last, 16);
    var parts := [Decimal(p.checkpoint), Decimal(p.asOf), Decimal(p.last), digest];
    assert SeparatorFree(parts, '.');
    SplitJoin(parts, '.');
  }

  predicate Visible(s: State, id: Id) {
    id in s.records && id !in s.hidden
  }

  /** The reference answer: visible matching records with `last < seqNo <= checkpoint`, by ascending `seqNo`. */
  function Scan(s: State, filters: Filters, last: nat, checkpoint: nat): seq<Record>
    decreases checkpoint - last
  {
    if last >= checkpoint then []
    else Selected(s, filters, last + 1) + Scan(s, filters, last + 1, checkpoint)
  }

  function Selected(s: State, filters: Filters, n: nat): seq<Record> {
    if n in s.bySeq && Visible(s, s.bySeq[n]) && Matches(s.records[s.bySeq[n]].envelope.event, filters)
    then [s.records[s.bySeq[n]]]
    else []
  }

  function StartPosition(svc: Service, s: State, request: QueryRequest, now: int): Result<Position, Error> {
    var binding := BindingOf(request);
    if request.cursor.Some? then DecodeCursor(s, request.cursor.value, svc.digest(binding), binding.after)
    else if binding.after > s.highWater then Err(InvalidRequest)
    else Ok(Position(s.highWater, now, binding.after))
  }

  function Page(svc: Service, s: State, request: QueryRequest, p: Position): Response
    requires BindingOf(request).limit >= 1
  {
    var binding := BindingOf(request);
    var found := Scan(s, binding.filters, p.last, p.checkpoint);
    if |found| <= binding.limit then Response(found, svc.origin, p.checkpoint, p.asOf, None)
    else
      var next := p.(last := found[binding.limit - 1].seqNo);
      Response(found[..binding.limit], svc.origin, p.checkpoint, p.asOf, Some(FormatCursor(next, svc.digest(binding))))
  }

  function Queried(svc: Service, s: State, request: QueryRequest, now: int): Result<Response, Error> {
    if !RequestValid(request) then Err(InvalidRequest)
    else
      var start := StartPosition(svc, s, request, now);
      if start.Err? then Err(start.error)
      else if !SafeTime(start.value.asOf) then Err(InvalidRequest)
      else Ok(Page(svc, s, request, start.value))
  }

  /** Whether a submission puts a new record into the repository. */
  predicate Adds(svc: Service, s: State, op: Op) {
    op.Submit? && op.item.hash !in s.records && Submitted(svc, s, op.item, op.now).1.Ok?
  }

  /** What each operation does to what is retained and what is shown; a pruned event that comes back is shown again. */
  lemma VisibilityFollows(svc: Service, s: State, op: Op, id: Id)
    requires Inv(svc, s)
    ensures var t := Apply(svc, s, op);
      && t.highWater == s.highWater + (if Adds(svc, s, op) then 1 else 0)
      && (id in t.records <==>
            (id in s.records && op != Prune(id)) || (Adds(svc, s, op) && op.item.hash == id))
      && (Visible(t, id) <==>
            || (Visible(s, id) && op != Prune(id) && op != Hide(id))
            || (op == Unhide(id) && id in s.records)
            || (Adds(svc, s, op) && op.item.hash == id))
  {
    hide CheckDependencies, SubmitRefusal;
  }

  // ---- What a scan returns ------------------------------------------------

  ghost predicate Ascending(records: seq<Record>) {
    forall i, j | 0 <= i < j < |records| :: records[i].seqNo < records[j].seqNo
  }

  /** What it means for a record to answer a query over the window `(last, checkpoint]`, without any index. */
  ghost predicate Answers(s: State, filters: Filters, last: nat, checkpoint: nat, r: Record) {
    && last < r.seqNo <= checkpoint
    && Visible(s, r.envelope.hash) && s.records[r.envelope.hash] == r
    && Matches(r.envelope.event, filters)
  }

  lemma {:induction false} ScanIsExact(svc: Service, s: State, filters: Filters, last: nat, checkpoint: nat)
    requires Inv(svc, s)
    ensures Ascending(Scan(s, filters, last, checkpoint))
    ensures forall r :: r in Scan(s, filters, last, checkpoint) <==> Answers(s, filters, last, checkpoint, r)
    decreases checkpoint - last
  {
    if last < checkpoint {
      ScanIsExact(svc, s, filters, last + 1, checkpoint);
      var head, tail := Selected(s, filters, last + 1), Scan(s, filters, last + 1, checkpoint);
      forall r: Record
        ensures r in head + tail <==> Answers(s, filters, last, checkpoint, r)
      {
        assert r in head + tail <==> r in head || r in tail;
      }
      assert forall i | 0 <= i < |tail| :: tail[i] in tail;
    }
  }

  lemma {:induction false} ScanConcatenates(s: State, filters: Filters, a: nat, b: nat, c: nat)
    requires a <= b <= c
    ensures Scan(s, filters, a, c) == Scan(s, filters, a, b) + Scan(s, filters, b, c)
    decreases b - a
  {
    if a < b {
      ScanConcatenates(s, filters, a + 1, b, c);
    }
  }

  lemma FirstIsMember(records: seq<Record>)
    ensures records != [] ==> records[0] in records
  {
  }

  lemma FirstRecordsAgree(a: seq<Record>, b: seq<Record>)
    requires Ascending(a) && Ascending(b) && a != [] && b != []
    requires a[0] in b && b[0] in a
    ensures a[0] == b[0]
  {
  }

  /** Two ascending lists with the same records are the same list. */
  lemma {:induction false} AscendingListsAgree(a: seq<Record>, b: seq<Record>)
    requires Ascending(a) && Ascending(b)
    requires forall r :: r in a <==> r in b
    ensures a == b
  {
    FirstIsMember(a);
    FirstIsMember(b);
    if a != [] && b != [] {
      FirstRecordsAgree(a, b);
      var first := a[0];
      forall r: Record
        ensures r in a[1..] <==> r in b[1..]
      {
        TailMember(a, r);
        TailMember(b, r);
      }
      AscendingListsAgree(a[1..], b[1..]);
      assert a == [first] + a[1..] && b == [first] + b[1..];
    }
  }

  lemma TailMember(records: seq<Record>, r: Record)
    requires Ascending(records) && records != []
    ensures r in records[1..] <==> r in records && r != records[0]
  {
  }

  // ---- The mutable repository ---------------------------------------------

  class KnowledgeStore {
    const svc: Service
    var records: map<Id, Record>
    var bySeq: map<nat, Id>
    var hidden: set<Id>
    var highWater: nat

    ghost function Contents(): State
      reads this
    {
      State(records, bySeq, hidden, highWater)
    }

    ghost predicate Valid()
      reads this
    {
      Inv(svc, Contents())
    }

    constructor (svc: Service)
      ensures Valid() && this.svc == svc && Contents() == EMPTY
    {
      this.svc := svc;
      records, bySeq, hidden, highWater := map[], map[], {}, 0;
    }

    method SubmitEvent(item: Envelope, now: int) returns (r: Result<Record, Error>)
      requires Valid()
      modifies this
      ensures Valid() && Evolves(old(Contents()), Contents())
      ensures (Contents(), r) == Submitted(svc, old(Contents()), item, now)
    {
      hide CheckDependencies, Inv, Evolves;
      ApplyKeepsInv(svc, Contents(), Submit(item, now));
      if !svc.verifies(item) {
        return Err(InvalidEvent);
      }
      if item.hash in records {
        return Ok(records[item.hash]);
      }
      if !SafeTime(now) || svc.futureSkew < 0 {
        return Err(InvalidRequest);
      }
      if item.event.createdAt > SaturatingAdd(now, svc.futureSkew) {
        return Err(TimestampOutOfWindow);
      }
      var dependencies := CheckDependencies(item.event, map id | id in records :: records[id].envelope);
      if dependencies.Err? {
        return Err(BadDependency(dependencies.error));
      }
      if svc.encodedSize(item) > svc.maxEnvelopeBytes {
        return Err(PayloadTooLarge);
      }
      if highWater == MAX_SAFE {
        return Err(SequenceExhausted);
      }
      if !svc.admits(item) {
        return Err(NotAdmitted);
      }
      highWater := highWater + 1;
      var record := Record(item, now, highWater);
      records := records[item.hash := record];
      bySeq := bySeq[highWater := item.hash];
      r := Ok(record);
    }

    method HideEvent(id: Id)
      requires Valid()
      modifies this
      ensures Valid() && Contents() == Hidden(old(Contents()), id)
    {
      ApplyKeepsInv(svc, Contents(), Hide(id));
      if id in records {
        hidden := hidden + {id};
      }
    }

    method UnhideEvent(id: Id)
      requires Valid()
      modifies this
      ensures Valid() && Contents() == Unhidden(old(Contents()), id)
    {
      ApplyKeepsInv(svc, Contents(), Unhide(id));
      hidden := hidden - {id};
    }

    method PruneEvent(id: Id)
      requires Valid()
      modifies this
      ensures Valid() && Contents() == Pruned(old(Contents()), id)
    {
      ApplyKeepsInv(svc, Contents(), Prune(id));
      if id in records {
        bySeq := bySeq - {records[id].seqNo};
        records := records - {id};
      }
      hidden := hidden - {id};
    }

    method Query(request: QueryRequest, now: int) returns (r: Result<Response, Error>)
      ensures r == Queried(svc, Contents(), request, now)
    {
      if !RequestValid(request) {
        return Err(InvalidRequest);
      }
      var binding := BindingOf(request);
      var digest := svc.digest(binding);
      var start := Position(highWater, now, binding.after);
      if request.cursor.Some? {
        var decoded := DecodeCursor(State(records, bySeq, hidden, highWater), request.cursor.value, digest,
            binding.after);
        if decoded.Err? {
          return Err(decoded.error);
        }
        start := decoded.value;
      } else if binding.after > highWater {
        return Err(InvalidRequest);
      }
      var result, more := Collect(binding.filters, binding.limit, start);
      var nextCursor := None;
      if more {
        nextCursor := Some(FormatCursor(start.(last := result[|result| - 1].seqNo), digest));
      }
      if !SafeTime(start.asOf) {
        return Err(InvalidRequest);
      }
      r := Ok(Response(result, svc.origin, start.checkpoint, start.asOf, nextCursor));
    }

    /** Walks the `by_seq` index from the cursor to the checkpoint and stops at the first match past the page. */
    method Collect(filters: Filters, limit: nat, start: Position) returns (result: seq<Record>, more: bool)
      ensures var found := Scan(Contents(), filters, start.last, start.checkpoint);
        if |found| <= limit then result == found && !more else result == found[..limit] && more
    {
      hide Matches, Scan;
      result, more := [], false;
      var n := start.last;
      ghost var s := Contents();
      ghost var found := Scan(s, filters, start.last, start.checkpoint);
      while n < start.checkpoint && !more
        invariant |result| <= limit
        invariant n >= start.last
        invariant !more ==> found == result + Scan(s, filters, n, start.checkpoint)
        invariant more ==> |found| > limit && result == found[..limit]
        decreases start.checkpoint - n, !more
      {
        ScanUnfolds(s, filters, n, start.checkpoint);
        n := n + 1;
        ghost var rest := Scan(s, filters, n, start.checkpoint);
        if n in bySeq && bySeq[n] in records && bySeq[n] !in hidden
            && Matches(records[bySeq[n]].envelope.event, filters) {
          var record := records[bySeq[n]];
          assert found == result + [record] + rest;
          if |result| == limit {
            more := true;
          } else {
            result := result + [record];
          }
        } else {
          assert found == result + rest;
        }
      }
      ScanUnfolds(s, filters, n, start.checkpoint);
    }
  }

  lemma ScanUnfolds(s: State, filters: Filters, n: nat, checkpoint: nat)
    ensures Scan(s, filters, n, checkpoint)
         == if n >= checkpoint then [] else Selected(s, filters, n + 1) + Scan(s, filters, n + 1, checkpoint)
  {
  }
}
