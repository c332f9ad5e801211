/**
 * Paged queries under interference: a client follows cursors while the repository keeps changing between its
 * pages. The service keeps no traversal state, so everything rests on what a cursor says and on `Evolves`.
 */
module KnowledgeTraversal {
  import opened Common
  import opened Text
  import opened KnowledgeEvents
  import opened KnowledgeStore

  /** What happens around a traversal: the mutations after page `k`, and the service clock at page `k`. */
  datatype Environment = Environment(ops: nat -> seq<Op>, clock: nat -> int)

  datatype Visit = Visit(state: State, request: QueryRequest, response: Response)

  function Remaining(svc: Service, s: State, request: QueryRequest, now: int): nat {
    var start := StartPosition(svc, s, request, now);
    if start.Ok? && start.value.last <= start.value.checkpoint then start.value.checkpoint - start.value.last else 0
  }

  /** The pages a client sees that follows every cursor; it stops at the first error or page without a cursor. */
  ghost function Traverse(svc: Service, s: State, request: QueryRequest, env: Environment, k: nat): seq<Visit>
    requires Inv(svc, s) && DigestIsText(svc)
    decreases Remaining(svc, s, request, env.clock(k))
  {
    var answer := Queried(svc, s, request, env.clock(k));
    if answer.Err? then []
    else
      var visit := Visit(s, request, answer.value);
      if answer.value.nextCursor.None? then [visit]
      else
        var t := Run(svc, s, env.ops(k));
        RunKeepsInv(svc, s, env.ops(k));
        CursorAdvances(svc, s, request, env.clock(k), t, env.clock(k + 1));
        [visit] + Traverse(svc, t, request.(cursor := answer.value.nextCursor), env, k + 1)
  }

  ghost function Collected(visits: seq<Visit>): seq<Record> {
    if visits == [] then [] else visits[0].response.result + Collected(visits[1..])
  }

  lemma CollectedOne(visit: Visit)
    ensures Collected([visit]) == visit.response.result
  {
  }

  /** An answered query is the page its starting position stands for. */
  lemma AnswerIsAPage(svc: Service, s: State, request: QueryRequest, now: int)
    requires Queried(svc, s, request, now).Ok?
    ensures RequestValid(request) && StartPosition(svc, s, request, now).Ok?
    ensures var p := StartPosition(svc, s, request, now).value;
      && BindingOf(request).after <= p.last <= p.checkpoint <= s.highWater && SafeTime(p.asOf)
      && Queried(svc, s, request, now) == Ok(Page(svc, s, request, p))
    ensures request.cursor.None? ==>
              StartPosition(svc, s, request, now).value == Position(s.highWater, now, BindingOf(request).after)
  {
  }

  /** What one page promises about the window it was cut from. */
  lemma PageIsExact(svc: Service, s: State, request: QueryRequest, p: Position)
    requires Inv(svc, s) && RequestValid(request) && p.last <= p.checkpoint
    ensures var page, b := Page(svc, s, request, p), BindingOf(request);
      && Ascending(page.result) && |page.result| <= b.limit
      && page.service == svc.origin && page.checkpoint == p.checkpoint && page.asOf == p.asOf
      && (forall r | r in page.result :: Answers(s, b.filters, p.last, p.checkpoint, r))
      && (page.nextCursor.None? ==> forall r | Answers(s, b.filters, p.last, p.checkpoint, r) :: r in page.result)
      && (page.nextCursor.Some? ==>
            && |page.result| == b.limit
            && var edge := page.result[b.limit - 1].seqNo;
               && page.nextCursor == Some(FormatCursor(p.(last := edge), svc.digest(b)))
               && p.last < edge <= p.checkpoint
               && forall r | Answers(s, b.filters, p.last, p.checkpoint, r) :: r in page.result <==> r.seqNo <= edge)
  {
    hide Matches, FiltersValid, Scan, FormatCursor, Inv;
    var b := BindingOf(request);
    var found := Scan(s, b.filters, p.last, p.checkpoint);
    ScanIsExact(svc, s, b.filters, p.last, p.checkpoint);
    if |found| > b.limit {
      CutIsExact(found, b.limit);
      assert found[b.limit - 1] in found;
    }
  }

  /** The first `limit` records of an ascending list are those at or below the last of them. */
  lemma CutIsExact(found: seq<Record>, limit: nat)
    requires Ascending(found) && 1 <= limit <= |found|
    ensures Ascending(found[..limit])
    ensures forall r :: r in found[..limit] <==> r in found && r.seqNo <= found[limit - 1].seqNo
  {
  }

  lemma EvolvesUpward(s: State, t: State)
    ensures Evolves(s, t) ==> s.highWater <= t.highWater
  {
  }

  /** A cursor the service issued is accepted by any later state, and moves strictly towards its checkpoint. */
  lemma CursorAdvances(svc: Service, s: State, request: QueryRequest, now: int, t: State, later: int)
    requires Inv(svc, s) && DigestIsText(svc) && Inv(svc, t) && Evolves(s, t)
    requires Queried(svc, s, request, now).Ok? && Queried(svc, s, request, now).value.nextCursor.Some?
    ensures var p := StartPosition(svc, s, request, now).value;
      var page := Queried(svc, s, request, now).value;
      var next := request.(cursor := page.nextCursor);
      && |page.result| == BindingOf(request).limit >= 1
      && var edge := page.result[|page.result| - 1].seqNo;
         && p.last < edge <= p.checkpoint
         && RequestValid(next)
         && StartPosition(svc, t, next, later) == Ok(p.(last := edge))
    ensures Remaining(svc, t, request.(cursor := Queried(svc, s, request, now).value.nextCursor), later)
          < Remaining(svc, s, request, now)
  {
    hide Matches, FiltersValid, FormatCursor, DecodeCursor, Queried, Page, Evolves;
    AnswerIsAPage(svc, s, request, now);
    var p := StartPosition(svc, s, request, now).value;
    var page := Queried(svc, s, request, now).value;
    PageIsExact(svc, s, request, p);
    assert Evolves(s, t) ==> s.highWater <= t.highWater by {
      EvolvesUpward(s, t);
    }
    var edge := page.result[|page.result| - 1].seqNo;
    CursorRoundTrip(t, p.(last := edge), svc.digest(BindingOf(request)), BindingOf(request).after);
  }

  ghost predicate VisibleThroughout(visits: seq<Visit>, r: Record) {
    forall i | 0 <= i < |visits| :: Visible(visits[i].state, r.envelope.hash)
        && visits[i].state.records[r.envelope.hash] == r
  }

  /** Every page of a traversal from `p` on: one scope, one binding, and only records its state then showed. */
  ghost predicate HonestPage(svc: Service, b: Binding, p: Position, v: Visit) {
    && v.response.service == svc.origin && v.response.checkpoint == p.checkpoint && v.response.asOf == p.asOf
    && BindingOf(v.request) == b && |v.response.result| <= b.limit
    && forall r | r in v.response.result :: Answers(v.state, b.filters, p.last, p.checkpoint, r)
  }

  /** Every collected record matches, lies in the window, and is exactly what `s` retains under its id. */
  ghost predicate DrawnFrom(s: State, b: Binding, p: Position, all: seq<Record>) {
    forall r | r in all ::
      && p.last < r.seqNo <= p.checkpoint && Matches(r.envelope.event, b.filters)
      && r.envelope.hash in s.records && s.records[r.envelope.hash] == r
  }

  ghost predicate NothingMissed(visits: seq<Visit>, b: Binding, p: Position) {
    forall r | VisibleThroughout(visits, r) && Matches(r.envelope.event, b.filters)
        && p.last < r.seqNo <= p.checkpoint ::
      r in Collected(visits)
  }

  lemma NothingMissedByMore(v: Visit, rest: seq<Visit>, b: Binding, p: Position, edge: nat)
    requires p.last < edge <= p.checkpoint
    requires forall r | Answers(v.state, b.filters, p.last, p.checkpoint, r) && r.seqNo <= edge ::
               r in v.response.result
    requires NothingMissed(rest, b, p.(last := edge))
    ensures NothingMissed([v] + rest, b, p)
  {
  }

  lemma DrawnFromEarlier(s: State, t: State, b: Binding, p: Position, edge: nat, page: seq<Record>, rest: seq<Record>)
    requires Evolves(s, t) && p.last < edge <= p.checkpoint <= s.highWater
    requires forall r | r in page :: Answers(s, b.filters, p.last, p.checkpoint, r)
    requires DrawnFrom(t, b, p.(last := edge), rest)
    ensures DrawnFrom(s, b, p, page + rest)
  {
  }

  lemma DrawnAbove(s: State, b: Binding, p: Position, all: seq<Record>)
    requires DrawnFrom(s, b, p, all)
    ensures forall r | r in all :: p.last < r.seqNo
  {
  }

  /** What holds of every traversal from the state and position where it stands. */
  ghost predicate Exact(svc: Service, s: State, b: Binding, p: Position, visits: seq<Visit>) {
    && 1 <= |visits| <= p.checkpoint - p.last + 1
    && visits[|visits| - 1].response.nextCursor.None?
    && (forall i | 0 <= i < |visits| :: HonestPage(svc, b, p, visits[i]))
    && Ascending(Collected(visits))
    && DrawnFrom(s, b, p, Collected(visits))
    && NothingMissed(visits, b, p)
  }

  lemma ExactOne(svc: Service, b: Binding, p: Position, visit: Visit)
    requires p.last <= p.checkpoint && HonestPage(svc, b, p, visit) && visit.response.nextCursor.None?
    requires Ascending(visit.response.result)
    requires forall r | Answers(visit.state, b.filters, p.last, p.checkpoint, r) :: r in visit.response.result
    ensures Exact(svc, visit.state, b, p, [visit])
  {
  }

  lemma {:induction false} TraversalFrom(svc: Service, s: State, request: QueryRequest, env: Environment, k: nat)
    requires Inv(svc, s) && DigestIsText(svc) && Queried(svc, s, request, env.clock(k)).Ok?
    ensures Exact(svc, s, BindingOf(request), StartPosition(svc, s, request, env.clock(k)).value,
                  Traverse(svc, s, request, env, k))
    decreases Remaining(svc, s, request, env.clock(k))
  {
    hide Matches, Inv, Queried, Page, StartPosition, RequestValid, Exact, Evolves, FormatCursor;
    var now := env.clock(k);
    AnswerIsAPage(svc, s, request, now);
    var p, b := StartPosition(svc, s, request, now).value, BindingOf(request);
    var page := Queried(svc, s, request, now).value;
    var visit := Visit(s, request, page);
    PageIsExact(svc, s, request, p);
    assert HonestPage(svc, b, p, visit);
    if page.nextCursor.None? {
      ExactOne(svc, b, p, visit);
    } else {
      var t := Run(svc, s, env.ops(k));
      RunKeepsInv(svc, s, env.ops(k));
      CursorAdvances(svc, s, request, now, t, env.clock(k + 1));
      var next := request.(cursor := page.nextCursor);
      NextIsAnswered(svc, t, next, env.clock(k + 1));
      TraversalFrom(svc, t, next, env, k + 1);
      ExactStep(svc, s, t, b, p, page.result[|page.result| - 1].seqNo, visit, Traverse(svc, t, next, env, k + 1));
    }
  }

  lemma NextIsAnswered(svc: Service, t: State, next: QueryRequest, now: int)
    requires RequestValid(next) && StartPosition(svc, t, next, now).Ok?
              && SafeTime(StartPosition(svc, t, next, now).value.asOf)
    ensures Queried(svc, t, next, now).Ok?
  {
  }

  lemma ExactStep(
    svc: Service, s: State, t: State, b: Binding, p: Position, edge: nat, visit: Visit, rest: seq<Visit>)
    requires Evolves(s, t) && p.last < edge <= p.checkpoint <= s.highWater
    requires HonestPage(svc, b, p, visit) && visit.state == s
    requires Ascending(visit.response.result)
    requires visit.response.result != [] && visit.response.result[|visit.response.result| - 1].seqNo == edge
    requires forall r | Answers(s, b.filters, p.last, p.checkpoint, r) && r.seqNo <= edge :: r in visit.response.result
    requires Exact(svc, t, b, p.(last := edge), rest)
    ensures Exact(svc, s, b, p, [visit] + rest)
  {
    hide Matches, Evolves, NothingMissed, DrawnFrom;
    var visits := [visit] + rest;
    assert visits[1..] == rest;
    forall i | 0 <= i < |visits|
      ensures HonestPage(svc, b, p, visits[i])
    {
      assert i > 0 ==> HonestPage(svc, b, p.(last := edge), rest[i - 1]);
    }
    assert forall r | r in Collected(rest) :: edge < r.seqNo by {
      DrawnAbove(t, b, p.(last := edge), Collected(rest));
    }
    TraversalJoins(visit.response.result, Collected(rest), edge);
    DrawnFromEarlier(s, t, b, p, edge, visit.response.result, Collected(rest));
    NothingMissedByMore(visit, rest, b, p, edge);
  }

  lemma TraversalJoins(a: seq<Record>, b: seq<Record>, edge: nat)
    requires Ascending(a) && Ascending(b)
    requires a != [] && a[|a| - 1].seqNo == edge
    requires forall r | r in b :: edge < r.seqNo
    ensures Ascending(a + b)
  {
  }

  /**
   * Whatever is submitted, hidden, unhidden or pruned between the pages, a traversal that starts is never
   * refused, ends, and returns each matching record that stayed visible exactly once, in order.
   */
  lemma PagedQueryIsExact(svc: Service, s: State, request: QueryRequest, env: Environment)
    requires Inv(svc, s) && DigestIsText(svc)
    requires request.cursor.None? && Queried(svc, s, request, env.clock(0)).Ok?
    ensures var b := BindingOf(request);
      var visits := Traverse(svc, s, request, env, 0);
      var all := Collected(visits);
      && 1 <= |visits| <= s.highWater - b.after + 1
      && visits[|visits| - 1].response.nextCursor.None?
      && (forall i | 0 <= i < |visits| ::
            HonestPage(svc, b, Position(s.highWater, env.clock(0), b.after), visits[i]))
      && (forall i, j | 0 <= i < j < |all| ::
            all[i].seqNo < all[j].seqNo && all[i].envelope.hash != all[j].envelope.hash)
      && (forall r | VisibleThroughout(visits, r) && Matches(r.envelope.event, b.filters)
                     && b.after < r.seqNo <= s.highWater :: r in all)
  {
    hide Matches, Queried, Traverse, Inv;
    AnswerIsAPage(svc, s, request, env.clock(0));
    TraversalFrom(svc, s, request, env, 0);
    var all := Collected(Traverse(svc, s, request, env, 0));
    forall i, j | 0 <= i < j < |all|
      ensures all[i].seqNo < all[j].seqNo && all[i].envelope.hash != all[j].envelope.hash
    {
      assert all[i] in all && all[j] in all;
    }
  }

  // ---- Without hiding or pruning ------------------------------------------

  ghost predicate OnlySubmits(ops: seq<Op>) {
    forall i | 0 <= i < |ops| :: ops[i].Submit?
  }

  ghost predicate Calm(env: Environment) {
    forall k: nat :: OnlySubmits(env.ops(k))
  }

  /** Submissions leave everything at or below an earlier mark in place, and exactly as visible. */
  ghost predicate Extends(s: State, t: State) {
    && s.highWater <= t.highWater && s.hidden == t.hidden
    && (forall id | id in s.records :: id in t.records && t.records[id] == s.records[id])
    && (forall n: nat | n <= s.highWater ::
          && (n in s.bySeq <==> n in t.bySeq)
          && (n in s.bySeq ==> s.bySeq[n] == t.bySeq[n]))
  }

  lemma {:induction false} SubmissionsExtend(svc: Service, s: State, ops: seq<Op>)
    requires Inv(svc, s) && OnlySubmits(ops)
    ensures Extends(s, Run(svc, s, ops))
    decreases |ops|
  {
    if ops != [] {
      var t := Apply(svc, s, ops[0]);
      assert Extends(s, t);
      ApplyKeepsInv(svc, s, ops[0]);
      SubmissionsExtend(svc, t, ops[1..]);
    }
  }

  lemma {:induction false} ScanIsStable(svc: Service, s: State, t: State, filters: Filters, last: nat, checkpoint: nat)
    requires Inv(svc, s) && Extends(s, t) && checkpoint <= s.highWater
    ensures Scan(t, filters, last, checkpoint) == Scan(s, filters, last, checkpoint)
    decreases checkpoint - last
  {
    if last < checkpoint {
      var n := last + 1;
      assert Selected(t, filters, n) == Selected(s, filters, n);
      ScanIsStable(svc, s, t, filters, n, checkpoint);
    }
  }

  ghost function LastState(visits: seq<Visit>): State
    requires visits != []
  {
    visits[|visits| - 1].state
  }

  /** With submissions only, the pages together are one scan of the state the traversal began in. */
  lemma {:induction false} CalmTraversalIsOneScan(
    svc: Service, s: State, request: QueryRequest, env: Environment, k: nat)
    requires Inv(svc, s) && DigestIsText(svc) && Calm(env) && Queried(svc, s, request, env.clock(k)).Ok?
    ensures var p := StartPosition(svc, s, request, env.clock(k)).value;
      var visits := Traverse(svc, s, request, env, k);
      && visits != [] && Inv(svc, LastState(visits)) && Extends(s, LastState(visits))
      && Collected(visits) == Scan(s, request.filters, p.last, p.checkpoint)
    decreases Remaining(svc, s, request, env.clock(k))
  {
    hide Matches, Inv, Queried, StartPosition, RequestValid, Scan, Evolves, Extends, FormatCursor;
    var now := env.clock(k);
    AnswerIsAPage(svc, s, request, now);
    var p, b := StartPosition(svc, s, request, now).value, BindingOf(request);
    var page := Queried(svc, s, request, now).value;
    var visits := Traverse(svc, s, request, env, k);
    if page.nextCursor.None? {
      CollectedOne(visits[0]);
      assert visits == [visits[0]];
      ExtendsItself(s);
    } else {
      var t := Run(svc, s, env.ops(k));
      RunKeepsInv(svc, s, env.ops(k));
      SubmissionsExtend(svc, s, env.ops(k));
      CursorAdvances(svc, s, request, now, t, env.clock(k + 1));
      var next := request.(cursor := page.nextCursor);
      NextIsAnswered(svc, t, next, env.clock(k + 1));
      CalmTraversalIsOneScan(svc, t, next, env, k + 1);
      var rest := Traverse(svc, t, next, env, k + 1);
      assert visits == [Visit(s, request, page)] + rest && visits[1..] == rest;
      var edge := page.result[|page.result| - 1].seqNo;
      ExtendsIsTransitive(s, t, LastState(rest));
      ScanIsStable(svc, s, t, b.filters, edge, p.checkpoint);
      PageIsAScan(svc, s, b.filters, p, b.limit);
      ScanConcatenates(s, b.filters, p.last, edge, p.checkpoint);
    }
  }

  lemma ExtendsItself(s: State)
    ensures Extends(s, s)
  {
  }

  lemma PageIsAScan(svc: Service, s: State, filters: Filters, p: Position, limit: nat)
    requires Inv(svc, s) && p.last <= p.checkpoint
    requires 1 <= limit < |Scan(s, filters, p.last, p.checkpoint)|
    ensures var found := Scan(s, filters, p.last, p.checkpoint);
      p.last < found[limit - 1].seqNo <= p.checkpoint
          && found[..limit] == Scan(s, filters, p.last, found[limit - 1].seqNo)
  {
    hide Matches, Inv;
    var found := Scan(s, filters, p.last, p.checkpoint);
    var edge := found[limit - 1].seqNo;
    ScanIsExact(svc, s, filters, p.last, p.checkpoint);
    assert found[limit - 1] in found;
    ScanIsExact(svc, s, filters, p.last, edge);
    var part := Scan(s, filters, p.last, edge);
    CutIsExact(found, limit);
    AscendingListsAgree(found[..limit], part);
  }

  /** One poll: a complete traversal, then more submissions before the next poll. */
  datatype Poll = Poll(env: Environment, between: seq<Op>)

  /** A consumer that follows new records: each poll starts at the checkpoint of the one before. */
  ghost function Follow(svc: Service, s: State, request: QueryRequest, polls: seq<Poll>): (seq<Record>, State)
    requires Inv(svc, s) && DigestIsText(svc)
    decreases |polls|
  {
    if polls == [] then ([], s)
    else
      var visits := Traverse(svc, s, request, polls[0].env, 0);
      if visits == [] || !Inv(svc, LastState(visits)) then ([], s)
      else
        var after := visits[|visits| - 1].response.checkpoint;
        var t := Run(svc, LastState(visits), polls[0].between);
        RunKeepsInv(svc, LastState(visits), polls[0].between);
        var (rest, end) := Follow(svc, t, request.(afterSeq := Some(after)), polls[1..]);
        (Collected(visits) + rest, end)
  }

  ghost predicate CalmPolls(polls: seq<Poll>) {
    forall i | 0 <= i < |polls| ::
      Calm(polls[i].env) && OnlySubmits(polls[i].between) && SafeTime(polls[i].env.clock(0))
  }

  lemma ExtendsIsTransitive(s: State, t: State, u: State)
    requires Extends(s, t) && Extends(t, u)
    ensures Extends(s, u)
  {
  }

  /** The checkpoint a consumer holds after its polls, given where it began. */
  ghost function Reached(svc: Service, s: State, request: QueryRequest, polls: seq<Poll>): nat
    requires Inv(svc, s) && DigestIsText(svc)
    decreases |polls|
  {
    if polls == [] then BindingOf(request).after
    else
      var visits := Traverse(svc, s, request, polls[0].env, 0);
      if visits == [] || !Inv(svc, LastState(visits)) then BindingOf(request).after
      else
        var after := visits[|visits| - 1].response.checkpoint;
        var t := Run(svc, LastState(visits), polls[0].between);
        RunKeepsInv(svc, LastState(visits), polls[0].between);
        Reached(svc, t, request.(afterSeq := Some(after)), polls[1..])
  }

  lemma ExtendsUpward(s: State, t: State)
    ensures Extends(s, t) ==> s.highWater <= t.highWater
  {
  }

  lemma PollIsAnswered(svc: Service, s: State, request: QueryRequest, now: int)
    requires RequestValid(request) && request.cursor.None? && BindingOf(request).after <= s.highWater && SafeTime(now)
    ensures Queried(svc, s, request, now).Ok?
    ensures StartPosition(svc, s, request, now) == Ok(Position(s.highWater, now, BindingOf(request).after))
    ensures s.highWater <= MAX_SAFE ==> RequestValid(request.(afterSeq := Some(s.highWater)))
  {
  }

  /** Without hiding or pruning, any number of polls together return what a single query of the end state does. */
  lemma {:induction false} PollsCompose(svc: Service, s: State, request: QueryRequest, polls: seq<Poll>)
    requires Inv(svc, s) && DigestIsText(svc) && CalmPolls(polls)
    requires RequestValid(request) && request.cursor.None? && BindingOf(request).after <= s.highWater
    ensures var (records, end) := Follow(svc, s, request, polls);
      var reached := Reached(svc, s, request, polls);
      && Inv(svc, end) && Extends(s, end)
      && BindingOf(request).after <= reached <= end.highWater
      && (polls != [] ==> s.highWater <= reached)
      && records == Scan(end, request.filters, BindingOf(request).after, reached)
    decreases |polls|
  {
    hide Matches, Inv, Queried, RequestValid, Scan, Evolves, Extends, Traverse;
    var after := BindingOf(request).after;
    ExtendsItself(s);
    ScanUnfolds(s, request.filters, after, after);
    if polls != [] {
      var env := polls[0].env;
      var visits := Traverse(svc, s, request, env, 0);
      PollIsAnswered(svc, s, request, env.clock(0));
      TraversalFrom(svc, s, request, env, 0);
      CalmTraversalIsOneScan(svc, s, request, env, 0);
      assert HonestPage(svc, BindingOf(request), Position(s.highWater, env.clock(0), after), visits[|visits| - 1]);
      var t := Run(svc, LastState(visits), polls[0].between);
      RunKeepsInv(svc, LastState(visits), polls[0].between);
      SubmissionsExtend(svc, LastState(visits), polls[0].between);
      ExtendsIsTransitive(s, LastState(visits), t);
      ExtendsUpward(s, t);
      var next := request.(afterSeq := Some(s.highWater));
      PollsCompose(svc, t, next, polls[1..]);
      var (rest, end) := Follow(svc, t, next, polls[1..]);
      var reached := Reached(svc, t, next, polls[1..]);
      ExtendsIsTransitive(s, t, end);
      ScanIsStable(svc, s, end, request.filters, after, s.highWater);
      ScanConcatenates(end, request.filters, after, s.highWater, reached);
    }
  }

  // ---- Dependency closure -------------------------------------------------

  /** Every retained event finds its targets retained, allowed, and accepted before it. */
  ghost predicate DependencyClosed(s: State) {
    forall id | id in s.records :: TargetsBefore(s, s.records[id])
  }

  ghost predicate TargetsBefore(s: State, r: Record) {
    forall link | link in r.envelope.event.Links() ::
      && link.target in s.records
      && LinkAllowed(r.envelope.event, link, s.records[link.target].envelope.event)
      && s.records[link.target].seqNo < r.seqNo
  }

  lemma SubmissionKeepsClosure(svc: Service, s: State, item: Envelope, now: int)
    requires Inv(svc, s) && DependencyClosed(s)
    ensures DependencyClosed(Submitted(svc, s, item, now).0)
  {
    var t := Submitted(svc, s, item, now).0;
    if t != s {
      CheckDependenciesDecides(item.event, Envelopes(s));
      assert TargetsBefore(t, t.records[item.hash]) by {
        forall link | link in item.event.Links()
          ensures link.target in t.records && LinkAllowed(item.event, link, t.records[link.target].envelope.event)
          ensures t.records[link.target].seqNo < t.records[item.hash].seqNo
        {
          assert link.target in Envelopes(s);
        }
      }
      forall id | id in t.records && id != item.hash
        ensures TargetsBefore(t, t.records[id])
      {
        assert TargetsBefore(s, s.records[id]);
      }
    }
  }

  /** Pruning keeps the retained set closed exactly when no other retained event depends on the pruned one. */
  lemma PruneKeepsClosureIff(svc: Service, s: State, id: Id)
    requires Inv(svc, s) && DependencyClosed(s)
    ensures DependencyClosed(Pruned(s, id)) <==>
              forall other | other in s.records && other != id :: id !in s.records[other].envelope.event.Dependencies()
  {
    var t := Pruned(s, id);
    if forall other | other in s.records && other != id :: id !in s.records[other].envelope.event.Dependencies() {
      forall other | other in t.records
        ensures TargetsBefore(t, t.records[other])
      {
        assert TargetsBefore(s, s.records[other]);
        forall link | link in t.records[other].envelope.event.Links()
          ensures link.target in t.records
        {
          assert link.target in s.records[other].envelope.event.Dependencies();
        }
      }
    } else {
      var other :| other in s.records && other != id && id in s.records[other].envelope.event.Dependencies();
      var link :| link in s.records[other].envelope.event.Links() && link.target == id;
      assert other in t.records && link.target !in t.records;
      assert !TargetsBefore(t, t.records[other]);
    }
  }

  /** From an empty repository, any run without pruning stays dependency-closed, whatever is hidden. */
  lemma {:induction false} RunStaysClosed(svc: Service, s: State, ops: seq<Op>)
    requires Inv(svc, s) && DependencyClosed(s)
    requires forall i | 0 <= i < |ops| :: !ops[i].Prune?
    ensures DependencyClosed(Run(svc, s, ops))
    decreases |ops|
  {
    if ops != [] {
      var t := Apply(svc, s, ops[0]);
      ApplyKeepsInv(svc, s, ops[0]);
      if ops[0].Submit? {
        SubmissionKeepsClosure(svc, s, ops[0].item, ops[0].now);
      } else {
        assert t.records == s.records;
        forall id | id in t.records
          ensures TargetsBefore(t, t.records[id])
        {
          assert TargetsBefore(s, s.records[id]);
        }
      }
      RunStaysClosed(svc, t, ops[1..]);
    }
  }
}
