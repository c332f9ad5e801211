/** Exactly which sequences of pages a tracker accepts, whoever serves them. */
module KnowledgeEnumeration {
  import opened Common
  import opened KnowledgeEvents
  import opened KnowledgeStore
  import opened KnowledgeTracker

  /** A page on its own: asked for properly, within its limit, and made of verified records. */
  ghost predicate Genuine(verifies: Envelope -> bool, e: Exchange) {
    && RequestValid(e.request)
    && |e.response.result| <= e.request.limit.GetOr(100) && |e.response.result| <= 1000
    && e.response.checkpoint <= MAX_SAFE && SafeTime(e.response.asOf) && e.response.nextCursor != Some("")
    && forall r | r in e.response.result :: verifies(r.envelope) && 1 <= r.seqNo <= MAX_SAFE && SafeTime(r.acceptedAt)
  }

  ghost predicate AllGenuine(verifies: Envelope -> bool, exchanges: seq<Exchange>) {
    forall i | 0 <= i < |exchanges| :: Genuine(verifies, exchanges[i])
  }

  /** All pages together are one enumeration of one query by this service. */
  ghost predicate Enumerates(origin: string, exchanges: seq<Exchange>) {
    exchanges != [] ==>
      && exchanges[0].response.service == origin
      && OneEnumeration(exchanges, BindingOf(exchanges[0].request), ScopeOf(exchanges[0].response))
  }

  /** The tracker's last number is that of a record it has seen, or where the query started. */
  ghost predicate Tight(t: Tracker, done: seq<Exchange>) {
    t.binding.Some? ==> t.last == t.binding.value.after || exists r | r in AllRecords(done) :: r.seqNo == t.last
  }

  // ---- One more page ------------------------------------------------------

  lemma {:induction false} PrefixRecords(exchanges: seq<Exchange>, n: nat)
    requires n <= |exchanges|
    ensures AllRecords(exchanges[..n]) <= AllRecords(exchanges)
  {
    if n == |exchanges| {
      assert exchanges[..n] == exchanges;
    } else {
      PrefixRecords(exchanges[..|exchanges| - 1], n);
      assert exchanges[..|exchanges| - 1][..n] == exchanges[..n];
    }
  }

  lemma PrefixOrdered(records: seq<Record>, more: seq<Record>)
    requires records <= more && Ascending(more) && DistinctIds(more)
    ensures Ascending(records) && DistinctIds(records)
  {
  }

  lemma PrefixEnumerates(origin: string, exchanges: seq<Exchange>, n: nat)
    requires Enumerates(origin, exchanges) && n <= |exchanges|
    ensures Enumerates(origin, exchanges[..n])
  {
    hide ScopeOf, BindingOf, AllRecords, Ascending, DistinctIds, Follows, Matches;
    if n > 0 {
      PrefixRecords(exchanges, n);
      PrefixOrdered(AllRecords(exchanges[..n]), AllRecords(exchanges));
      assert forall i | 0 <= i < n :: exchanges[..n][i] == exchanges[i] && exchanges[i] in exchanges;
    }
  }

  lemma SuffixOrdered(all: seq<Record>, page: seq<Record>)
    requires Ascending(all + page) && DistinctIds(all + page)
    ensures Ascending(page) && DistinctIds(page) && Ids(page) * Ids(all) == {}
    ensures forall r, x | r in all && x in page :: r.seqNo < x.seqNo
  {
    assert forall i | 0 <= i < |page| :: (all + page)[|all| + i] == page[i];
    assert forall i | 0 <= i < |all| :: (all + page)[i] == all[i];
    forall r, x | r in all && x in page
      ensures r.seqNo < x.seqNo && r.envelope.hash != x.envelope.hash
    {
      var i :| 0 <= i < |all| && all[i] == r;
      var j :| 0 <= j < |page| && page[j] == x;
      assert (all + page)[i] == r && (all + page)[|all| + j] == x;
    }
  }

  /** What an accepted page adds keeps the last number tight. */
  lemma AcceptKeepsTight(verifies: Envelope -> bool, t: Tracker, done: seq<Exchange>, e: Exchange)
    requires Tight(t, done) && Describes(t, done) && Accepted(verifies, t, e.request, e.response).Ok?
    ensures Tight(Accepted(verifies, t, e.request, e.response).value, done + [e])
  {
    AcceptedPage(verifies, t, e.request, e.response);
    AllRecordsSnoc(done, e);
    hide Describes, Accepted, AllRecords, PageValid, Matches;
    var page := e.response.result;
    assert page != [] ==> page[|page| - 1] in AllRecords(done) + page;
  }

  lemma GenuineWhenAccepted(verifies: Envelope -> bool, t: Tracker, e: Exchange)
    requires Accepted(verifies, t, e.request, e.response).Ok?
    ensures Genuine(verifies, e)
  {
    hide Continues, Matches, FiltersValid, Ascending, DistinctIds, Ids;
    assert forall r | r in e.response.result :: RecordShape(r);
  }

  lemma GenuineIsValid(verifies: Envelope -> bool, e: Exchange, origin: string)
    requires Genuine(verifies, e) && e.response.service == origin
    requires Ascending(e.response.result) && DistinctIds(e.response.result)
    requires Within(e.response.result, BindingOf(e.request), ScopeOf(e.response))
    ensures PageValid(verifies, e.request, e.response, origin)
  {
    hide Matches, FiltersValid, Ascending, DistinctIds;
    assert forall i | 0 <= i < |e.response.result| :: e.response.result[i] in e.response.result;
  }

  /** The parts of an enumeration that its last page is concerned with. */
  lemma LastPage(origin: string, done: seq<Exchange>, e: Exchange)
    requires Enumerates(origin, done + [e])
    ensures var b, scope := BindingOf(e.request), ScopeOf(e.response);
      && OneEnumeration(done + [e], b, scope) && scope.service == origin
      && Within(e.response.result, b, scope)
      && Ascending(AllRecords(done) + e.response.result) && DistinctIds(AllRecords(done) + e.response.result)
      && (if done == [] then e.request.cursor.None? else Follows(done[|done| - 1], e))
      && forall x | x in done :: BindingOf(x.request) == b && ScopeOf(x.response) == scope
  {
    hide BindingOf, AllRecords, Ascending, DistinctIds, Follows, Matches;
    AllRecordsSnoc(done, e);
    var now := done + [e];
    assert now[|done|] == e && e in now && now[0] in now;
    assert forall x | x in done :: x in now;
    assert done != [] ==> now[|done| - 1] == done[|done| - 1];
  }

  lemma DescribedBinding(t: Tracker, done: seq<Exchange>)
    requires Describes(t, done)
    ensures t.binding.None? <==> done == []
    ensures done == [] ==> t == Fresh(t.origin)
    ensures done != [] ==>
              && t.binding == Some(BindingOf(done[0].request)) && t.scope == Some(ScopeOf(done[0].response))
              && t.nextCursor == done[|done| - 1].response.nextCursor && t.seen == Ids(AllRecords(done))
              && t.scope.value.service == t.origin
  {
    hide BindingOf, AllRecords, Chained, Within, Ascending, DistinctIds;
    assert done != [] ==> done[0] in done;
  }

  lemma EnumerationIsAccepted(verifies: Envelope -> bool, t: Tracker, done: seq<Exchange>, e: Exchange)
    requires Describes(t, done) && Tight(t, done) && Genuine(verifies, e) && Enumerates(t.origin, done + [e])
    ensures Accepted(verifies, t, e.request, e.response).Ok?
  {
    LastPage(t.origin, done, e);
    DescribedBinding(t, done);
    var all, page := AllRecords(done), e.response.result;
    SuffixOrdered(all, page);
    GenuineIsValid(verifies, e, t.origin);
    assert page != [] ==> page[0] in page;
    assert done != [] ==> done[0] in done;
    hide PageValid, BindingOf, AllRecords, Chained, Ascending, DistinctIds, OneEnumeration, Describes, Matches;
    assert Ids([]) == {};
  }

  lemma AcceptedEnumerates(verifies: Envelope -> bool, t: Tracker, done: seq<Exchange>, e: Exchange)
    requires Describes(t, done) && Accepted(verifies, t, e.request, e.response).Ok?
    ensures Enumerates(t.origin, done + [e])
  {
    AcceptDescribes(verifies, t, done, e);
    AcceptedPage(verifies, t, e.request, e.response);
    hide Accepted, Continues;
    DescribedBinding(Accepted(verifies, t, e.request, e.response).value, done + [e]);
    hide OneEnumeration, BindingOf;
  }

  // ---- All pages ----------------------------------------------------------

  lemma {:induction false} ConsumesIff(
    verifies: Envelope -> bool, t: Tracker, done: seq<Exchange>, rest: seq<Exchange>)
    requires Describes(t, done) && Tight(t, done)
    ensures Consume(verifies, t, rest).Ok? <==>
              rest == [] || (AllGenuine(verifies, rest) && Enumerates(t.origin, done + rest))
    decreases |rest|
  {
    hide Describes, Tight, Enumerates, Genuine, Accepted;
    if rest != [] {
      var e := rest[0];
      var accepted := Accepted(verifies, t, e.request, e.response);
      assert rest == [e] + rest[1..] && done + [e] + rest[1..] == done + rest;
      if accepted.Ok? {
        GenuineWhenAccepted(verifies, t, e);
        AcceptedEnumerates(verifies, t, done, e);
        AcceptDescribes(verifies, t, done, e);
        AcceptKeepsTight(verifies, t, done, e);
        AcceptedOrigin(verifies, t, e);
        ConsumesIff(verifies, accepted.value, done + [e], rest[1..]);
        assert rest[1..] == [] ==> rest == [e];
      } else if Genuine(verifies, e) && Enumerates(t.origin, done + rest) {
        PrefixEnumerates(t.origin, done + rest, |done| + 1);
        assert (done + rest)[..|done| + 1] == done + [e];
        EnumerationIsAccepted(verifies, t, done, e);
      }
    }
  }

  lemma AcceptedOrigin(verifies: Envelope -> bool, t: Tracker, e: Exchange)
    requires Accepted(verifies, t, e.request, e.response).Ok?
    ensures Accepted(verifies, t, e.request, e.response).value.origin == t.origin
  {
  }

  /**
   * A tracker accepts a sequence of pages exactly when each is genuine and all together are one enumeration: one
   * service, one query, one checkpoint and time, chained cursors, and records that ascend without repeating an id.
   */
  lemma TrackerAcceptsIff(verifies: Envelope -> bool, origin: string, exchanges: seq<Exchange>)
    ensures Consume(verifies, Fresh(origin), exchanges).Ok? <==>
              AllGenuine(verifies, exchanges) && Enumerates(origin, exchanges)
  {
    hide Genuine, OneEnumeration;
    assert [] + exchanges == exchanges;
    ConsumesIff(verifies, Fresh(origin), [], exchanges);
  }

  /** A tracker gives a checkpoint to poll from exactly when it has pages and the last of them was the last. */
  lemma CheckpointIff(verifies: Envelope -> bool, origin: string, exchanges: seq<Exchange>, checkpoint: nat)
    requires Consume(verifies, Fresh(origin), exchanges).Ok?
    ensures Consume(verifies, Fresh(origin), exchanges).value.Checkpoint() == Some(checkpoint) <==>
              && exchanges != [] && exchanges[|exchanges| - 1].response.nextCursor.None?
              && exchanges[|exchanges| - 1].response.checkpoint == checkpoint
  {
    ConsumeDescribes(verifies, Fresh(origin), [], exchanges);
    assert [] + exchanges == exchanges;
    DescribedBinding(Consume(verifies, Fresh(origin), exchanges).value, exchanges);
    if exchanges != [] {
      TrackerAcceptsIff(verifies, origin, exchanges);
      assert exchanges[0] in exchanges && exchanges[|exchanges| - 1] in exchanges;
    }
    hide Consume, BindingOf, AllRecords, Ids;
  }
}
