/**
 * Which queries are answered: first pages, and pages asked for by a cursor. A cursor is bound to the query it was
 * issued for, and the binding is all that stops it from being used for another one.
 */
module KnowledgeCursors {
  import opened Common
  import opened Text
  import opened KnowledgeEvents
  import opened KnowledgeStore
  import opened KnowledgeTraversal

  /** A text of one to sixteen digits that stands for `n`; leading zeros are let through. */
  ghost predicate Spells(part: string, n: nat) {
    1 <= |part| <= 16 && (forall i | 0 <= i < |part| :: '0' <= part[i] <= '9') && ParseDecimal(part) == n
  }

  ghost predicate Spelt(cursor: string, p: Position, digest: string, a: string, b: string, c: string) {
    && Spells(a, p.checkpoint) && 0 <= p.asOf && Spells(b, p.asOf) && Spells(c, p.last)
    && cursor == a + "." + b + "." + c + "." + digest
  }

  lemma JoinFour(a: string, b: string, c: string, d: string)
    ensures Join([a, b, c, d], '.') == a + "." + b + "." + c + "." + d
  {
    assert Join([d], '.') == d;
    assert [c, d][1..] == [d] && [b, c, d][1..] == [c, d] && [a, b, c, d][1..] == [b, c, d];
    assert Join([c, d], '.') == c + "." + d;
    assert Join([b, c, d], '.') == b + "." + (c + "." + d);
    assert Join([a, b, c, d], '.') == a + "." + (b + "." + (c + "." + d));
  }

  lemma DigitsHaveNoDot(part: string)
    requires forall i | 0 <= i < |part| :: '0' <= part[i] <= '9'
    ensures '.' !in part && AllDigits(part)
  {
  }

  lemma SplitFour(a: string, b: string, c: string, d: string)
    requires '.' !in a && '.' !in b && '.' !in c && '.' !in d
    ensures Split(a + "." + b + "." + c + "." + d, '.') == [a, b, c, d]
  {
    JoinFour(a, b, c, d);
    assert SeparatorFree([a, b, c, d], '.');
    SplitJoin([a, b, c, d], '.');
  }

  /** The cursors a repository accepts for a query, and the position each stands for; it refuses all others alike. */
  lemma CursorAcceptedIff(s: State, cursor: string, digest: string, after: nat, p: Position)
    requires '.' !in digest
    ensures DecodeCursor(s, cursor, digest, after) == Ok(p) <==>
              && after <= p.last <= p.checkpoint <= s.highWater && SafeTime(p.asOf)
              && exists a, b, c :: Spelt(cursor, p, digest, a, b, c)
    ensures DecodeCursor(s, cursor, digest, after).Err? ==> DecodeCursor(s, cursor, digest, after) == Err(InvalidCursor)
  {
    hide Split, ParseDecimal;
    var parts := Split(cursor, '.');
    if DecodeCursor(s, cursor, digest, after) == Ok(p) {
      SplitParts(cursor, '.');
      JoinFour(parts[0], parts[1], parts[2], parts[3]);
      assert parts == [parts[0], parts[1], parts[2], parts[3]];
      assert Spelt(cursor, p, digest, parts[0], parts[1], parts[2]);
    }
    if exists a, b, c :: Spelt(cursor, p, digest, a, b, c) {
      var a, b, c :| Spelt(cursor, p, digest, a, b, c);
      DigitsHaveNoDot(a);
      DigitsHaveNoDot(b);
      DigitsHaveNoDot(c);
      SplitFour(a, b, c, digest);
    }
  }

  /** Whatever a cursor was issued for, another digest is not its own. */
  lemma OtherDigestIsRefused(t: State, p: Position, digest: string, other: string, after: nat)
    requires '.' !in digest && 0 <= p.asOf && digest != other
    ensures DecodeCursor(t, FormatCursor(p, digest), other, after) == Err(InvalidCursor)
  {
    hide Split, ParseDecimal, Decimal;
    DecimalIsCanonical(p.checkpoint);
    DecimalIsCanonical(p.asOf);
    DecimalIsCanonical(p.last);
    var parts := [Decimal(p.checkpoint), Decimal(p.asOf), Decimal(p.last), digest];
    assert SeparatorFree(parts, '.');
    SplitJoin(parts, '.');
  }

  /** Different queries have different digests. */
  ghost predicate DigestBinds(svc: Service) {
    forall a: Binding, b: Binding | svc.digest(a) == svc.digest(b) :: a == b
  }

  /** The cursor of an answered page, taken to any state with any request. */
  ghost predicate Carries(svc: Service, s: State, request: QueryRequest, now: int, other: QueryRequest) {
    var answer := Queried(svc, s, request, now);
    answer.Ok? && answer.value.nextCursor.Some? && other.cursor == answer.value.nextCursor
  }

  /**
   * A cursor issued for one query is refused by every state for every other one: an answer needs the digest of the
   * query it was issued for, a checkpoint that the state has reached, and a start that the cursor has passed.
   */
  lemma CursorAnsweredIff(
    svc: Service, s: State, request: QueryRequest, now: int, t: State, other: QueryRequest, later: int)
    requires Inv(svc, s) && DigestIsText(svc) && Carries(svc, s, request, now, other)
    requires t.highWater <= MAX_SAFE && RequestValid(other)
    ensures var page := Queried(svc, s, request, now).value;
      && page.result != []
      && (Queried(svc, t, other, later).Ok? <==>
            && svc.digest(BindingOf(other)) == svc.digest(BindingOf(request))
            && page.checkpoint <= t.highWater
            && BindingOf(other).after <= page.result[|page.result| - 1].seqNo)
      && (Queried(svc, t, other, later).Err? ==> Queried(svc, t, other, later) == Err(InvalidCursor))
  {
    hide Matches, FiltersValid, FormatCursor, DecodeCursor, Page, Inv;
    AnswerIsAPage(svc, s, request, now);
    var p := StartPosition(svc, s, request, now).value;
    var page := Queried(svc, s, request, now).value;
    PageIsExact(svc, s, request, p);
    var next := p.(last := page.result[|page.result| - 1].seqNo);
    var mine, theirs := svc.digest(BindingOf(request)), svc.digest(BindingOf(other));
    if mine != theirs {
      OtherDigestIsRefused(t, next, mine, theirs, BindingOf(other).after);
    } else {
      MarkIsSafe(svc, s);
      OwnDigestDecidesRange(t, next, mine, BindingOf(other).after);
    }
  }

  lemma MarkIsSafe(svc: Service, s: State)
    requires Inv(svc, s)
    ensures s.highWater <= MAX_SAFE
  {
  }

  lemma OwnDigestDecidesRange(t: State, p: Position, digest: string, after: nat)
    requires p.last <= p.checkpoint <= MAX_SAFE && SafeTime(p.asOf) && '.' !in digest && t.highWater <= MAX_SAFE
    ensures DecodeCursor(t, FormatCursor(p, digest), digest, after) ==
              if after <= p.last && p.checkpoint <= t.highWater then Ok(p) else Err(InvalidCursor)
  {
    if after <= p.last && p.checkpoint <= t.highWater {
      CursorRoundTrip(t, p, digest, after);
    } else {
      var high := t.(highWater := MAX_SAFE);
      CursorRoundTrip(high, p, digest, 0);
    }
  }

  /** With a digest that binds, a cursor is answered for the query it was issued for and for no other. */
  lemma CursorIsBound(
    svc: Service, s: State, request: QueryRequest, now: int, t: State, other: QueryRequest, later: int)
    requires Inv(svc, s) && DigestIsText(svc) && DigestBinds(svc) && Carries(svc, s, request, now, other)
    requires t.highWater <= MAX_SAFE && RequestValid(other)
    ensures Queried(svc, t, other, later).Ok? <==>
              && other.filters == request.filters
              && other.limit.GetOr(100) == request.limit.GetOr(100)
              && other.afterSeq.GetOr(0) == request.afterSeq.GetOr(0)
              && Queried(svc, s, request, now).value.checkpoint <= t.highWater
  {
    hide Queried, Inv, RequestValid;
    CursorAnsweredIff(svc, s, request, now, t, other, later);
    CursorPassedItsStart(svc, s, request, now, other);
  }

  lemma CursorPassedItsStart(svc: Service, s: State, request: QueryRequest, now: int, other: QueryRequest)
    requires Inv(svc, s) && Carries(svc, s, request, now, other)
    ensures var page := Queried(svc, s, request, now).value;
      page.result != [] && BindingOf(request).after < page.result[|page.result| - 1].seqNo
  {
    hide Matches, FiltersValid, FormatCursor, DecodeCursor, Page, Inv;
    AnswerIsAPage(svc, s, request, now);
    PageIsExact(svc, s, request, StartPosition(svc, s, request, now).value);
  }

  /** The first page of a query is answered exactly for well-formed bounds, from a start the repository has reached. */
  lemma FirstPageAnsweredIff(svc: Service, s: State, request: QueryRequest, now: int)
    requires Inv(svc, s) && request.cursor.None?
    ensures var f := request.filters;
      Queried(svc, s, request, now).Ok? <==>
        && SafeTime(now) && request.afterSeq.GetOr(0) <= s.highWater && 1 <= request.limit.GetOr(100) <= 1000
        && SafeTime(f.createdFrom.GetOr(0)) && SafeTime(f.createdBefore.GetOr(0))
        && (f.createdFrom.Some? && f.createdBefore.Some? ==> f.createdFrom.value < f.createdBefore.value)
    ensures Queried(svc, s, request, now).Err? ==> Queried(svc, s, request, now) == Err(InvalidRequest)
  {
    hide Page;
  }
}
