/**
 * Paged packet lists under interference: an owner follows cursors while packets arrive, expire, are deleted and
 * pruned, cards are replaced and the relay restarts. The cursor is a sequence number and the relay keeps nothing else.
 */
module MailListing {
  import opened Common
  import opened Text
  import opened MailRelay
  import opened MailRelayRuns

  /** One page of an enumeration, the relay that answered it, and what happened before the next one. */
  datatype Visit = Visit(relay: Relay, now: int, cursor: Option<string>, page: PacketPage, meanwhile: seq<Event>)

  predicate Answered(m: Id, caller: Option<string>, limit: Option<int>, v: Visit) {
    Listing(v.relay, m, caller, limit, v.cursor, v.now) == Ok(v.page)
  }

  ghost predicate Continues(cfg: Config, v: Visit, w: Visit) {
    && v.page.nextCursor.Some? && w.cursor == v.page.nextCursor
    && Lawful(cfg, v.relay, v.meanwhile) && w.relay == At(cfg, v.relay, v.meanwhile, |v.meanwhile|)
  }

  /** Every page answered, from the first, each asked for with the cursor of the one before. */
  ghost predicate Enumerates(cfg: Config, m: Id, caller: Option<string>, limit: Option<int>, visits: seq<Visit>) {
    && visits != [] && visits[0].cursor.None? && Inv(cfg, visits[0].relay)
    && (forall i | 0 <= i < |visits| :: Answered(m, caller, limit, visits[i]))
    && forall i, j | 0 <= i < j < |visits| && j == i + 1 :: Continues(cfg, visits[i], visits[j])
  }

  function Collected(visits: seq<Visit>): seq<PacketRecord> {
    if visits == [] then [] else Collected(visits[..|visits| - 1]) + visits[|visits| - 1].page.result
  }

  // ---- One page -----------------------------------------------------------

  /** What an answered page is, and that the relay takes its cursor back for the position it stands for. */
  lemma PageAnswered(cfg: Config, m: Id, caller: Option<string>, limit: Option<int>, v: Visit)
    requires Inv(cfg, v.relay) && Answered(m, caller, limit, v)
    ensures (v.cursor.Some? ==> CursorValid(v.cursor.value)) && m in v.relay.boxes && 1 <= limit.GetOr(100) <= 1000
    ensures PageIsExact(v.relay.boxes[m], AfterOf(v.cursor), limit.GetOr(100), v.now, v.page)
    ensures v.page.nextCursor.Some? ==>
              && CursorValid(v.page.nextCursor.value) && v.page.result != []
              && AfterOf(v.cursor) < AfterOf(v.page.nextCursor) == v.page.result[|v.page.result| - 1].seqNo <= MAX_SAFE
  {
    hide PathIdValid, CursorValid, PageOf, BoxInv, ParseDecimal;
    var b, size := v.relay.boxes[m], limit.GetOr(100);
    RowsMakeAPage(cfg, m, b, AfterOf(v.cursor), size, v.now);
    if v.page.nextCursor.Some? {
      LastNumberIsSafe(cfg, m, b);
      CursorStandsForItsNumber(v.page.result[size - 1].seqNo);
    }
  }

  lemma LastNumberIsSafe(cfg: Config, m: Id, b: Mailbox)
    requires BoxInv(cfg, m, b)
    ensures b.lastSeq <= MAX_SAFE
  {
  }

  lemma CursorStandsForItsNumber(n: nat)
    requires n <= MAX_SAFE
    ensures CursorValid(Decimal(n)) && AfterOf(Some(Decimal(n))) == n
  {
    hide Decimal, CanonicalDecimal, ParseDecimal;
    DecimalIsCanonical(n);
  }

  /** No cursor of the relay's own is refused: only the clock and the ownership of the mailbox are looked at again. */
  lemma NextPageIsAnswered(
    cfg: Config, m: Id, caller: Option<string>, limit: Option<int>, v: Visit, t: Relay, later: int)
    requires Inv(cfg, v.relay) && Answered(m, caller, limit, v) && v.page.nextCursor.Some?
    ensures Listing(t, m, caller, limit, v.page.nextCursor, later).Ok? <==>
              SafeTime(later) && OwnerRefusal(t, m, caller).None?
  {
    PageAnswered(cfg, m, caller, limit, v);
    hide OwnerRefusal, CursorValid, PageIsExact, PageOf;
  }

  // ---- A packet that nobody takes -----------------------------------------

  ghost predicate Retained(r: Relay, m: Id, record: PacketRecord) {
    m in r.boxes && exists x | x in r.boxes[m].packets :: x.record == record
  }

  /** The owner's deletion of this packet, if it is not refused. */
  predicate Deletes(r: Relay, e: Event, m: Id, id: Id) {
    && e.Does? && e.step.op.Delete? && e.step.op.mailboxId == m && e.step.op.packetId == id
    && Deleted(r, m, id, e.step.op.caller, e.Now()).1.Ok?
  }

  lemma KeptRecord(packets: seq<Stored>, stays: Stored -> bool, x: Stored)
    requires x in packets && stays(x)
    ensures x in Keep(packets, stays)
  {
    KeepIsExact(packets, stays);
  }

  lemma PublishSpares(cfg: Config, r: Relay, card: Card, now: int, m: Id, record: PacketRecord)
    requires Retained(r, m, record)
    ensures Retained(Published(cfg, r, card, now).0, m, record)
  {
    hide CardValid, SafeTime;
  }

  lemma DeliverySpares(cfg: Config, r: Relay, mailboxId: Id, p: Packet, now: int, m: Id, record: PacketRecord)
    requires Retained(r, m, record) && now < record.packet.expiresAt
    ensures Retained(Delivered(cfg, r, mailboxId, p, now).0, m, record)
  {
    hide Keep, TotalSize, PathIdValid, PacketRefusal, AdmissionRefusal, QuotaRefusal, SafeTime;
    var x :| x in r.boxes[m].packets && x.record == record;
    KeptRecord(r.boxes[m].packets, Live(now), x);
    assert x in Swept(r.boxes[m], now).packets;
  }

  lemma DeletionSpares(r: Relay, mailboxId: Id, id: Id, caller: Option<string>, now: int, m: Id, record: PacketRecord)
    requires Retained(r, m, record)
    requires m == mailboxId && id == record.packetId ==> Deleted(r, m, id, caller, now).1.Err?
    ensures Retained(Deleted(r, mailboxId, id, caller, now).0, m, record)
  {
    hide Keep, TotalSize, PathIdValid, OwnerRefusal, SafeTime;
    var x :| x in r.boxes[m].packets && x.record == record;
    if id != record.packetId {
      KeptRecord(r.boxes[m].packets, Other(id), x);
    }
  }

  lemma BlockingSpares(r: Relay, mailboxId: Id, sender: string, blocked: bool, m: Id, record: PacketRecord)
    requires Retained(r, m, record)
    ensures Retained(SenderSet(r, mailboxId, sender, blocked).0, m, record)
  {
    hide PathIdValid;
  }

  lemma PruneSpares(r: Relay, now: int, m: Id, record: PacketRecord)
    requires Retained(r, m, record) && now < record.packet.expiresAt
    ensures Retained(Pruned(r, now).0, m, record)
  {
    hide Keep, TotalSize, SafeTime;
    var x :| x in r.boxes[m].packets && x.record == record;
    KeptRecord(r.boxes[m].packets, Live(now), x);
    assert x in PrunedBox(r.boxes[m], now).packets;
  }

  /** An event that neither deletes a packet nor reads a time past its expiry leaves it retained, unchanged. */
  lemma EventSpares(cfg: Config, r: Relay, e: Event, m: Id, record: PacketRecord)
    requires Inv(cfg, r) && (e.Restarts? ==> IsSnapshot(e.snapshot, r.boxes)) && Retained(r, m, record)
    requires e.Now() < record.packet.expiresAt && !Deletes(r, e, m, record.packetId)
    ensures Retained(Next(cfg, r, e), m, record)
  {
    if e.Restarts? {
      EventKeepsInv(cfg, r, e);
    } else {
      hide Inv, RestoredBoxes, Retained, Published, Delivered, Deleted, SenderSet, Pruned;
      match e.step.op
      case Publish(card) => PublishSpares(cfg, r, card, e.Now(), m, record);
      case Deliver(mailboxId, p) => DeliverySpares(cfg, r, mailboxId, p, e.Now(), m, record);
      case Delete(mailboxId, id, caller) => DeletionSpares(r, mailboxId, id, caller, e.Now(), m, record);
      case SetSenderBlocked(mailboxId, sender, blocked) => BlockingSpares(r, mailboxId, sender, blocked, m, record);
      case Prune => PruneSpares(r, e.Now(), m, record);
    }
  }

  /** Nothing in this run takes the packet. */
  ghost predicate Spares(cfg: Config, r: Relay, run: seq<Event>, m: Id, record: PacketRecord) {
    forall i | 0 <= i < |run| ::
      run[i].Now() < record.packet.expiresAt && !Deletes(At(cfg, r, run, i), run[i], m, record.packetId)
  }

  lemma {:induction false} RunSpares(cfg: Config, r: Relay, run: seq<Event>, m: Id, record: PacketRecord, n: nat)
    requires Inv(cfg, r) && Lawful(cfg, r, run) && Spares(cfg, r, run, m, record) && Retained(r, m, record)
              && n <= |run|
    ensures Retained(At(cfg, r, run, n), m, record)
  {
    hide Retained, Deletes, Next, Inv;
    if n > 0 {
      RunSpares(cfg, r, run, m, record, n - 1);
      ReachableInv(cfg, r, run, n - 1);
      EventSpares(cfg, At(cfg, r, run, n - 1), run[n - 1], m, record);
    }
  }

  // ---- Whole enumerations -------------------------------------------------

  lemma {:induction false} InvAtVisit(
    cfg: Config, m: Id, caller: Option<string>, limit: Option<int>, visits: seq<Visit>, i: nat)
    requires Enumerates(cfg, m, caller, limit, visits) && i < |visits|
    ensures Inv(cfg, visits[i].relay)
  {
    hide Inv, Answered;
    if i > 0 {
      InvAtVisit(cfg, m, caller, limit, visits, i - 1);
      assert Continues(cfg, visits[i - 1], visits[i]);
      ReachableInv(cfg, visits[i - 1].relay, visits[i - 1].meanwhile, |visits[i - 1].meanwhile|);
    }
  }

  /** The packet was there at the first page, and neither a page nor anything between the pages came too late for it. */
  ghost predicate Spared(cfg: Config, m: Id, visits: seq<Visit>, record: PacketRecord) {
    && visits != [] && Retained(visits[0].relay, m, record)
    && (forall i | 0 <= i < |visits| :: visits[i].now < record.packet.expiresAt)
    && forall i | 0 <= i < |visits| - 1 :: Spares(cfg, visits[i].relay, visits[i].meanwhile, m, record)
  }

  lemma {:induction false} RetainedAtVisit(
    cfg: Config, m: Id, caller: Option<string>, limit: Option<int>, visits: seq<Visit>, record: PacketRecord, i: nat)
    requires Enumerates(cfg, m, caller, limit, visits) && Spared(cfg, m, visits, record) && i < |visits|
    ensures Retained(visits[i].relay, m, record)
  {
    hide Inv, Answered, Retained, Spares;
    if i > 0 {
      RetainedAtVisit(cfg, m, caller, limit, visits, record, i - 1);
      InvAtVisit(cfg, m, caller, limit, visits, i - 1);
      assert Continues(cfg, visits[i - 1], visits[i]);
      var v := visits[i - 1];
      RunSpares(cfg, v.relay, v.meanwhile, m, record, |v.meanwhile|);
    }
  }

  /** Where the enumeration stands before visit `i`: everything collected so far lies behind the cursor. */
  ghost predicate BehindCursor(visits: seq<Visit>, i: nat)
    requires i < |visits|
  {
    && (visits[i].cursor.Some? ==> CursorValid(visits[i].cursor.value))
    && AscendingRecords(Collected(visits[..i]))
    && i <= AfterOf(visits[i].cursor) <= MAX_SAFE
    && forall r | r in Collected(visits[..i]) :: r.seqNo <= AfterOf(visits[i].cursor)
  }

  lemma PagesJoin(before: seq<PacketRecord>, page: seq<PacketRecord>, after: nat)
    requires AscendingRecords(before) && AscendingRecords(page)
    requires forall r | r in before :: r.seqNo <= after
    requires forall r | r in page :: after < r.seqNo
    ensures AscendingRecords(before + page)
    ensures page != [] ==> forall r | r in before + page :: r.seqNo <= page[|page| - 1].seqNo
  {
    assert forall i | 0 <= i < |before| :: before[i] in before;
    assert forall i | 0 <= i < |page| :: page[i] in page;
  }

  lemma CollectedSnoc(visits: seq<Visit>, i: nat)
    requires i < |visits|
    ensures Collected(visits[..i + 1]) == Collected(visits[..i]) + visits[i].page.result
  {
    assert visits[..i + 1][..i] == visits[..i];
  }

  /** What an answered page adds, and where its cursor stands. */
  lemma PageAdvances(cfg: Config, m: Id, caller: Option<string>, limit: Option<int>, v: Visit)
    requires Inv(cfg, v.relay) && Answered(m, caller, limit, v)
    ensures (v.cursor.Some? ==> CursorValid(v.cursor.value)) && AscendingRecords(v.page.result)
    ensures forall r | r in v.page.result :: AfterOf(v.cursor) < r.seqNo
    ensures v.page.nextCursor.Some? ==>
              && CursorValid(v.page.nextCursor.value) && v.page.result != []
              && AfterOf(v.cursor) < AfterOf(v.page.nextCursor) == v.page.result[|v.page.result| - 1].seqNo <= MAX_SAFE
  {
    PageAnswered(cfg, m, caller, limit, v);
    hide CursorValid, Answered, Inv, AscendingRecords, AfterOf;
  }

  lemma VisitFollows(
    cfg: Config, m: Id, caller: Option<string>, limit: Option<int>, visits: seq<Visit>, i: nat)
    requires Enumerates(cfg, m, caller, limit, visits) && i < |visits|
    ensures Answered(m, caller, limit, visits[i])
    ensures i + 1 < |visits| ==> visits[i].page.nextCursor.Some? && visits[i + 1].cursor == visits[i].page.nextCursor
  {
    hide Answered, Inv;
    if i + 1 < |visits| {
      assert Continues(cfg, visits[i], visits[i + 1]);
    }
  }

  /** One more page: what it adds lies ahead of everything before it. */
  lemma PageExtends(
    cfg: Config, m: Id, caller: Option<string>, limit: Option<int>, visits: seq<Visit>, i: nat)
    requires Enumerates(cfg, m, caller, limit, visits) && i < |visits| && BehindCursor(visits, i)
    ensures AscendingRecords(Collected(visits[..i + 1]))
    ensures i + 1 < |visits| ==> BehindCursor(visits, i + 1)
  {
    hide Enumerates, CursorValid, Answered, Inv, Collected, AscendingRecords, AfterOf;
    var v := visits[i];
    InvAtVisit(cfg, m, caller, limit, visits, i);
    VisitFollows(cfg, m, caller, limit, visits, i);
    PageAdvances(cfg, m, caller, limit, v);
    CollectedSnoc(visits, i);
    PagesJoin(Collected(visits[..i]), v.page.result, AfterOf(v.cursor));
  }

  lemma {:induction false} EnumerationAscends(
    cfg: Config, m: Id, caller: Option<string>, limit: Option<int>, visits: seq<Visit>, i: nat)
    requires Enumerates(cfg, m, caller, limit, visits) && i < |visits|
    ensures BehindCursor(visits, i)
  {
    hide BehindCursor, Enumerates;
    if i == 0 {
      FirstIsBehind(cfg, m, caller, limit, visits);
    } else {
      EnumerationAscends(cfg, m, caller, limit, visits, i - 1);
      PageExtends(cfg, m, caller, limit, visits, i - 1);
    }
  }

  lemma FirstIsBehind(cfg: Config, m: Id, caller: Option<string>, limit: Option<int>, visits: seq<Visit>)
    requires Enumerates(cfg, m, caller, limit, visits)
    ensures visits != [] && BehindCursor(visits, 0)
  {
    assert visits[..0] == [];
  }

  /** A spared packet ahead of the cursor is on one of the pages that are left. */
  lemma {:induction false} SparedIsCollected(
    cfg: Config, m: Id, caller: Option<string>, limit: Option<int>, visits: seq<Visit>, record: PacketRecord, i: nat)
    requires Enumerates(cfg, m, caller, limit, visits) && visits[|visits| - 1].page.nextCursor.None?
    requires Spared(cfg, m, visits, record) && i < |visits|
    requires (visits[i].cursor.Some? ==> CursorValid(visits[i].cursor.value))
              && AfterOf(visits[i].cursor) < record.seqNo
    ensures exists j | 0 <= j < |visits| :: record in visits[j].page.result
    decreases |visits| - i
  {
    var v := visits[i];
    InvAtVisit(cfg, m, caller, limit, visits, i);
    RetainedAtVisit(cfg, m, caller, limit, visits, record, i);
    PageAnswered(cfg, m, caller, limit, v);
    assert Due(v.relay.boxes[m], AfterOf(v.cursor), v.now, record);
    hide Answered, Inv, Retained, Spares, CursorValid;
    if record !in v.page.result {
      assert Continues(cfg, v, visits[i + 1]);
      SparedIsCollected(cfg, m, caller, limit, visits, record, i + 1);
    }
  }

  lemma {:induction false} CollectedFrom(visits: seq<Visit>, record: PacketRecord)
    ensures record in Collected(visits) <==> exists j | 0 <= j < |visits| :: record in visits[j].page.result
  {
    if visits != [] {
      var n := |visits| - 1;
      CollectedFrom(visits[..n], record);
      assert forall j | 0 <= j < n :: visits[..n][j] == visits[j];
    }
  }

  /** Sequence numbers start at one, so the first page looks at every packet. */
  lemma SparedIsAhead(cfg: Config, m: Id, visits: seq<Visit>, record: PacketRecord)
    requires visits != [] && Inv(cfg, visits[0].relay) && Spared(cfg, m, visits, record)
    ensures 0 < record.seqNo
  {
    hide Spares, BoxInv;
    var x :| x in visits[0].relay.boxes[m].packets && x.record == record;
    assert BoxInv(cfg, m, visits[0].relay.boxes[m]);
    RetainedNumber(cfg, m, visits[0].relay.boxes[m], x);
  }

  /** On this page the relay retained the packet, unexpired. */
  ghost predicate ListedAt(m: Id, v: Visit, record: PacketRecord) {
    Retained(v.relay, m, record) && v.now < record.packet.expiresAt
  }

  lemma OnlyTheRetainedAreListed(
    cfg: Config, m: Id, caller: Option<string>, limit: Option<int>, visits: seq<Visit>, i: nat, record: PacketRecord)
    requires Enumerates(cfg, m, caller, limit, visits) && i < |visits| && record in visits[i].page.result
    ensures ListedAt(m, visits[i], record)
  {
    InvAtVisit(cfg, m, caller, limit, visits, i);
    PageAnswered(cfg, m, caller, limit, visits[i]);
    assert Due(visits[i].relay.boxes[m], AfterOf(visits[i].cursor), visits[i].now, record);
  }

  /**
   * Whatever happens between the pages: sequence numbers strictly rise over all of them, so no packet repeats and the
   * enumeration ends; nothing is listed that was not retained and unexpired; and one that reaches its end has
   * returned every packet that was there when it began and that neither its owner nor its expiry took.
   */
  lemma EnumerationSkipsNothing(
    cfg: Config, m: Id, caller: Option<string>, limit: Option<int>, visits: seq<Visit>)
    requires Enumerates(cfg, m, caller, limit, visits)
    ensures AscendingRecords(Collected(visits)) && |visits| <= MAX_SAFE + 1
    ensures visits[|visits| - 1].page.nextCursor.None? ==>
              forall record | Spared(cfg, m, visits, record) :: record in Collected(visits)
    ensures forall record | record in Collected(visits) :: exists i | 0 <= i < |visits| ::
              ListedAt(m, visits[i], record)
  {
    forall record | record in Collected(visits)
      ensures exists i | 0 <= i < |visits| :: ListedAt(m, visits[i], record)
    {
      CollectedFrom(visits, record);
      var i :| 0 <= i < |visits| && record in visits[i].page.result;
      OnlyTheRetainedAreListed(cfg, m, caller, limit, visits, i, record);
    }
    var n := |visits| - 1;
    EnumerationAscends(cfg, m, caller, limit, visits, n);
    PageExtends(cfg, m, caller, limit, visits, n);
    assert visits[..n + 1] == visits;
    hide Spared, Collected, Answered, ListedAt;
    if visits[n].page.nextCursor.None? {
      forall record | Spared(cfg, m, visits, record)
        ensures record in Collected(visits)
      {
        SparedIsAhead(cfg, m, visits, record);
        SparedIsCollected(cfg, m, caller, limit, visits, record, 0);
        CollectedFrom(visits, record);
      }
    }
  }
}
