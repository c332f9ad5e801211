/**
 * The life of one mailbox over whole runs: who opens it, whose it is, what each event leaves of it, and the one thing
 * that ends it.
 */
module MailMailboxes {
  import opened Common
  import opened Text
  import opened MailRelay
  import opened MailRelayRuns
  import opened MailListing
  import AgentUrl
  import Base64Url
  import NonceReplay

  // ---- Publication --------------------------------------------------------

  const DAY_MS: int := 86_400_000

  /** A card on its own: verified, and neither open nor readable for longer than the protocol allows. */
  predicate CardSound(cfg: Config, card: Card) {
    && cfg.cardVerifies(card)
    && card.createdAt < card.expiresAt && card.expiresAt - card.createdAt <= 30 * DAY_MS
    && card.expiresAt <= card.receiveUntil && card.receiveUntil - card.expiresAt <= 30 * DAY_MS
  }

  /** What a new card needs: the owner and a higher nonce for an open mailbox, this relay on its routes otherwise. */
  predicate CardAdmissible(cfg: Config, r: Relay, card: Card, now: int) {
    && SafeTime(now) && CardSound(cfg, card)
    && now - 300_000 <= card.createdAt <= now + 300_000 && 1 <= card.nonce <= MAX_SAFE
    && (if card.mailboxId in r.boxes then
          var current := r.boxes[card.mailboxId].current.envelope;
          card.actor == current.actor && card.hash != current.hash && current.nonce < card.nonce
        else cfg.origin in card.routes)
    && (card.actor in r.nonces ==>
          r.nonces[card.actor].expiresAt < now || r.nonces[card.actor].maxNonce < card.nonce)
  }

  /** Whether the relay already holds this very card. */
  predicate CardHeld(cfg: Config, r: Relay, card: Card, now: int) {
    && SafeTime(now) && CardSound(cfg, card) && card.mailboxId in r.boxes
    && var current := r.boxes[card.mailboxId].current.envelope;
       card.actor == current.actor && card.hash == current.hash
  }

  lemma CardSoundIff(cfg: Config, card: Card)
    ensures CardSound(cfg, card) <==> CardValid(cfg, card)
  {
  }

  /** Only an admissible card changes the relay, and then only its own mailbox and its owner's nonce. */
  lemma PublishedIff(cfg: Config, r: Relay, card: Card, now: int)
    ensures Published(cfg, r, card, now).1.Ok? <==> CardAdmissible(cfg, r, card, now) || CardHeld(cfg, r, card, now)
    ensures !CardAdmissible(cfg, r, card, now) ==> Published(cfg, r, card, now).0 == r
    ensures CardHeld(cfg, r, card, now) ==>
              Published(cfg, r, card, now).1 == Ok(r.boxes[card.mailboxId].current)
    ensures CardAdmissible(cfg, r, card, now) ==>
              && var t, m, record := Published(cfg, r, card, now).0, card.mailboxId, CardRecord(card, now);
                 && Published(cfg, r, card, now).1 == Ok(record)
                 && t.boxes == r.boxes[m := if m in r.boxes then r.boxes[m].(current := record)
                                            else Mailbox(record, 0, 0, [], map[], {})]
                 && t.nonces == r.nonces[card.actor := NonceReplay.NonceRecord(card.nonce, now + 600_000)]
  {
    hide CardSound, CardValid;
    CardSoundIff(cfg, card);
  }

  // ---- The end of a mailbox -----------------------------------------------

  /** A prune that reads a time at or past the end of the card, of every retained packet and of every tombstone. */
  predicate Closes(e: Event, b: Mailbox) {
    && e.Does? && e.step.op.Prune? && SafeTime(e.Now())
    && b.current.envelope.receiveUntil <= e.Now()
    && (forall x | x in b.packets :: x.record.packet.expiresAt <= e.Now())
    && (forall id | id in b.tombstones :: b.tombstones[id].expiresAt <= e.Now())
  }

  lemma PruneCloses(r: Relay, e: Event, m: Id)
    requires m in r.boxes && e.Does? && e.step.op.Prune?
    ensures m !in Pruned(r, e.Now()).0.boxes <==> Closes(e, r.boxes[m])
    ensures m in Pruned(r, e.Now()).0.boxes && SafeTime(e.Now()) ==>
              Pruned(r, e.Now()).0.boxes[m] == PrunedBox(r.boxes[m], e.Now())
  {
    var b, now := r.boxes[m], e.Now();
    KeepIsExact(b.packets, Live(now));
    hide Keep, TotalSize;
    var kept, buried := Keep(b.packets, Live(now)), Buried(b.tombstones, now);
    assert kept != [] ==> kept[0] in kept;
    assert buried == map[] <==> forall id | id in b.tombstones :: b.tombstones[id].expiresAt <= now by {
      if buried == map[] {
        forall id | id in b.tombstones
          ensures b.tombstones[id].expiresAt <= now
        {
          assert id !in buried;
        }
      }
    }
  }

  lemma OthersStayOpen(cfg: Config, r: Relay, step: Step, m: Id)
    requires m in r.boxes && !step.op.Prune?
    ensures m in Apply(cfg, r, step).boxes
  {
    hide Keep, TotalSize, CardValid, PathIdValid, PacketRefusal, AdmissionRefusal, QuotaRefusal, SafeTime,
        AgentUrl.AgentIdValid;
  }

  /** A mailbox goes exactly when a prune finds all of it over; a live card alone is enough to keep it. */
  lemma ClosedIff(cfg: Config, r: Relay, e: Event, m: Id)
    requires Inv(cfg, r) && (e.Restarts? ==> IsSnapshot(e.snapshot, r.boxes)) && m in r.boxes
    ensures m !in Next(cfg, r, e).boxes <==> Closes(e, r.boxes[m])
  {
    hide Inv, Apply, Pruned, RestoredBoxes, Closes;
    if e.Restarts? {
      EventKeepsInv(cfg, r, e);
      RestartsCloseNothing(e, r.boxes[m]);
    } else if e.step.op.Prune? {
      PruneCloses(r, e, m);
      PruneIsPruned(cfg, r, e);
    } else {
      OthersStayOpen(cfg, r, e.step, m);
      RestartsCloseNothing(e, r.boxes[m]);
    }
  }

  lemma PruneIsPruned(cfg: Config, r: Relay, e: Event)
    requires e.Does? && e.step.op.Prune?
    ensures Next(cfg, r, e) == Pruned(r, e.Now()).0
  {
  }

  lemma RestartsCloseNothing(e: Event, b: Mailbox)
    requires e.Does? ==> !e.step.op.Prune?
    ensures !Closes(e, b)
  {
  }

  // ---- What an event leaves of a mailbox ----------------------------------

  /** A new card for this mailbox is accepted. */
  predicate Renews(cfg: Config, r: Relay, e: Event, m: Id) {
    e.Does? && e.step.op.Publish? && e.step.op.card.mailboxId == m && CardAdmissible(cfg, r, e.step.op.card, e.Now())
  }

  /** A mailbox is opened by an admissible card, empty, and by nothing else. */
  lemma OpenedIff(cfg: Config, r: Relay, e: Event, m: Id)
    requires Inv(cfg, r) && (e.Restarts? ==> IsSnapshot(e.snapshot, r.boxes)) && m !in r.boxes
    ensures m in Next(cfg, r, e).boxes <==> Renews(cfg, r, e, m)
    ensures Renews(cfg, r, e, m) ==>
              Next(cfg, r, e).boxes[m] == Mailbox(CardRecord(e.step.op.card, e.Now()), 0, 0, [], map[], {})
  {
    if e.Restarts? {
      EventKeepsInv(cfg, r, e);
    } else {
      hide Inv, RestoredBoxes, CardAdmissible, CardHeld, Published, Keep, TotalSize, PathIdValid, PacketRefusal,
          AdmissionRefusal, QuotaRefusal, SafeTime, AgentUrl.AgentIdValid;
      if e.step.op.Publish? {
        PublishedIff(cfg, r, e.step.op.card, e.Now());
      }
    }
  }

  /** A sender is blocked from this mailbox, or let in again. */
  predicate SetsSender(e: Event, m: Id, sender: string, blocked: bool) {
    && e.Does? && e.step.op == SetSenderBlocked(m, sender, blocked)
    && PathIdValid(m, 16) && AgentUrl.AgentIdValid(sender)
  }

  predicate DeliversTo(e: Event, m: Id) {
    e.Does? && e.step.op.Deliver? && e.step.op.mailboxId == m
  }

  /** A packet of this mailbox is enqueued. */
  predicate Enqueues(cfg: Config, r: Relay, e: Event, m: Id) {
    DeliversTo(e, m) && Ends(cfg, r, m, e.step.op.packet, e.Now()) == Stores
  }

  /** The card, the last number and the sender policy after an event: each changes by its own operation only. */
  ghost predicate PolicyFollows(cfg: Config, r: Relay, e: Event, m: Id, b: Mailbox, b': Mailbox) {
    && b'.current == (if Renews(cfg, r, e, m) then CardRecord(e.step.op.card, e.Now()) else b.current)
    && b'.lastSeq == b.lastSeq + (if Enqueues(cfg, r, e, m) then 1 else 0)
    && forall sender ::
         sender in b'.blocked <==>
           if SetsSender(e, m, sender, true) then true
           else if SetsSender(e, m, sender, false) then false
           else sender in b.blocked
  }

  /** This event takes this packet: the owner deletes it, or it is expired and a prune or a delivery sweeps. */
  predicate Takes(cfg: Config, r: Relay, e: Event, m: Id, x: Stored)
    requires m in r.boxes
  {
    || Deletes(r, e, m, x.record.packetId)
    || (x.record.packet.expiresAt <= e.Now()
        && (|| (e.Does? && e.step.op.Prune? && SafeTime(e.Now()))
            || (DeliversTo(e, m)
                && (Ends(cfg, r, m, e.step.op.packet, e.Now()).Stores?
                    || Ends(cfg, r, m, e.step.op.packet, e.Now()).RefusedAfterSweep?))))
  }

  /** The packets after an event: those it does not take, and the one it enqueues. */
  ghost predicate PacketsFollow(cfg: Config, r: Relay, e: Event, m: Id, b': Mailbox)
    requires m in r.boxes
  {
    forall x ::
      x in b'.packets <==>
        || (x in r.boxes[m].packets && !Takes(cfg, r, e, m, x))
        || (Enqueues(cfg, r, e, m)
            && x == Stored(PacketRecord(e.step.op.packet.hash, e.step.op.packet, e.Now(), r.boxes[m].lastSeq + 1),
                           cfg.size(e.step.op.packet)))
  }

  lemma PublishFollows(cfg: Config, r: Relay, e: Event, m: Id)
    requires m in r.boxes && e.Does? && e.step.op.Publish?
    ensures m in Next(cfg, r, e).boxes
    ensures PolicyFollows(cfg, r, e, m, r.boxes[m], Next(cfg, r, e).boxes[m])
    ensures PacketsFollow(cfg, r, e, m, Next(cfg, r, e).boxes[m])
  {
    hide Published, CardAdmissible, CardHeld, Delivered, Deleted, SenderSet, Pruned, RestoredBoxes, Ends;
    PublishedIff(cfg, r, e.step.op.card, e.Now());
  }

  lemma SweptIs(b: Mailbox, now: int)
    ensures Swept(b, now).current == b.current && Swept(b, now).lastSeq == b.lastSeq
    ensures Swept(b, now).blocked == b.blocked
    ensures forall x :: x in Swept(b, now).packets <==> x in b.packets && now < x.record.packet.expiresAt
  {
    KeepIsExact(b.packets, Live(now));
    hide Keep, TotalSize;
  }

  lemma EnqueuedIs(cfg: Config, b: Mailbox, p: Packet, now: int)
    ensures var t := Enqueued(cfg, b, p, now);
      && t.current == b.current && t.lastSeq == b.lastSeq + 1 && t.blocked == b.blocked
      && forall x :: x in t.packets <==>
           x in b.packets || x == Stored(PacketRecord(p.hash, p, now, b.lastSeq + 1), cfg.size(p))
  {
  }

  lemma DeliveryEnds(cfg: Config, r: Relay, m: Id, p: Packet, now: int, other: Id)
    requires other in r.boxes
    ensures var ending, t := Ends(cfg, r, m, p, now), Delivered(cfg, r, m, p, now).0;
      && other in t.boxes
      && t.boxes[other] ==
           if other == m && ending.Stores? then Enqueued(cfg, Swept(r.boxes[m], now), p, now)
           else if other == m && ending.RefusedAfterSweep? then Swept(r.boxes[m], now)
           else r.boxes[other]
  {
    hide PathIdValid, PacketRefusal, AdmissionRefusal, QuotaRefusal, SafeTime, Swept, Enqueued;
  }

  lemma DeliveryPolicy(cfg: Config, r: Relay, e: Event, m: Id)
    requires m in r.boxes && e.Does? && e.step.op.Deliver?
    ensures m in Next(cfg, r, e).boxes
    ensures PolicyFollows(cfg, r, e, m, r.boxes[m], Next(cfg, r, e).boxes[m])
  {
    DeliveryEnds(cfg, r, e.step.op.mailboxId, e.step.op.packet, e.Now(), m);
    SweptIs(r.boxes[m], e.Now());
    EnqueuedIs(cfg, Swept(r.boxes[m], e.Now()), e.step.op.packet, e.Now());
    hide Published, Deleted, SenderSet, Pruned, Delivered, Ends, Enqueued, Swept, SafeTime, RestoredBoxes;
  }

  lemma DeliveryPackets(cfg: Config, r: Relay, e: Event, m: Id)
    requires m in r.boxes && e.Does? && e.step.op.Deliver? && m in Next(cfg, r, e).boxes
    ensures PacketsFollow(cfg, r, e, m, Next(cfg, r, e).boxes[m])
  {
    DeliveryEnds(cfg, r, e.step.op.mailboxId, e.step.op.packet, e.Now(), m);
    SweptIs(r.boxes[m], e.Now());
    EnqueuedIs(cfg, Swept(r.boxes[m], e.Now()), e.step.op.packet, e.Now());
    hide Published, Deleted, SenderSet, Pruned, Delivered, Ends, Enqueued, Swept, SafeTime, RestoredBoxes;
  }

  lemma DeletionIs(r: Relay, mailboxId: Id, id: Id, caller: Option<string>, now: int, m: Id)
    requires m in r.boxes
    ensures var (t, done) := Deleted(r, mailboxId, id, caller, now);
      && m in t.boxes && t.boxes[m].current == r.boxes[m].current && t.boxes[m].lastSeq == r.boxes[m].lastSeq
      && t.boxes[m].blocked == r.boxes[m].blocked
      && forall x :: x in t.boxes[m].packets <==>
           x in r.boxes[m].packets && !(done.Ok? && m == mailboxId && x.record.packetId == id)
  {
    KeepIsExact(r.boxes[m].packets, Other(id));
    hide Keep, TotalSize, PathIdValid, OwnerRefusal, SafeTime;
  }

  lemma DeletionFollows(cfg: Config, r: Relay, e: Event, m: Id)
    requires m in r.boxes && e.Does? && e.step.op.Delete?
    ensures m in Next(cfg, r, e).boxes
    ensures PolicyFollows(cfg, r, e, m, r.boxes[m], Next(cfg, r, e).boxes[m])
    ensures PacketsFollow(cfg, r, e, m, Next(cfg, r, e).boxes[m])
  {
    DeletionIs(r, e.step.op.mailboxId, e.step.op.packetId, e.step.op.caller, e.Now(), m);
    hide Deleted, SafeTime, Published, Delivered, SenderSet, Pruned, RestoredBoxes, Ends;
  }

  lemma SenderPolicyFollows(cfg: Config, r: Relay, e: Event, m: Id)
    requires m in r.boxes && e.Does? && e.step.op.SetSenderBlocked?
    ensures m in Next(cfg, r, e).boxes
    ensures PolicyFollows(cfg, r, e, m, r.boxes[m], Next(cfg, r, e).boxes[m])
    ensures PacketsFollow(cfg, r, e, m, Next(cfg, r, e).boxes[m])
  {
    hide PathIdValid, AgentUrl.AgentIdValid, SafeTime, Published, Delivered, Deleted, Pruned, RestoredBoxes, Ends;
  }

  lemma RestartFollows(cfg: Config, r: Relay, e: Event, m: Id)
    requires m in r.boxes && e.Restarts? && Next(cfg, r, e).boxes == r.boxes
    ensures PolicyFollows(cfg, r, e, m, r.boxes[m], Next(cfg, r, e).boxes[m])
    ensures PacketsFollow(cfg, r, e, m, Next(cfg, r, e).boxes[m])
  {
    hide Next;
  }

  lemma PrunedMailbox(r: Relay, e: Event, m: Id)
    requires m in r.boxes && e.Does? && e.step.op.Prune? && m in Pruned(r, e.Now()).0.boxes
    ensures var b, b' := r.boxes[m], Pruned(r, e.Now()).0.boxes[m];
      && b'.current == b.current && b'.lastSeq == b.lastSeq && b'.blocked == b.blocked
      && forall x :: x in b'.packets <==>
           x in b.packets && !(SafeTime(e.Now()) && x.record.packet.expiresAt <= e.Now())
  {
    SweptIs(r.boxes[m], e.Now());
    PruneCloses(r, e, m);
    hide PrunedBoxes, Swept, SafeTime;
  }

  lemma PruneFollows(cfg: Config, r: Relay, e: Event, m: Id)
    requires m in r.boxes && e.Does? && e.step.op.Prune? && m in Next(cfg, r, e).boxes
    ensures PolicyFollows(cfg, r, e, m, r.boxes[m], Next(cfg, r, e).boxes[m])
    ensures PacketsFollow(cfg, r, e, m, Next(cfg, r, e).boxes[m])
  {
    PrunedMailbox(r, e, m);
    hide Pruned, SafeTime, Published, Delivered, Deleted, SenderSet, RestoredBoxes, Ends;
  }

  /** Exactly what an event leaves of a mailbox that it does not close. */
  lemma MailboxFollows(cfg: Config, r: Relay, e: Event, m: Id)
    requires Inv(cfg, r) && (e.Restarts? ==> IsSnapshot(e.snapshot, r.boxes)) && m in r.boxes
    ensures m in Next(cfg, r, e).boxes ==>
              && PolicyFollows(cfg, r, e, m, r.boxes[m], Next(cfg, r, e).boxes[m])
              && PacketsFollow(cfg, r, e, m, Next(cfg, r, e).boxes[m])
  {
    hide Inv, Next, PolicyFollows, PacketsFollow;
    if e.Restarts? {
      EventKeepsInv(cfg, r, e);
      RestartFollows(cfg, r, e, m);
    } else {
      match e.step.op
      case Publish(_) => PublishFollows(cfg, r, e, m);
      case Deliver(_, _) =>
        DeliveryPolicy(cfg, r, e, m);
        DeliveryPackets(cfg, r, e, m);
      case Delete(_, _, _) => DeletionFollows(cfg, r, e, m);
      case SetSenderBlocked(_, _, _) => SenderPolicyFollows(cfg, r, e, m);
      case Prune =>
        if m in Next(cfg, r, e).boxes {
          PruneFollows(cfg, r, e, m);
        }
    }
  }

  /** The nonces after an event: an admissible card leaves its own, a restart forgets them all. */
  lemma NoncesFollow(cfg: Config, r: Relay, e: Event)
    ensures Next(cfg, r, e).nonces ==
              if e.Restarts? then map[]
              else if e.step.op.Publish? && CardAdmissible(cfg, r, e.step.op.card, e.Now())
              then r.nonces[e.step.op.card.actor := NonceReplay.NonceRecord(e.step.op.card.nonce, e.Now() + 600_000)]
              else r.nonces
  {
    hide RestoredBoxes, CardAdmissible, CardHeld, Published, Keep, TotalSize, PathIdValid, PacketRefusal,
        AdmissionRefusal, QuotaRefusal, SafeTime, AgentUrl.AgentIdValid;
    if e.Does? && e.step.op.Publish? {
      PublishedIff(cfg, r, e.step.op.card, e.Now());
    }
  }

  // ---- Owners -------------------------------------------------------------

  /** The path ids of a length are the encodings of the byte strings of that length. */
  lemma PathIdIff(id: Id, length: nat)
    ensures PathIdValid(id, length) <==> exists b: seq<byte> :: |b| == length && Base64Url.Encoded(b) == id
  {
    if PathIdValid(id, length) {
      Base64Url.EncodeUndoesDecode(id);
    }
    if exists b: seq<byte> :: |b| == length && Base64Url.Encoded(b) == id {
      var b: seq<byte> :| |b| == length && Base64Url.Encoded(b) == id;
      Base64Url.DecodeUndoesEncode(b);
    }
  }

  /** A deletion takes the owner of the mailbox and two well-formed ids. */
  lemma DeletedIff(r: Relay, m: Id, id: Id, caller: Option<string>, now: int)
    ensures Deleted(r, m, id, caller, now).1.Ok? <==>
              && SafeTime(now) && PathIdValid(m, 16) && PathIdValid(id, 32)
              && m in r.boxes && caller == Some(r.boxes[m].current.envelope.actor)
    ensures Deleted(r, m, id, caller, now).1.Err? ==> Deleted(r, m, id, caller, now).0 == r
  {
    hide PathIdValid, Thinned;
  }

  /** So does a listing, with a limit of 1 to 1000 and no cursor or a safe integer in decimal. */
  lemma ListedIff(r: Relay, m: Id, caller: Option<string>, limit: Option<int>, cursor: Option<string>, now: int)
    ensures Listing(r, m, caller, limit, cursor, now).Ok? <==>
              && SafeTime(now) && PathIdValid(m, 16)
              && m in r.boxes && caller == Some(r.boxes[m].current.envelope.actor)
              && (limit.Some? ==> 1 <= limit.value <= 1000)
              && (cursor.Some? ==>
                    && cursor.value != "" && (forall i | 0 <= i < |cursor.value| :: '0' <= cursor.value[i] <= '9')
                    && (cursor.value == "0" || cursor.value[0] != '0') && ParseDecimal(cursor.value) <= MAX_SAFE)
  {
    hide PathIdValid, PageOf, ParseDecimal;
  }

  /** A retained packet that an event takes before its expiry was deleted, by the owner of its mailbox. */
  lemma EarlyLossIsTheOwners(cfg: Config, r: Relay, e: Event, m: Id, record: PacketRecord)
    requires Inv(cfg, r) && (e.Restarts? ==> IsSnapshot(e.snapshot, r.boxes)) && Retained(r, m, record)
    requires e.Now() < record.packet.expiresAt && !Retained(Next(cfg, r, e), m, record)
    ensures e.Does? && e.step.op == Delete(m, record.packetId, Some(r.boxes[m].current.envelope.actor))
  {
    hide Next, Retained, Deleted, Inv;
    if !Deletes(r, e, m, record.packetId) {
      EventSpares(cfg, r, e, m, record);
    } else {
      DeletedIff(r, m, record.packetId, e.step.op.caller, e.Now());
    }
  }

  /** Who gets which answer: a packet in accepted history its first acceptance time, a packet stored now this one. */
  lemma DeliveredIff(cfg: Config, r: Relay, m: Id, p: Packet, now: int)
    ensures var known := m in r.boxes && p.hash in r.boxes[m].tombstones;
      && (Delivered(cfg, r, m, p, now).1.Ok? <==>
            || Ends(cfg, r, m, p, now) == Stores
            || (&& known && SafeTime(now) && PathIdValid(m, 16) && cfg.packetVerifies(p) && p.mailboxId == m
                && p.createdAt < p.expiresAt <= p.createdAt + 30 * DAY_MS + 300_000 && cfg.size(p) <= 1_048_576))
      && (Delivered(cfg, r, m, p, now).1.Ok? ==>
            Delivered(cfg, r, m, p, now).1.value
              == Delivery(p.hash, if known then r.boxes[m].tombstones[p.hash].acceptedAt else now))
  {
    hide PathIdValid, Keep, TotalSize, AdmissionRefusal, QuotaRefusal;
  }

  // ---- Runs ---------------------------------------------------------------

  lemma LastSeen(cfg: Config, r: Relay, run: seq<Event>, n: nat, m: Id)
    requires Inv(cfg, r) && Lawful(cfg, r, run) && n < |run|
    requires m in At(cfg, r, run, n).boxes && m !in At(cfg, r, run, n + 1).boxes
    ensures Closes(run[n], At(cfg, r, run, n).boxes[m])
  {
    hide Next, Closes, Inv;
    ReachableInv(cfg, r, run, n);
    ClosedIff(cfg, At(cfg, r, run, n), run[n], m);
  }

  /** A mailbox that is gone was closed: a prune found its card, its packets and its tombstones over. */
  lemma {:induction false} GoneWasClosed(cfg: Config, r: Relay, run: seq<Event>, i: nat, j: nat, m: Id)
    requires Inv(cfg, r) && Lawful(cfg, r, run) && i <= j <= |run|
    requires m in At(cfg, r, run, i).boxes && m !in At(cfg, r, run, j).boxes
    ensures exists q | i <= q < j :: m in At(cfg, r, run, q).boxes && Closes(run[q], At(cfg, r, run, q).boxes[m])
    decreases j
  {
    hide At, Closes, Inv, Lawful;
    if m in At(cfg, r, run, j - 1).boxes {
      LastSeen(cfg, r, run, j - 1, m);
    } else {
      GoneWasClosed(cfg, r, run, i, j - 1, m);
    }
  }

  /** No prune reads a time at or past the end of the card that the mailbox then has. */
  ghost predicate CardStaysLive(cfg: Config, r: Relay, run: seq<Event>, i: nat, j: nat, m: Id)
    requires i <= j <= |run|
  {
    forall q | i <= q < j && m in At(cfg, r, run, q).boxes && run[q].Does? && run[q].step.op.Prune? ::
      run[q].Now() < At(cfg, r, run, q).boxes[m].current.envelope.receiveUntil
  }

  /** A mailbox whose card is live at every prune is there whatever else happens. */
  lemma LiveCardKeepsMailbox(cfg: Config, r: Relay, run: seq<Event>, i: nat, j: nat, m: Id)
    requires Inv(cfg, r) && Lawful(cfg, r, run) && i <= j <= |run|
    requires m in At(cfg, r, run, i).boxes && CardStaysLive(cfg, r, run, i, j, m)
    ensures m in At(cfg, r, run, j).boxes
  {
    hide At, Inv, Lawful;
    if m !in At(cfg, r, run, j).boxes {
      GoneWasClosed(cfg, r, run, i, j, m);
    }
  }

  /** The mailbox exists at every moment from `i` to `j`. */
  ghost predicate OpenThroughout(cfg: Config, r: Relay, run: seq<Event>, i: nat, j: nat, m: Id)
    requires i <= j <= |run|
  {
    forall k | i <= k <= j :: m in At(cfg, r, run, k).boxes
  }

  lemma OneEventKeepsOwner(cfg: Config, r: Relay, e: Event, m: Id)
    requires Inv(cfg, r) && (e.Restarts? ==> IsSnapshot(e.snapshot, r.boxes))
    requires m in r.boxes && m in Next(cfg, r, e).boxes
    ensures var b, b' := r.boxes[m], Next(cfg, r, e).boxes[m];
      && b'.current.envelope.actor == b.current.envelope.actor && b.lastSeq <= b'.lastSeq
      && (b'.current == b.current || b.current.envelope.nonce < b'.current.envelope.nonce)
      && forall sender | sender in b.blocked && !SetsSender(e, m, sender, false) :: sender in b'.blocked
  {
    hide Inv, Next, PacketsFollow, SetsSender, Enqueues, CardSound, NonceReplay.InWindow;
    MailboxFollows(cfg, r, e, m);
  }

  lemma OpenStep(cfg: Config, r: Relay, run: seq<Event>, i: nat, j: nat, m: Id)
    requires Inv(cfg, r) && Lawful(cfg, r, run) && i < j <= |run| && OpenThroughout(cfg, r, run, i, j, m)
    ensures OpenThroughout(cfg, r, run, i, j - 1, m)
    ensures var s := At(cfg, r, run, j - 1);
      && Inv(cfg, s) && (run[j - 1].Restarts? ==> IsSnapshot(run[j - 1].snapshot, s.boxes))
      && At(cfg, r, run, j) == Next(cfg, s, run[j - 1]) && m in s.boxes && m in Next(cfg, s, run[j - 1]).boxes
  {
    hide Next, Inv;
    ReachableInv(cfg, r, run, j - 1);
    assert m in At(cfg, r, run, j).boxes;
  }

  /** While a mailbox exists its owner never changes, only a later card replaces its card, and its numbers only rise. */
  lemma {:induction false} OwnerNeverChanges(cfg: Config, r: Relay, run: seq<Event>, i: nat, j: nat, m: Id)
    requires Inv(cfg, r) && Lawful(cfg, r, run) && i <= j <= |run| && OpenThroughout(cfg, r, run, i, j, m)
    ensures m in At(cfg, r, run, i).boxes && m in At(cfg, r, run, j).boxes
    ensures var b, b' := At(cfg, r, run, i).boxes[m], At(cfg, r, run, j).boxes[m];
      && b'.current.envelope.actor == b.current.envelope.actor && b.lastSeq <= b'.lastSeq
      && (b'.current == b.current || b.current.envelope.nonce < b'.current.envelope.nonce)
    decreases j
  {
    hide Next, Inv, At, IsSnapshot;
    if i < j {
      OpenStep(cfg, r, run, i, j, m);
      OwnerNeverChanges(cfg, r, run, i, j - 1, m);
      OneEventKeepsOwner(cfg, At(cfg, r, run, j - 1), run[j - 1], m);
    }
  }

  lemma BlockedIsNotStored(cfg: Config, r: Relay, m: Id, p: Packet, now: int)
    requires m in r.boxes && p.actor in r.boxes[m].blocked
    ensures Ends(cfg, r, m, p, now) != Stores
  {
    hide PathIdValid, Keep, TotalSize;
    StoresIff(cfg, r, m, p, now);
  }

  /** A blocked sender stays blocked until it is let in again, and none of its packets is stored meanwhile. */
  lemma {:induction false} BlockedUntilLetIn(
    cfg: Config, r: Relay, run: seq<Event>, i: nat, j: nat, m: Id, sender: string)
    requires Inv(cfg, r) && Lawful(cfg, r, run) && i <= j < |run| && OpenThroughout(cfg, r, run, i, j, m)
    requires sender in At(cfg, r, run, i).boxes[m].blocked
    requires forall k | i <= k < j :: !SetsSender(run[k], m, sender, false)
    ensures m in At(cfg, r, run, j).boxes && sender in At(cfg, r, run, j).boxes[m].blocked
    ensures DeliversTo(run[j], m) && run[j].step.op.packet.actor == sender ==> !EnqueuesAt(cfg, r, run, j)
    decreases j
  {
    hide Next, Inv, At, IsSnapshot, SetsSender, Ends;
    if i < j {
      OpenStep(cfg, r, run, i, j, m);
      BlockedUntilLetIn(cfg, r, run, i, j - 1, m, sender);
      OneEventKeepsOwner(cfg, At(cfg, r, run, j - 1), run[j - 1], m);
    }
    if DeliversTo(run[j], m) && run[j].step.op.packet.actor == sender {
      BlockedIsNotStored(cfg, At(cfg, r, run, j), m, run[j].step.op.packet, run[j].Now());
    }
  }
}
