/**
 * The store-and-forward mail relay: card publication, packet delivery with quotas and tombstones, owner
 * deletion, pruning, and snapshots. `Relay` is its state as a value; the class `MailRelayStore` is the relay.
 */
module MailRelay {
  import opened Common
  import opened Text
  import AgentUrl
  import Base64Url
  import NonceReplay

  type Id = string

  const MAX_TTL_MS: int := 30 * 86400000
  const FUTURE_SKEW_MS: int := 300000
  const MAX_PACKET_BYTES: int := 1048576

  datatype Card = Card(
    hash: Id, actor: string, nonce: nat, createdAt: int, mailboxId: Id,
    expiresAt: int, receiveUntil: int, routes: seq<string>, maxPacketBytes: nat)

  datatype CardRecord = CardRecord(envelope: Card, acceptedAt: int)

  /** A signed packet's metadata; `content` stands for its encapsulated key and ciphertext. */
  datatype Packet = Packet(
    hash: Id, actor: string, createdAt: int, mailboxId: Id, cardHash: Id, expiresAt: int, content: string)

  /** Signature and schema verification and canonical sizes are parameters. */
  datatype Config = Config(
    origin: string, maxPackets: nat, maxBytes: nat,
    cardVerifies: Card -> bool, packetVerifies: Packet -> bool, size: Packet -> nat)

  /** A packet id is a hash of the signed event, so verified packets with one id are one packet. */
  ghost predicate HashBinds(cfg: Config) {
    forall p, q | cfg.packetVerifies(p) && cfg.packetVerifies(q) && p.hash == q.hash :: p == q
  }

  datatype Error =
    | InvalidRequest | InvalidEvent | PayloadTooLarge | MailboxUnavailable | StaleCard | PacketExpired
    | TimestampOutOfWindow | RateLimited | PermissionDenied | MailboxConflict
    | NonceNotGreater(maxNonce: nat) | InvalidNonce | InvalidToken | InvalidAgentId

  datatype PacketRecord = PacketRecord(packetId: Id, packet: Packet, acceptedAt: int, seqNo: nat)

  datatype Stored = Stored(record: PacketRecord, size: nat)

  datatype Tombstone = Tombstone(acceptedAt: int, expiresAt: int)

  /** `packets` is an insertion-ordered map: its entries by age, with distinct ids. */
  datatype Mailbox = Mailbox(
    current: CardRecord, lastSeq: nat, bytes: int, packets: seq<Stored>,
    tombstones: map<Id, Tombstone>, blocked: set<string>)

  datatype Relay = Relay(boxes: map<Id, Mailbox>, nonces: NonceReplay.Table)

  const EMPTY := Relay(map[], map[])

  datatype Delivery = Delivery(packetId: Id, acceptedAt: int)

  // ---- Sizes and expiry ---------------------------------------------------

  function TotalSize(packets: seq<Stored>): int {
    if packets == [] then 0 else TotalSize(packets[..|packets| - 1]) + packets[|packets| - 1].size
  }

  /** The entries that stay when a loop deletes the others from the map: same order, nothing else. */
  function Keep(packets: seq<Stored>, stays: Stored -> bool): seq<Stored> {
    if packets == [] then []
    else
      var last := packets[|packets| - 1];
      Keep(packets[..|packets| - 1], stays) + if stays(last) then [last] else []
  }

  function Live(now: int): Stored -> bool {
    (x: Stored) => now < x.record.packet.expiresAt
  }

  function Other(id: Id): Stored -> bool {
    (x: Stored) => x.record.packetId != id
  }

  function Listed(after: nat, now: int): Stored -> bool {
    (x: Stored) => after < x.record.seqNo && now < x.record.packet.expiresAt
  }

  /** The mailbox with only some of its packets; `bytes` falls by exactly the sizes of the others. */
  function Thinned(b: Mailbox, stays: Stored -> bool): Mailbox {
    var kept := Keep(b.packets, stays);
    b.(packets := kept, bytes := b.bytes - (TotalSize(b.packets) - TotalSize(kept)))
  }

  function Swept(b: Mailbox, now: int): Mailbox {
    Thinned(b, Live(now))
  }

  function Buried(tombstones: map<Id, Tombstone>, now: int): map<Id, Tombstone> {
    map id | id in tombstones && now < tombstones[id].expiresAt :: tombstones[id]
  }

  /** An identifier in a path: the one text of `length` bytes. */
  predicate PathIdValid(id: Id, length: nat) {
    var bytes := Base64Url.Decoded(id);
    bytes.Some? && |bytes.value| == length
  }

  // ---- Publication --------------------------------------------------------

  predicate CardValid(cfg: Config, card: Card) {
    && cfg.cardVerifies(card)
    && card.createdAt < card.expiresAt <= card.createdAt + MAX_TTL_MS
    && card.expiresAt <= card.receiveUntil <= card.expiresAt + MAX_TTL_MS
  }

  function Published(cfg: Config, r: Relay, card: Card, now: int): (Relay, Result<CardRecord, Error>) {
    var m := card.mailboxId;
    if !SafeTime(now) then (r, Err(InvalidRequest))
    else if !CardValid(cfg, card) then (r, Err(InvalidEvent))
    else if m in r.boxes && r.boxes[m].current.envelope.actor != card.actor then (r, Err(MailboxConflict))
    else if m in r.boxes && r.boxes[m].current.envelope.hash == card.hash then (r, Ok(r.boxes[m].current))
    else if m in r.boxes && card.nonce <= r.boxes[m].current.envelope.nonce then
      (r, Err(NonceNotGreater(r.boxes[m].current.envelope.nonce)))
    else if m !in r.boxes && cfg.origin !in card.routes then (r, Err(PermissionDenied))
    else if !NonceReplay.InWindow(card.createdAt, now, FUTURE_SKEW_MS) then (r, Err(TimestampOutOfWindow))
    else
      var (nonces, checked) := NonceReplay.Updated(r.nonces, card.actor, card.nonce, now, 2 * FUTURE_SKEW_MS);
      match checked {
        case Err(NonceNotGreater(max)) => (r, Err(NonceNotGreater(max)))
        case Err(_) => (r, Err(InvalidNonce))
        case Ok(_) =>
          var record := CardRecord(card, now);
          var box := if m in r.boxes then r.boxes[m].(current := record) else Mailbox(record, 0, 0, [], map[], {});
          (Relay(r.boxes[m := box], nonces), Ok(record))
      }
  }

  // ---- Delivery -----------------------------------------------------------

  function PacketRefusal(cfg: Config, p: Packet): Option<Error> {
    if !cfg.packetVerifies(p) || !(p.createdAt < p.expiresAt <= p.createdAt + MAX_TTL_MS + FUTURE_SKEW_MS)
    then Some(InvalidEvent)
    else if cfg.size(p) > MAX_PACKET_BYTES then Some(PayloadTooLarge)
    else None
  }

  /** Card, time and size rules for a packet that is not already in accepted history. */
  function AdmissionRefusal(cfg: Config, card: Card, p: Packet, now: int): Option<Error> {
    if cfg.origin !in card.routes then Some(MailboxUnavailable)
    else if p.cardHash != card.hash || now >= card.expiresAt then Some(StaleCard)
    else if now >= p.expiresAt then Some(PacketExpired)
    else if p.expiresAt > card.receiveUntil || p.expiresAt - now > MAX_TTL_MS + FUTURE_SKEW_MS then Some(InvalidEvent)
    else if p.createdAt > now + FUTURE_SKEW_MS then Some(TimestampOutOfWindow)
    else if cfg.size(p) > card.maxPacketBytes then Some(PayloadTooLarge)
    else None
  }

  function QuotaRefusal(cfg: Config, b: Mailbox, p: Packet): Option<Error> {
    if |b.packets| >= cfg.maxPackets || b.bytes + cfg.size(p) > cfg.maxBytes || b.lastSeq >= MAX_SAFE
    then Some(RateLimited)
    else if p.actor in b.blocked then Some(PermissionDenied)
    else None
  }

  function Enqueued(cfg: Config, b: Mailbox, p: Packet, now: int): Mailbox {
    var record := PacketRecord(p.hash, p, now, b.lastSeq + 1);
    b.(lastSeq := b.lastSeq + 1,
       packets := b.packets + [Stored(record, cfg.size(p))],
       bytes := b.bytes + cfg.size(p),
       tombstones := b.tombstones[p.hash := Tombstone(now, p.expiresAt)])
  }

  /** How a delivery ends: refused outright, refused after expired packets went, remembered, or stored. */
  datatype Ending = Refused(error: Error) | RefusedAfterSweep(error: Error) | Remembered(acceptedAt: int) | Stores

  function Ends(cfg: Config, r: Relay, mailboxId: Id, p: Packet, now: int): Ending {
    if !SafeTime(now) || !PathIdValid(mailboxId, 16) then Refused(InvalidRequest)
    else if PacketRefusal(cfg, p).Some? then Refused(PacketRefusal(cfg, p).value)
    else if p.mailboxId != mailboxId then Refused(InvalidEvent)
    else if mailboxId !in r.boxes then Refused(MailboxUnavailable)
    else
      var b := r.boxes[mailboxId];
      if p.hash in b.tombstones then Remembered(b.tombstones[p.hash].acceptedAt)
      else
        var refusal := AdmissionRefusal(cfg, b.current.envelope, p, now);
        if refusal.Some? then Refused(refusal.value)
        else
          var quota := QuotaRefusal(cfg, Swept(b, now), p);
          if quota.Some? then RefusedAfterSweep(quota.value) else Stores
  }

  function Delivered(cfg: Config, r: Relay, mailboxId: Id, p: Packet, now: int): (Relay, Result<Delivery, Error>) {
    match Ends(cfg, r, mailboxId, p, now)
    case Refused(e) => (r, Err(e))
    case Remembered(t) => (r, Ok(Delivery(p.hash, t)))
    case RefusedAfterSweep(e) => (r.(boxes := r.boxes[mailboxId := Swept(r.boxes[mailboxId], now)]), Err(e))
    case Stores =>
      var box := Enqueued(cfg, Swept(r.boxes[mailboxId], now), p, now);
      (r.(boxes := r.boxes[mailboxId := box]), Ok(Delivery(p.hash, now)))
  }

  // ---- Owner operations and pruning ---------------------------------------

  /** `caller` is the subject of a verified request token for this relay, if there is one. */
  function OwnerRefusal(r: Relay, mailboxId: Id, caller: Option<string>): Option<Error> {
    if !PathIdValid(mailboxId, 16) then Some(InvalidRequest)
    else if caller.None? then Some(InvalidToken)
    else if mailboxId !in r.boxes then Some(MailboxUnavailable)
    else if caller.value != r.boxes[mailboxId].current.envelope.actor then Some(PermissionDenied)
    else None
  }

  function Deleted(
    r: Relay, mailboxId: Id, packetId: Id, caller: Option<string>, now: int): (Relay, Result<(), Error>)
  {
    if !SafeTime(now) then (r, Err(InvalidRequest))
    else
      var refusal := OwnerRefusal(r, mailboxId, caller);
      if refusal.Some? then (r, Err(refusal.value))
      else if !PathIdValid(packetId, 32) then (r, Err(InvalidRequest))
      else
        (r.(boxes := r.boxes[mailboxId := Thinned(r.boxes[mailboxId], Other(packetId))]), Ok(()))
  }

  function SenderSet(r: Relay, mailboxId: Id, sender: string, blocked: bool): (Relay, Result<(), Error>) {
    if !PathIdValid(mailboxId, 16) then (r, Err(InvalidRequest))
    else if mailboxId !in r.boxes then (r, Err(MailboxUnavailable))
    else if !AgentUrl.AgentIdValid(sender) then (r, Err(InvalidAgentId))
    else
      var b := r.boxes[mailboxId];
      var senders := if blocked then b.blocked + {sender} else b.blocked - {sender};
      (r.(boxes := r.boxes[mailboxId := b.(blocked := senders)]), Ok(()))
  }

  function PrunedBox(b: Mailbox, now: int): Mailbox {
    Swept(b, now).(tombstones := Buried(b.tombstones, now))
  }

  /** A mailbox is forgotten only when its card and everything it retains or remembers is over. */
  predicate Forgettable(b: Mailbox, now: int) {
    now >= b.current.envelope.receiveUntil && b.packets == [] && b.tombstones == map[]
  }

  function Pruned(r: Relay, now: int): (Relay, Result<(), Error>) {
    if !SafeTime(now) then (r, Err(InvalidRequest))
    else
      (r.(boxes := PrunedBoxes(r.boxes, now)), Ok(()))
  }

  function PrunedBoxes(boxes: map<Id, Mailbox>, now: int): map<Id, Mailbox> {
    map m | m in boxes && !Forgettable(PrunedBox(boxes[m], now), now) :: PrunedBox(boxes[m], now)
  }

  // ---- Snapshots ----------------------------------------------------------

  datatype MailboxSnapshot = MailboxSnapshot(
    current: CardRecord, lastSeq: nat, blocked: set<string>, packets: seq<PacketRecord>, tombstones: map<Id, Tombstone>)

  function SnapshotOf(b: Mailbox): MailboxSnapshot {
    MailboxSnapshot(b.current, b.lastSeq, b.blocked, Records(b.packets), b.tombstones)
  }

  function Key(s: MailboxSnapshot): Id {
    s.current.envelope.mailboxId
  }

  /** `Map.set`: an entry already there keeps its place. */
  function MapSet(packets: seq<Stored>, x: Stored): seq<Stored> {
    if packets == [] then [x]
    else if packets[0].record.packetId == x.record.packetId then [x] + packets[1..]
    else [packets[0]] + MapSet(packets[1..], x)
  }

  /** Packets are measured again on restore: sizes and `bytes` are not in the snapshot. */
  function Loaded(cfg: Config, records: seq<PacketRecord>): (seq<Stored>, int) {
    if records == [] then ([], 0)
    else
      var (packets, bytes) := Loaded(cfg, records[..|records| - 1]);
      var record := records[|records| - 1];
      var size := cfg.size(record.packet);
      (MapSet(packets, Stored(record, size)), bytes + size)
  }

  function RestoredBox(cfg: Config, s: MailboxSnapshot): Mailbox {
    var (packets, bytes) := Loaded(cfg, s.packets);
    Mailbox(s.current, s.lastSeq, bytes, packets, s.tombstones, s.blocked)
  }

  function RestoredBoxes(cfg: Config, snapshot: seq<MailboxSnapshot>): map<Id, Mailbox> {
    if snapshot == [] then map[]
    else
      var last := snapshot[|snapshot| - 1];
      RestoredBoxes(cfg, snapshot[..|snapshot| - 1])[Key(last) := RestoredBox(cfg, last)]
  }

  /** A listing of all mailboxes, in any order. */
  ghost predicate IsSnapshot(snapshot: seq<MailboxSnapshot>, boxes: map<Id, Mailbox>) {
    && (forall i | 0 <= i < |snapshot| ::
          Key(snapshot[i]) in boxes && snapshot[i] == SnapshotOf(boxes[Key(snapshot[i])]))
    && forall m | m in boxes :: SnapshotOf(boxes[m]) in snapshot
  }

  // ---- The relay object ---------------------------------------------------

  /** A delivery past every check but the quotas. */
  lemma StoreDelivers(cfg: Config, r: Relay, mailboxId: Id, p: Packet, now: int)
    requires SafeTime(now) && PathIdValid(mailboxId, 16) && PacketRefusal(cfg, p).None?
    requires p.mailboxId == mailboxId && mailboxId in r.boxes
    requires p.hash !in r.boxes[mailboxId].tombstones
    requires AdmissionRefusal(cfg, r.boxes[mailboxId].current.envelope, p, now).None?
    ensures var swept := Swept(r.boxes[mailboxId], now);
      var quota := QuotaRefusal(cfg, swept, p);
      Delivered(cfg, r, mailboxId, p, now)
        == if quota.Some? then (Relay(r.boxes[mailboxId := swept], r.nonces), Err(quota.value))
           else (Relay(r.boxes[mailboxId := Enqueued(cfg, swept, p, now)], r.nonces), Ok(Delivery(p.hash, now)))
  {
  }

  class MailRelayStore {
    const cfg: Config
    var boxes: map<Id, Mailbox>
    var nonces: NonceReplay.Table

    ghost function Contents(): Relay
      reads this
    {
      Relay(boxes, nonces)
    }

    ghost predicate Valid()
      reads this
    {
      Inv(cfg, Contents())
    }

    constructor (cfg: Config)
      ensures Valid() && this.cfg == cfg && Contents() == EMPTY
    {
      this.cfg := cfg;
      boxes, nonces := map[], map[];
    }

    /** A relay started from a snapshot; the nonce cache is not part of it. */
    static method Restore(cfg: Config, origin: string, snapshot: seq<MailboxSnapshot>)
      returns (r: Result<MailRelayStore, Error>)
      ensures r.Ok? <==> origin == cfg.origin
      ensures r.Ok? ==> fresh(r.value) && r.value.cfg == cfg
                        && r.value.Contents() == Relay(RestoredBoxes(cfg, snapshot), map[])
    {
      if origin != cfg.origin {
        return Err(InvalidRequest);
      }
      var relay := new MailRelayStore(cfg);
      for i := 0 to |snapshot|
        invariant fresh(relay) && relay.cfg == cfg && relay.nonces == map[]
        invariant relay.boxes == RestoredBoxes(cfg, snapshot[..i])
      {
        assert snapshot[..i + 1][..i] == snapshot[..i];
        var s := snapshot[i];
        var packets: seq<Stored>, bytes := [], 0;
        for j := 0 to |s.packets|
          invariant (packets, bytes) == Loaded(cfg, s.packets[..j])
        {
          assert s.packets[..j + 1][..j] == s.packets[..j];
          var size := cfg.size(s.packets[j].packet);
          packets, bytes := MapSet(packets, Stored(s.packets[j], size)), bytes + size;
        }
        assert s.packets[..|s.packets|] == s.packets;
        var box := Mailbox(s.current, s.lastSeq, bytes, packets, s.tombstones, s.blocked);
        relay.boxes := relay.boxes[Key(s) := box];
      }
      assert snapshot[..|snapshot|] == snapshot;
      r := Ok(relay);
    }

    method Snapshot() returns (snapshot: seq<MailboxSnapshot>)
      requires Valid()
      ensures IsSnapshot(snapshot, boxes)
    {
      snapshot := [];
      var todo := boxes.Keys;
      while todo != {}
        invariant todo <= boxes.Keys
        invariant forall i | 0 <= i < |snapshot| ::
                    Key(snapshot[i]) in boxes && snapshot[i] == SnapshotOf(boxes[Key(snapshot[i])])
        invariant forall m | m in boxes && m !in todo :: SnapshotOf(boxes[m]) in snapshot
        decreases todo
      {
        var m :| m in todo;
        assert BoxInv(cfg, m, boxes[m]);
        snapshot := snapshot + [SnapshotOf(boxes[m])];
        todo := todo - {m};
      }
    }

    method Publish(card: Card, now: int) returns (r: Result<CardRecord, Error>)
      requires Valid()
      modifies this
      ensures Valid()
      ensures (Contents(), r) == Published(cfg, old(Contents()), card, now)
    {
      PublishKeepsInv(cfg, Contents(), card, now);
      if !SafeTime(now) {
        return Err(InvalidRequest);
      }
      if !CardValid(cfg, card) {
        return Err(InvalidEvent);
      }
      var m := card.mailboxId;
      if m in boxes {
        var current := boxes[m].current.envelope;
        if current.actor != card.actor {
          return Err(MailboxConflict);
        }
        if current.hash == card.hash {
          return Ok(boxes[m].current);
        }
        if card.nonce <= current.nonce {
          return Err(NonceNotGreater(current.nonce));
        }
      } else if cfg.origin !in card.routes {
        return Err(PermissionDenied);
      }
      if !NonceReplay.InWindow(card.createdAt, now, FUTURE_SKEW_MS) {
        return Err(TimestampOutOfWindow);
      }
      var (table, checked) := NonceReplay.Updated(nonces, card.actor, card.nonce, now, 2 * FUTURE_SKEW_MS);
      if checked.Err? {
        match checked.error
        case NonceNotGreater(max) => return Err(NonceNotGreater(max));
        case _ => return Err(InvalidNonce);
      }
      nonces := table;
      var record := CardRecord(card, now);
      var box := if m in boxes then boxes[m].(current := record) else Mailbox(record, 0, 0, [], map[], {});
      boxes := boxes[m := box];
      r := Ok(record);
    }

    method Deliver(mailboxId: Id, p: Packet, now: int) returns (r: Result<Delivery, Error>)
      requires Valid()
      modifies this
      ensures Valid()
      ensures (Contents(), r) == Delivered(cfg, old(Contents()), mailboxId, p, now)
    {
      DeliverKeepsInv(cfg, Contents(), mailboxId, p, now);
      hide Inv, PacketRefusal, AdmissionRefusal, QuotaRefusal, Swept, Enqueued, SafeTime, PathIdValid, Keep,
          TotalSize, BoxInv;
      if !SafeTime(now) || !PathIdValid(mailboxId, 16) {
        return Err(InvalidRequest);
      }
      var invalid := PacketRefusal(cfg, p);
      if invalid.Some? {
        return Err(invalid.value);
      }
      if p.mailboxId != mailboxId {
        return Err(InvalidEvent);
      }
      if mailboxId !in boxes {
        return Err(MailboxUnavailable);
      }
      var b := boxes[mailboxId];
      if p.hash in b.tombstones {
        return Ok(Delivery(p.hash, b.tombstones[p.hash].acceptedAt));
      }
      var refusal := AdmissionRefusal(cfg, b.current.envelope, p, now);
      if refusal.Some? {
        return Err(refusal.value);
      }
      StoreDelivers(cfg, Contents(), mailboxId, p, now);
      r := Store(mailboxId, p, now);
    }

    /** The last steps of a delivery: make room, check the quotas and the sender, and enqueue. */
    method Store(mailboxId: Id, p: Packet, now: int) returns (r: Result<Delivery, Error>)
      requires mailboxId in boxes
      modifies this
      ensures nonces == old(nonces)
      ensures var swept := Swept(old(boxes[mailboxId]), now);
        var quota := QuotaRefusal(cfg, swept, p);
        if quota.Some? then r == Err(quota.value) && boxes == old(boxes)[mailboxId := swept]
        else r == Ok(Delivery(p.hash, now)) && boxes == old(boxes)[mailboxId := Enqueued(cfg, swept, p, now)]
    {
      var b := DropExpired(boxes[mailboxId], now);
      boxes := boxes[mailboxId := b];
      var quota := QuotaRefusal(cfg, b, p);
      if quota.Some? {
        return Err(quota.value);
      }
      var size := cfg.size(p);
      var lastSeq := b.lastSeq + 1;
      var record := PacketRecord(p.hash, p, now, lastSeq);
      b := b.(lastSeq := lastSeq, packets := b.packets + [Stored(record, size)], bytes := b.bytes + size,
              tombstones := b.tombstones[p.hash := Tombstone(now, p.expiresAt)]);
      boxes := boxes[mailboxId := b];
      r := Ok(Delivery(p.hash, now));
    }

    /** Visits every packet, dropping the expired ones and giving their bytes back. */
    method DropExpired(b: Mailbox, now: int) returns (swept: Mailbox)
      ensures swept == Swept(b, now)
    {
      var kept: seq<Stored>, bytes := [], b.bytes;
      for i := 0 to |b.packets|
        invariant kept == Keep(b.packets[..i], Live(now))
        invariant bytes == b.bytes - (TotalSize(b.packets[..i]) - TotalSize(kept))
      {
        assert b.packets[..i + 1][..i] == b.packets[..i];
        if now >= b.packets[i].record.packet.expiresAt {
          bytes := bytes - b.packets[i].size;
        } else {
          assert (kept + [b.packets[i]])[..|kept|] == kept;
          kept := kept + [b.packets[i]];
        }
      }
      assert b.packets[..|b.packets|] == b.packets;
      swept := b.(packets := kept, bytes := bytes);
    }

    method SetSenderBlocked(mailboxId: Id, sender: string, blocked: bool) returns (r: Result<(), Error>)
      requires Valid()
      modifies this
      ensures Valid()
      ensures (Contents(), r) == SenderSet(old(Contents()), mailboxId, sender, blocked)
    {
      SenderKeepsInv(cfg, Contents(), mailboxId, sender, blocked);
      hide PathIdValid, AgentUrl.AgentIdValid, BoxInv;
      if !PathIdValid(mailboxId, 16) {
        return Err(InvalidRequest);
      }
      if mailboxId !in boxes {
        return Err(MailboxUnavailable);
      }
      if !AgentUrl.AgentIdValid(sender) {
        return Err(InvalidAgentId);
      }
      var b := boxes[mailboxId];
      if blocked {
        b := b.(blocked := b.blocked + {sender});
      } else {
        b := b.(blocked := b.blocked - {sender});
      }
      boxes := boxes[mailboxId := b];
      r := Ok(());
    }

    method Delete(mailboxId: Id, packetId: Id, caller: Option<string>, now: int) returns (r: Result<(), Error>)
      requires Valid()
      modifies this
      ensures Valid()
      ensures (Contents(), r) == Deleted(old(Contents()), mailboxId, packetId, caller, now)
    {
      DeleteKeepsInv(cfg, Contents(), mailboxId, packetId, caller, now);
      hide PathIdValid;
      if !SafeTime(now) {
        return Err(InvalidRequest);
      }
      var refusal := OwnerRefusal(Relay(boxes, nonces), mailboxId, caller);
      if refusal.Some? {
        return Err(refusal.value);
      }
      if !PathIdValid(packetId, 32) {
        return Err(InvalidRequest);
      }
      assert BoxInv(cfg, mailboxId, boxes[mailboxId]);
      var b := RemovePacket(boxes[mailboxId], packetId);
      boxes := boxes[mailboxId := b];
      r := Ok(());
    }

    /** `Map.delete` by id: at most one entry has it. */
    method RemovePacket(b: Mailbox, packetId: Id) returns (thinner: Mailbox)
      requires Ordered(b.packets)
      ensures thinner == Thinned(b, Other(packetId))
    {
      hide Keep, TotalSize;
      var i := 0;
      while i < |b.packets| && b.packets[i].record.packetId != packetId
        invariant 0 <= i <= |b.packets|
        invariant forall j | 0 <= j < i :: b.packets[j].record.packetId != packetId
      {
        i := i + 1;
      }
      if i < |b.packets| {
        KeepAllButOne(b.packets, packetId, i);
        thinner := b.(packets := b.packets[..i] + b.packets[i + 1..], bytes := b.bytes - b.packets[i].size);
      } else {
        KeepAll(b.packets, Other(packetId));
        thinner := b;
      }
    }

    /** Visits every mailbox: expired packets first, then expired tombstones, then the mailbox itself. */
    method Prune(now: int) returns (r: Result<(), Error>)
      requires Valid()
      modifies this
      ensures Valid()
      ensures (Contents(), r) == Pruned(old(Contents()), now)
    {
      PruneKeepsInv(cfg, Contents(), now);
      if !SafeTime(now) {
        return Err(InvalidRequest);
      }
      PruneBoxes(now);
      r := Ok(());
    }

    method PruneBoxes(now: int)
      modifies this
      ensures nonces == old(nonces)
      ensures boxes == PrunedBoxes(old(boxes), now)
    {
      hide Keep, TotalSize;
      ghost var before := boxes;
      var todo := boxes.Keys;
      while todo != {}
        invariant todo <= before.Keys && nonces == old(nonces)
        invariant boxes.Keys <= before.Keys
        invariant forall m | m in todo :: m in boxes && boxes[m] == before[m]
        invariant forall m | m in before && m !in todo ::
                    if Forgettable(PrunedBox(before[m], now), now) then m !in boxes
                    else m in boxes && boxes[m] == PrunedBox(before[m], now)
        decreases todo
      {
        var m :| m in todo;
        var b := DropExpired(boxes[m], now);
        var tombstones := DropTombstones(b.tombstones, now);
        b := b.(tombstones := tombstones);
        assert b == PrunedBox(before[m], now);
        if now >= b.current.envelope.receiveUntil && |b.packets| == 0 && b.tombstones == map[] {
          boxes := boxes - {m};
        } else {
          boxes := boxes[m := b];
        }
        todo := todo - {m};
      }
      assert boxes == PrunedBoxes(before, now);
    }

    method DropTombstones(tombstones: map<Id, Tombstone>, now: int) returns (kept: map<Id, Tombstone>)
      ensures kept == Buried(tombstones, now)
    {
      kept := tombstones;
      var todo := tombstones.Keys;
      while todo != {}
        invariant todo <= tombstones.Keys && todo <= kept.Keys <= tombstones.Keys
        invariant forall id | id in kept :: kept[id] == tombstones[id]
        invariant forall id | id in tombstones && id !in todo :: id in kept <==> now < tombstones[id].expiresAt
        decreases todo
      {
        var id :| id in todo;
        if now >= tombstones[id].expiresAt {
          kept := kept - {id};
        }
        todo := todo - {id};
      }
    }

    /** One page of unexpired packets after the cursor, oldest first, with a cursor if more remain. */
    method List(mailboxId: Id, caller: Option<string>, limit: Option<int>, cursor: Option<string>, now: int)
      returns (r: Result<PacketPage, Error>)
      ensures r == Listing(Contents(), mailboxId, caller, limit, cursor, now)
    {
      hide PathIdValid, AllDigits, ParseDecimal, Keep, Records;
      if !SafeTime(now) {
        return Err(InvalidRequest);
      }
      var refusal := OwnerRefusal(Relay(boxes, nonces), mailboxId, caller);
      if refusal.Some? {
        return Err(refusal.value);
      }
      var size := limit.GetOr(100);
      if !(1 <= size <= 1000) {
        return Err(InvalidRequest);
      }
      if cursor.Some? && !CursorValid(cursor.value) {
        return Err(InvalidRequest);
      }
      var after := AfterOf(cursor);
      var rows := Filter(boxes[mailboxId].packets, after, now);
      if |rows| > size {
        r := Ok(PacketPage(Records(rows[..size]), Some(Decimal(rows[size - 1].record.seqNo))));
      } else {
        r := Ok(PacketPage(Records(rows), None));
      }
    }

    method Filter(packets: seq<Stored>, after: nat, now: int) returns (rows: seq<Stored>)
      ensures rows == Keep(packets, Listed(after, now))
    {
      rows := [];
      for i := 0 to |packets|
        invariant rows == Keep(packets[..i], Listed(after, now))
      {
        assert packets[..i + 1][..i] == packets[..i];
        if packets[i].record.seqNo > after && now < packets[i].record.packet.expiresAt {
          rows := rows + [packets[i]];
        }
      }
      assert packets[..|packets|] == packets;
    }
  }

  // ---- Listing ------------------------------------------------------------

  datatype PacketPage = PacketPage(result: seq<PacketRecord>, nextCursor: Option<string>)

  /** The cursor is the last returned sequence number, as the relay writes it. */
  predicate CursorValid(cursor: string) {
    CanonicalDecimal(cursor) && ParseDecimal(cursor) <= MAX_SAFE
  }

  function AfterOf(cursor: Option<string>): nat
    requires cursor.Some? ==> CursorValid(cursor.value)
  {
    if cursor.None? then 0 else ParseDecimal(cursor.value)
  }

  function PageOf(b: Mailbox, after: nat, limit: nat, now: int): PacketPage
    requires limit >= 1
  {
    var rows := Keep(b.packets, Listed(after, now));
    if |rows| > limit then PacketPage(Records(rows[..limit]), Some(Decimal(rows[limit - 1].record.seqNo)))
    else PacketPage(Records(rows), None)
  }

  function Listing(
    r: Relay, mailboxId: Id, caller: Option<string>, limit: Option<int>, cursor: Option<string>, now: int)
    : Result<PacketPage, Error>
  {
    if !SafeTime(now) then Err(InvalidRequest)
    else if OwnerRefusal(r, mailboxId, caller).Some? then Err(OwnerRefusal(r, mailboxId, caller).value)
    else if !(1 <= limit.GetOr(100) <= 1000) || (cursor.Some? && !CursorValid(cursor.value)) then Err(InvalidRequest)
    else Ok(PageOf(r.boxes[mailboxId], AfterOf(cursor), limit.GetOr(100), now))
  }

  function Records(rows: seq<Stored>): seq<PacketRecord> {
    seq(|rows|, i requires 0 <= i < |rows| => rows[i].record)
  }

  /** Whether a retained packet is due after this cursor position. */
  ghost predicate Due(b: Mailbox, after: nat, now: int, r: PacketRecord) {
    after < r.seqNo && now < r.packet.expiresAt && exists x | x in b.packets :: x.record == r
  }

  ghost predicate AscendingRecords(records: seq<PacketRecord>) {
    forall i, j | 0 <= i < j < |records| :: records[i].seqNo < records[j].seqNo
  }

  /**
   * A page returns, in order and within its limit, exactly the packets due up to its last one if it carries a cursor,
   * and exactly the packets due if it does not; a cursor stands further than the one before.
   */
  ghost predicate PageIsExact(b: Mailbox, after: nat, limit: nat, now: int, page: PacketPage)
    requires limit >= 1
  {
    && |page.result| <= limit && AscendingRecords(page.result)
    && (page.nextCursor.None? ==> forall r :: r in page.result <==> Due(b, after, now, r))
    && (page.nextCursor.Some? ==>
          && |page.result| == limit && page.nextCursor == Some(Decimal(page.result[limit - 1].seqNo))
          && after < page.result[limit - 1].seqNo <= b.lastSeq
          && forall r :: r in page.result <==> Due(b, after, now, r) && r.seqNo <= page.result[limit - 1].seqNo)
  }

  lemma {:induction false} RecordsOf(rows: seq<Stored>, r: PacketRecord)
    ensures r in Records(rows) <==> exists x | x in rows :: x.record == r
  {
    if r in Records(rows) {
      var i :| 0 <= i < |Records(rows)| && Records(rows)[i] == r;
      assert rows[i] in rows && rows[i].record == r;
    }
    if exists x | x in rows :: x.record == r {
      var x :| x in rows && x.record == r;
      var i :| 0 <= i < |rows| && rows[i] == x;
      assert Records(rows)[i] == r;
    }
  }

  lemma OrderedCut(rows: seq<Stored>, limit: nat, x: Stored)
    requires Ordered(rows) && 1 <= limit <= |rows|
    ensures x in rows[..limit] <==> x in rows && x.record.seqNo <= rows[limit - 1].record.seqNo
  {
  }

  lemma RetainedNumber(cfg: Config, m: Id, b: Mailbox, x: Stored)
    requires BoxInv(cfg, m, b) && x in b.packets
    ensures 1 <= x.record.seqNo <= b.lastSeq
  {
    var i :| 0 <= i < |b.packets| && b.packets[i] == x;
    assert PacketInv(cfg, m, b, b.packets[i]);
  }

  lemma RowsMakeAPage(cfg: Config, m: Id, b: Mailbox, after: nat, limit: nat, now: int)
    requires BoxInv(cfg, m, b) && limit >= 1
    ensures PageIsExact(b, after, limit, now, PageOf(b, after, limit, now))
  {
    var rows := Keep(b.packets, Listed(after, now));
    KeepIsExact(b.packets, Listed(after, now));
    var more := |rows| > limit;
    var shown := if more then rows[..limit] else rows;
    if more {
      assert rows[limit - 1] in rows;
      RetainedNumber(cfg, m, b, rows[limit - 1]);
    }
    forall r: PacketRecord
      ensures r in Records(shown) <==> Due(b, after, now, r) && (more ==> r.seqNo <= rows[limit - 1].record.seqNo)
    {
      PageMember(b, after, limit, now, r);
    }
    hide Keep, Decimal, BoxInv, Due;
    assert AscendingRecords(Records(shown)) by {
      forall i, j | 0 <= i < j < |shown|
        ensures Records(shown)[i].seqNo < Records(shown)[j].seqNo
      {
        assert shown[i] == rows[i] && shown[j] == rows[j];
      }
    }
  }

  lemma PageMember(b: Mailbox, after: nat, limit: nat, now: int, r: PacketRecord)
    requires limit >= 1 && Ordered(Keep(b.packets, Listed(after, now)))
    ensures var rows := Keep(b.packets, Listed(after, now));
      var more := |rows| > limit;
      r in Records(if more then rows[..limit] else rows) <==>
        Due(b, after, now, r) && (more ==> r.seqNo <= rows[limit - 1].record.seqNo)
  {
    var rows := Keep(b.packets, Listed(after, now));
    var more := |rows| > limit;
    var page := if more then rows[..limit] else rows;
    KeepIsExact(b.packets, Listed(after, now));
    hide Keep, Ordered, Records;
    RecordsOf(page, r);
    forall x: Stored
      ensures x in page <==> x in rows && (more ==> x.record.seqNo <= rows[limit - 1].record.seqNo)
    {
      if more {
        OrderedCut(rows, limit, x);
      }
    }
  }

  // ---- The accounting invariant -------------------------------------------

  ghost predicate BoxInv(cfg: Config, m: Id, b: Mailbox) {
    && b.current.envelope.mailboxId == m
    && b.lastSeq <= MAX_SAFE
    && b.bytes == TotalSize(b.packets)
    && |b.packets| <= cfg.maxPackets && b.bytes <= cfg.maxBytes
    && (forall i | 0 <= i < |b.packets| :: PacketInv(cfg, m, b, b.packets[i]))
    && Ordered(b.packets)
  }

  ghost predicate Ordered(packets: seq<Stored>) {
    forall i, j | 0 <= i < j < |packets| ::
      packets[i].record.seqNo < packets[j].record.seqNo && packets[i].record.packetId != packets[j].record.packetId
  }

  /** A retained packet is measured, addressed to its mailbox, and remembered until its own expiry. */
  ghost predicate PacketInv(cfg: Config, m: Id, b: Mailbox, x: Stored) {
    var r := x.record;
    && r.packetId == r.packet.hash && r.packet.mailboxId == m && x.size == cfg.size(r.packet)
    && 1 <= r.seqNo <= b.lastSeq
    && r.packetId in b.tombstones && b.tombstones[r.packetId] == Tombstone(r.acceptedAt, r.packet.expiresAt)
  }

  ghost predicate Inv(cfg: Config, r: Relay) {
    forall m | m in r.boxes :: BoxInv(cfg, m, r.boxes[m])
  }

  lemma Snoc(packets: seq<Stored>, x: Stored, stays: Stored -> bool)
    ensures Keep(packets + [x], stays) == Keep(packets, stays) + if stays(x) then [x] else []
    ensures TotalSize(packets + [x]) == TotalSize(packets) + x.size
  {
  }

  lemma SnocOrdered(packets: seq<Stored>, x: Stored)
    ensures Ordered(packets + [x]) <==>
              Ordered(packets) && forall y | y in packets ::
                y.record.seqNo < x.record.seqNo && y.record.packetId != x.record.packetId
  {
    var more := packets + [x];
    if Ordered(more) {
      assert forall i | 0 <= i < |packets| :: more[i] == packets[i];
    }
    forall y | y in packets && Ordered(more)
      ensures y.record.seqNo < x.record.seqNo && y.record.packetId != x.record.packetId
    {
      var i :| 0 <= i < |packets| && packets[i] == y;
      assert more[i] == y && more[|packets|] == x;
    }
  }

  lemma {:induction false} KeepIsExact(packets: seq<Stored>, stays: Stored -> bool)
    ensures |Keep(packets, stays)| <= |packets| && TotalSize(Keep(packets, stays)) <= TotalSize(packets)
    ensures forall x :: x in Keep(packets, stays) <==> x in packets && stays(x)
    ensures Ordered(packets) ==> Ordered(Keep(packets, stays))
  {
    hide Keep, Ordered;
    if packets == [] {
      assert Keep(packets, stays) == [] by { KeepNone(stays); }
    } else {
      var n := |packets| - 1;
      var before, last := packets[..n], packets[n];
      assert packets == before + [last];
      KeepIsExact(before, stays);
      Snoc(before, last, stays);
      SnocOrdered(before, last);
      if stays(last) {
        Snoc(Keep(before, stays), last, stays);
        SnocOrdered(Keep(before, stays), last);
      } else {
        assert Keep(packets, stays) == Keep(before, stays);
      }
    }
  }

  lemma KeepNone(stays: Stored -> bool)
    ensures Keep([], stays) == [] && Ordered([])
  {
  }

  lemma {:induction false} KeepAll(packets: seq<Stored>, stays: Stored -> bool)
    requires forall i | 0 <= i < |packets| :: stays(packets[i])
    ensures Keep(packets, stays) == packets
  {
    if packets != [] {
      KeepAll(packets[..|packets| - 1], stays);
    }
  }

  lemma {:induction false} KeepAllButOne(packets: seq<Stored>, id: Id, i: nat)
    requires i < |packets| && packets[i].record.packetId == id
    requires forall j | 0 <= j < |packets| && j != i :: packets[j].record.packetId != id
    ensures Keep(packets, Other(id)) == packets[..i] + packets[i + 1..]
    ensures TotalSize(packets) - TotalSize(Keep(packets, Other(id))) == packets[i].size
  {
    hide Keep;
    var n := |packets| - 1;
    var before, last := packets[..n], packets[n];
    assert packets == before + [last];
    Snoc(before, last, Other(id));
    if i == n {
      KeepAll(before, Other(id));
      assert packets[..i] + packets[i + 1..] == before;
    } else {
      KeepAllButOne(before, id, i);
      Snoc(Keep(before, Other(id)), last, Other(id));
      assert packets[..i] + packets[i + 1..] == before[..i] + before[i + 1..] + [last];
    }
  }

  lemma ThinningKeepsInv(cfg: Config, m: Id, b: Mailbox, stays: Stored -> bool)
    requires BoxInv(cfg, m, b)
    ensures BoxInv(cfg, m, Thinned(b, stays))
  {
    KeepIsExact(b.packets, stays);
    var kept := Keep(b.packets, stays);
    forall i | 0 <= i < |kept|
      ensures PacketInv(cfg, m, Thinned(b, stays), kept[i])
    {
      assert kept[i] in kept;
      var j :| 0 <= j < |b.packets| && b.packets[j] == kept[i];
    }
  }

  lemma EnqueueKeepsInv(cfg: Config, m: Id, b: Mailbox, p: Packet, now: int)
    requires BoxInv(cfg, m, b) && p.mailboxId == m && p.hash !in b.tombstones && QuotaRefusal(cfg, b, p).None?
    ensures BoxInv(cfg, m, Enqueued(cfg, b, p, now))
  {
  }

  lemma PrunedBoxKeepsInv(cfg: Config, m: Id, b: Mailbox, now: int)
    requires BoxInv(cfg, m, b)
    ensures BoxInv(cfg, m, PrunedBox(b, now))
  {
    KeepIsExact(b.packets, Live(now));
    ThinningKeepsInv(cfg, m, b, Live(now));
    var swept, pruned := Swept(b, now), PrunedBox(b, now);
    forall i | 0 <= i < |pruned.packets|
      ensures PacketInv(cfg, m, pruned, pruned.packets[i])
    {
      assert swept.packets[i] in swept.packets;
      assert PacketInv(cfg, m, swept, swept.packets[i]);
    }
  }

  datatype Op =
    | Publish(card: Card)
    | Deliver(mailboxId: Id, packet: Packet)
    | Delete(mailboxId: Id, packetId: Id, caller: Option<string>)
    | SetSenderBlocked(mailboxId: Id, sender: string, blocked: bool)
    | Prune

  datatype Step = Step(op: Op, now: int)

  function Apply(cfg: Config, r: Relay, step: Step): Relay {
    match step.op
    case Publish(card) => Published(cfg, r, card, step.now).0
    case Deliver(m, p) => Delivered(cfg, r, m, p, step.now).0
    case Delete(m, id, caller) => Deleted(r, m, id, caller, step.now).0
    case SetSenderBlocked(m, sender, blocked) => SenderSet(r, m, sender, blocked).0
    case Prune => Pruned(r, step.now).0
  }

  /** Every operation keeps the books of every mailbox. */
  lemma ApplyKeepsInv(cfg: Config, r: Relay, step: Step)
    requires Inv(cfg, r)
    ensures Inv(cfg, Apply(cfg, r, step))
  {
    hide Inv;
    match step.op
    case Publish(card) => PublishKeepsInv(cfg, r, card, step.now);
    case Deliver(m, p) => DeliverKeepsInv(cfg, r, m, p, step.now);
    case Delete(m, id, caller) => DeleteKeepsInv(cfg, r, m, id, caller, step.now);
    case SetSenderBlocked(m, sender, blocked) => SenderKeepsInv(cfg, r, m, sender, blocked);
    case Prune => PruneKeepsInv(cfg, r, step.now);
  }

  lemma DeleteKeepsInv(cfg: Config, r: Relay, m: Id, id: Id, caller: Option<string>, now: int)
    requires Inv(cfg, r)
    ensures Inv(cfg, Deleted(r, m, id, caller, now).0)
  {
    hide BoxInv, PathIdValid;
    if m in r.boxes {
      ThinningKeepsInv(cfg, m, r.boxes[m], Other(id));
    }
  }

  lemma SenderKeepsInv(cfg: Config, r: Relay, m: Id, sender: string, blocked: bool)
    requires Inv(cfg, r)
    ensures Inv(cfg, SenderSet(r, m, sender, blocked).0)
  {
    hide PathIdValid, AgentUrl.AgentIdValid;
  }

  lemma PruneKeepsInv(cfg: Config, r: Relay, now: int)
    requires Inv(cfg, r)
    ensures Inv(cfg, Pruned(r, now).0)
  {
    hide BoxInv;
    forall m | m in r.boxes
      ensures BoxInv(cfg, m, PrunedBox(r.boxes[m], now))
    {
      PrunedBoxKeepsInv(cfg, m, r.boxes[m], now);
    }
  }

  lemma SameAccounts(cfg: Config, m: Id, b: Mailbox, current: CardRecord, blocked: set<string>)
    requires BoxInv(cfg, m, b) && (current == b.current || current.envelope.mailboxId == m)
    ensures BoxInv(cfg, m, b.(current := current, blocked := blocked))
  {
  }

  lemma PublishKeepsInv(cfg: Config, r: Relay, card: Card, now: int)
    requires Inv(cfg, r)
    ensures Inv(cfg, Published(cfg, r, card, now).0)
  {
    if card.mailboxId in r.boxes {
      SameAccounts(cfg, card.mailboxId, r.boxes[card.mailboxId], CardRecord(card, now),
          r.boxes[card.mailboxId].blocked);
    }
  }

  lemma DeliverKeepsInv(cfg: Config, r: Relay, m: Id, p: Packet, now: int)
    requires Inv(cfg, r)
    ensures Inv(cfg, Delivered(cfg, r, m, p, now).0)
  {
    hide BoxInv, AdmissionRefusal, PacketRefusal, PathIdValid;
    var ending := Ends(cfg, r, m, p, now);
    if ending.RefusedAfterSweep? || ending.Stores? {
      var b := r.boxes[m];
      ThinningKeepsInv(cfg, m, b, Live(now));
      if ending.Stores? {
        EnqueueKeepsInv(cfg, m, Swept(b, now), p, now);
      }
    }
  }
}
