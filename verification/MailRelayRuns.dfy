/** What a relay promises over whole runs: one enqueue per packet, stable answers to retries, lossless restarts. */
module MailRelayRuns {
  import opened Common
  import opened MailRelay
  import AgentUrl

  // ---- Restarts -----------------------------------------------------------

  lemma {:induction false} MapSetAppends(packets: seq<Stored>, x: Stored)
    requires forall i | 0 <= i < |packets| :: packets[i].record.packetId != x.record.packetId
    ensures MapSet(packets, x) == packets + [x]
  {
    if packets != [] {
      MapSetAppends(packets[1..], x);
    }
  }

  lemma {:induction false} LoadingRestores(cfg: Config, packets: seq<Stored>)
    requires Ordered(packets) && forall i | 0 <= i < |packets| :: packets[i].size == cfg.size(packets[i].record.packet)
    ensures Loaded(cfg, Records(packets)) == (packets, TotalSize(packets))
  {
    hide MapSet;
    if packets != [] {
      var n := |packets| - 1;
      assert packets[n] in packets;
      LoadingRestores(cfg, packets[..n]);
      assert Records(packets)[..n] == Records(packets[..n]);
      MapSetAppends(packets[..n], packets[n]);
      assert Stored(Records(packets)[n], cfg.size(packets[n].record.packet)) == packets[n];
      assert packets[..n] + [packets[n]] == packets;
    }
  }

  lemma BoxRoundTrip(cfg: Config, m: Id, b: Mailbox)
    requires BoxInv(cfg, m, b)
    ensures Key(SnapshotOf(b)) == m && RestoredBox(cfg, SnapshotOf(b)) == b
  {
    assert forall i | 0 <= i < |b.packets| :: PacketInv(cfg, m, b, b.packets[i]);
    LoadingRestores(cfg, b.packets);
  }

  lemma {:induction false} RestoresPrefix(cfg: Config, r: Relay, snapshot: seq<MailboxSnapshot>)
    requires Inv(cfg, r)
    requires forall i | 0 <= i < |snapshot| ::
               Key(snapshot[i]) in r.boxes && snapshot[i] == SnapshotOf(r.boxes[Key(snapshot[i])])
    ensures var boxes := RestoredBoxes(cfg, snapshot);
      && (forall m | m in boxes :: m in r.boxes && boxes[m] == r.boxes[m])
      && (forall i | 0 <= i < |snapshot| :: Key(snapshot[i]) in boxes)
  {
    hide MapSet, Loaded, BoxInv, SnapshotOf, RestoredBox;
    if snapshot != [] {
      var n := |snapshot| - 1;
      assert BoxInv(cfg, Key(snapshot[n]), r.boxes[Key(snapshot[n])]);
      RestoresPrefix(cfg, r, snapshot[..n]);
      BoxRoundTrip(cfg, Key(snapshot[n]), r.boxes[Key(snapshot[n])]);
      forall i | 0 <= i < |snapshot|
        ensures Key(snapshot[i]) in RestoredBoxes(cfg, snapshot)
      {
        assert i < n ==> snapshot[..n][i] == snapshot[i];
      }
    }
  }

  /** Restoring any snapshot of a relay gives back every mailbox: bytes, sizes, order, tombstones and all. */
  lemma SnapshotRoundTrip(cfg: Config, r: Relay, snapshot: seq<MailboxSnapshot>)
    requires Inv(cfg, r) && IsSnapshot(snapshot, r.boxes)
    ensures RestoredBoxes(cfg, snapshot) == r.boxes
  {
    RestoresPrefix(cfg, r, snapshot);
    forall m | m in r.boxes
      ensures m in RestoredBoxes(cfg, snapshot)
    {
      BoxRoundTrip(cfg, m, r.boxes[m]);
      var i :| 0 <= i < |snapshot| && snapshot[i] == SnapshotOf(r.boxes[m]);
    }
  }

  // ---- Runs ---------------------------------------------------------------

  /** One event in a relay's life: an operation, or a restart from a snapshot, with an empty nonce cache. */
  datatype Event = Does(step: Step) | Restarts(snapshot: seq<MailboxSnapshot>, now: int)
  {
    function Now(): int {
      if Does? then step.now else now
    }
  }

  function Next(cfg: Config, r: Relay, e: Event): Relay {
    match e
    case Does(step) => Apply(cfg, r, step)
    case Restarts(snapshot, _) => Relay(RestoredBoxes(cfg, snapshot), map[])
  }

  function At(cfg: Config, r: Relay, run: seq<Event>, n: nat): Relay
    requires n <= |run|
  {
    if n == 0 then r else Next(cfg, At(cfg, r, run, n - 1), run[n - 1])
  }

  /** Every restart uses a snapshot taken of the relay it replaces. */
  ghost predicate Lawful(cfg: Config, r: Relay, run: seq<Event>) {
    forall i | 0 <= i < |run| && run[i].Restarts? :: IsSnapshot(run[i].snapshot, At(cfg, r, run, i).boxes)
  }

  ghost predicate Clocked(run: seq<Event>) {
    forall i, j | 0 <= i < j < |run| :: run[i].Now() <= run[j].Now()
  }

  lemma EventKeepsInv(cfg: Config, r: Relay, e: Event)
    requires Inv(cfg, r) && (e.Restarts? ==> IsSnapshot(e.snapshot, r.boxes))
    ensures Inv(cfg, Next(cfg, r, e)) && (e.Restarts? ==> Next(cfg, r, e).boxes == r.boxes)
  {
    hide Apply, RestoredBoxes, BoxInv;
    if e.Does? {
      ApplyKeepsInv(cfg, r, e.step);
    } else {
      SnapshotRoundTrip(cfg, r, e.snapshot);
    }
  }

  /** From an empty relay, or any relay with its books in order, every reachable state has its books in order. */
  lemma {:induction false} ReachableInv(cfg: Config, r: Relay, run: seq<Event>, n: nat)
    requires Inv(cfg, r) && Lawful(cfg, r, run) && n <= |run|
    ensures Inv(cfg, At(cfg, r, run, n)) && Inv(cfg, EMPTY)
  {
    hide Next;
    if n > 0 {
      ReachableInv(cfg, r, run, n - 1);
      EventKeepsInv(cfg, At(cfg, r, run, n - 1), run[n - 1]);
    }
  }

  predicate DeliversAt(run: seq<Event>, i: nat)
    requires i < |run|
  {
    run[i].Does? && run[i].step.op.Deliver?
  }

  function EndingAt(cfg: Config, r: Relay, run: seq<Event>, i: nat): Ending
    requires i < |run| && DeliversAt(run, i)
  {
    var op := run[i].step.op;
    Ends(cfg, At(cfg, r, run, i), op.mailboxId, op.packet, run[i].step.now)
  }

  predicate EnqueuesAt(cfg: Config, r: Relay, run: seq<Event>, i: nat)
    requires i < |run|
  {
    DeliversAt(run, i) && EndingAt(cfg, r, run, i) == Stores
  }

  // ---- The memory of a packet ---------------------------------------------

  /** A prune read at or past the packet's own expiry: the one event that takes its tombstone. */
  predicate Forgets(e: Event, p: Packet) {
    e.Does? && e.step.op.Prune? && SafeTime(e.Now()) && p.expiresAt <= e.Now()
  }

  /** The accepted history of a mailbox; an unknown mailbox has none. */
  function Memory(r: Relay, m: Id): map<Id, Tombstone> {
    if m in r.boxes then r.boxes[m].tombstones else map[]
  }

  /** What an event makes of it: only a prune shrinks it, and only an enqueue adds to it. */
  function MemoryAfter(cfg: Config, r: Relay, e: Event, m: Id): map<Id, Tombstone> {
    if !e.Does? then Memory(r, m)
    else
      match e.step.op
      case Deliver(mailboxId, p) =>
        if m == mailboxId && Ends(cfg, r, m, p, e.Now()) == Stores
        then Memory(r, m)[p.hash := Tombstone(e.Now(), p.expiresAt)] else Memory(r, m)
      case Prune => if SafeTime(e.Now()) then Buried(Memory(r, m), e.Now()) else Memory(r, m)
      case _ => Memory(r, m)
  }

  lemma MemoryFollows(cfg: Config, r: Relay, e: Event, m: Id)
    requires Inv(cfg, r) && (e.Restarts? ==> IsSnapshot(e.snapshot, r.boxes))
    ensures Memory(Next(cfg, r, e), m) == MemoryAfter(cfg, r, e, m)
  {
    if e.Restarts? {
      EventKeepsInv(cfg, r, e);
    } else {
      hide Inv, RestoredBoxes, Ends, Memory, Published, Deleted, SenderSet, Pruned, Delivered;
      match e.step.op
      case Publish(card) => PublishRemembers(cfg, r, card, e.Now(), m);
      case Deliver(mailboxId, p) => DeliveryRemembers(cfg, r, mailboxId, p, e.Now(), m);
      case Delete(_, _, _) => OwnersRemember(r, e.step, m);
      case SetSenderBlocked(_, _, _) => OwnersRemember(r, e.step, m);
      case Prune => PruneRemembers(r, e.Now(), m);
    }
  }

  lemma PublishRemembers(cfg: Config, r: Relay, card: Card, now: int, m: Id)
    ensures Memory(Published(cfg, r, card, now).0, m) == Memory(r, m)
  {
    hide CardValid, SafeTime;
  }

  lemma OwnersRemember(r: Relay, step: Step, m: Id)
    requires step.op.Delete? || step.op.SetSenderBlocked?
    ensures Memory(if step.op.Delete? then Deleted(r, step.op.mailboxId, step.op.packetId, step.op.caller, step.now).0
                   else SenderSet(r, step.op.mailboxId, step.op.sender, step.op.blocked).0, m) == Memory(r, m)
  {
    hide Keep, TotalSize, PathIdValid, AgentUrl.AgentIdValid, SafeTime;
  }

  lemma DeliveryRemembers(cfg: Config, r: Relay, mailboxId: Id, p: Packet, now: int, m: Id)
    ensures Memory(Delivered(cfg, r, mailboxId, p, now).0, m)
         == if m == mailboxId && Ends(cfg, r, m, p, now) == Stores
             then Memory(r, m)[p.hash := Tombstone(now, p.expiresAt)]
            else Memory(r, m)
  {
    hide Keep, TotalSize, AdmissionRefusal, QuotaRefusal, PacketRefusal, PathIdValid, SafeTime;
  }

  lemma PruneRemembers(r: Relay, now: int, m: Id)
    ensures Memory(Pruned(r, now).0, m) == if SafeTime(now) then Buried(Memory(r, m), now) else Memory(r, m)
  {
    hide Keep, TotalSize;
  }

  /** Whether the relay has this packet in its accepted history. */
  predicate Knows(r: Relay, p: Packet) {
    p.hash in Memory(r, p.mailboxId)
  }

  ghost predicate Remembers(r: Relay, p: Packet, acceptedAt: int) {
    Knows(r, p) && Memory(r, p.mailboxId)[p.hash] == Tombstone(acceptedAt, p.expiresAt)
  }

  /** Whatever the clock does, an accepted packet stays remembered, as it was accepted, until it is forgotten. */
  lemma MemoryLasts(cfg: Config, r: Relay, e: Event, p: Packet, acceptedAt: int)
    requires Inv(cfg, r) && (e.Restarts? ==> IsSnapshot(e.snapshot, r.boxes))
    requires Remembers(r, p, acceptedAt)
    ensures if Forgets(e, p) then !Knows(Next(cfg, r, e), p) else Remembers(Next(cfg, r, e), p, acceptedAt)
  {
    MemoryFollows(cfg, r, e, p.mailboxId);
    hide Inv, Next, Memory;
    if e.Does? && e.step.op.Deliver? && e.step.op.mailboxId == p.mailboxId && e.step.op.packet.hash == p.hash {
      KnownIsNotStored(cfg, r, p, e);
    }
  }

  lemma KnownIsNotStored(cfg: Config, r: Relay, p: Packet, e: Event)
    requires Knows(r, p) && e.Does? && e.step.op.Deliver?
    requires e.step.op.mailboxId == p.mailboxId && e.step.op.packet.hash == p.hash
    ensures Ends(cfg, r, e.step.op.mailboxId, e.step.op.packet, e.Now()) != Stores
  {
    hide AdmissionRefusal, QuotaRefusal, PacketRefusal, PathIdValid, Swept;
  }

  /** Only an enqueue of that packet id puts it there. */
  lemma OnlyEnqueuesRemember(cfg: Config, r: Relay, e: Event, p: Packet)
    requires Inv(cfg, r) && (e.Restarts? ==> IsSnapshot(e.snapshot, r.boxes))
    requires !Knows(r, p) && Knows(Next(cfg, r, e), p)
    ensures e.Does? && e.step.op.Deliver? && e.step.op.packet.hash == p.hash
    ensures Ends(cfg, r, e.step.op.mailboxId, e.step.op.packet, e.Now()) == Stores
  {
    MemoryFollows(cfg, r, e, p.mailboxId);
    hide Inv, Next, Memory, Ends;
  }

  lemma EnqueuingRemembers(cfg: Config, r: Relay, run: seq<Event>, i: nat)
    requires i < |run| && EnqueuesAt(cfg, r, run, i)
    ensures Remembers(At(cfg, r, run, i + 1), run[i].step.op.packet, run[i].Now())
    ensures cfg.packetVerifies(run[i].step.op.packet) && run[i].step.op.mailboxId == run[i].step.op.packet.mailboxId
    ensures !Knows(At(cfg, r, run, i), run[i].step.op.packet)
  {
    hide PathIdValid, Keep, TotalSize, AdmissionRefusal, QuotaRefusal;
    DeliveryRemembers(cfg, At(cfg, r, run, i), run[i].step.op.mailboxId, run[i].step.op.packet, run[i].Now(),
        run[i].step.op.mailboxId);
  }

  lemma {:induction false} RememberedUntilForgotten(cfg: Config, r: Relay, run: seq<Event>, i: nat, j: nat)
    requires Inv(cfg, r) && Lawful(cfg, r, run) && i < j <= |run| && EnqueuesAt(cfg, r, run, i)
    ensures var p := run[i].step.op.packet;
      Remembers(At(cfg, r, run, j), p, run[i].Now()) || exists q | i < q < j :: Forgets(run[q], p)
  {
    hide Remembers, Forgets, Next, Ends;
    if j == i + 1 {
      EnqueuingRemembers(cfg, r, run, i);
    } else {
      RememberedUntilForgotten(cfg, r, run, i, j - 1);
      ReachableInv(cfg, r, run, j - 1);
      var p := run[i].step.op.packet;
      if Remembers(At(cfg, r, run, j - 1), p, run[i].Now()) {
        MemoryLasts(cfg, At(cfg, r, run, j - 1), run[j - 1], p, run[i].Now());
      }
    }
  }

  /**
   * Whatever the clock does, a packet id enqueued twice was forgotten in between, by a prune that read a time at or
   * past its expiry, and came back with an earlier one.
   */
  lemma EnqueuedTwiceNeedsAPrune(cfg: Config, r: Relay, run: seq<Event>, i: nat, j: nat)
    requires HashBinds(cfg) && Inv(cfg, r) && Lawful(cfg, r, run) && i < j < |run|
    requires EnqueuesAt(cfg, r, run, i) && EnqueuesAt(cfg, r, run, j)
    requires run[j].step.op.packet.hash == run[i].step.op.packet.hash
    ensures var p := run[i].step.op.packet;
      exists q | i < q < j :: Forgets(run[q], p) && run[j].Now() < p.expiresAt <= run[q].Now()
  {
    RememberedUntilForgotten(cfg, r, run, i, j);
    EnqueuingRemembers(cfg, r, run, i);
    EnqueuingRemembers(cfg, r, run, j);
    hide Remembers;
    assert run[j].Now() < run[j].step.op.packet.expiresAt;
    var q :| i < q < j && Forgets(run[q], run[i].step.op.packet);
    assert run[q].Now() >= run[i].step.op.packet.expiresAt;
  }

  /** Across retries, deletion, expiry, pruning, new cards, forgotten mailboxes and restarts: one enqueue per id. */
  lemma EnqueuedAtMostOnce(cfg: Config, r: Relay, run: seq<Event>, i: nat, j: nat)
    requires HashBinds(cfg) && Inv(cfg, r) && Lawful(cfg, r, run) && Clocked(run) && i < j < |run|
    requires EnqueuesAt(cfg, r, run, i) && DeliversAt(run, j)
    requires run[j].step.op.packet.hash == run[i].step.op.packet.hash
    ensures !EnqueuesAt(cfg, r, run, j)
  {
    if EnqueuesAt(cfg, r, run, j) {
      EnqueuedTwiceNeedsAPrune(cfg, r, run, i, j);
    }
  }

  /** Until the packet expires, every retry gets the acceptance time of the delivery that stored it. */
  lemma RetryAnswersAsBefore(cfg: Config, r: Relay, run: seq<Event>, i: nat, j: nat)
    requires Inv(cfg, r) && Lawful(cfg, r, run) && Clocked(run) && i < j < |run| && EnqueuesAt(cfg, r, run, i)
    requires DeliversAt(run, j) && run[j].step.op == run[i].step.op && SafeTime(run[j].Now())
    ensures run[j].Now() < run[i].step.op.packet.expiresAt ==>
              EndingAt(cfg, r, run, j) == Remembered(run[i].Now())
    ensures run[j].Now() < run[i].step.op.packet.expiresAt ==>
              var p := run[i].step.op.packet;
              Delivered(cfg, At(cfg, r, run, j), p.mailboxId, p, run[j].Now())
                == (At(cfg, r, run, j), Ok(Delivery(p.hash, run[i].Now())))
    ensures EndingAt(cfg, r, run, j) != Stores
  {
    RememberedUntilForgotten(cfg, r, run, i, j);
    EnqueuingRemembers(cfg, r, run, i);
    hide Keep, TotalSize, QuotaRefusal, PathIdValid;
  }

  // ---- Exactly when a packet is stored again ------------------------------

  /** Everything a delivery is checked for, except whether the packet is in accepted history. */
  predicate Admissible(cfg: Config, r: Relay, p: Packet, now: int) {
    && SafeTime(now) && PathIdValid(p.mailboxId, 16) && PacketRefusal(cfg, p).None? && p.mailboxId in r.boxes
    && AdmissionRefusal(cfg, r.boxes[p.mailboxId].current.envelope, p, now).None?
    && QuotaRefusal(cfg, Swept(r.boxes[p.mailboxId], now), p).None?
  }

  lemma StoresWhenUnknown(cfg: Config, r: Relay, p: Packet, now: int)
    ensures Ends(cfg, r, p.mailboxId, p, now) == Stores <==> Admissible(cfg, r, p, now) && !Knows(r, p)
  {
    hide SafeTime, PathIdValid, PacketRefusal, AdmissionRefusal, QuotaRefusal, Swept;
  }

  /** Whether this event enqueues the packet id. */
  predicate StoresAt(cfg: Config, r: Relay, run: seq<Event>, k: nat, id: Id)
    requires k < |run|
  {
    EnqueuesAt(cfg, r, run, k) && run[k].step.op.packet.hash == id
  }

  lemma {:induction false} LastStore(cfg: Config, r: Relay, run: seq<Event>, i: nat, j: nat, id: Id) returns (k: nat)
    requires i < j <= |run| && StoresAt(cfg, r, run, i, id)
    ensures i <= k < j && StoresAt(cfg, r, run, k, id) && forall n | k < n < j :: !StoresAt(cfg, r, run, n, id)
    decreases j
  {
    hide StoresAt;
    if StoresAt(cfg, r, run, j - 1, id) {
      k := j - 1;
    } else {
      k := LastStore(cfg, r, run, i, j - 1, id);
    }
  }

  lemma StoreSeen(cfg: Config, r: Relay, run: seq<Event>, n: nat, p: Packet)
    requires n < |run| && Inv(cfg, At(cfg, r, run, n)) && Lawful(cfg, r, run)
    ensures Knows(At(cfg, r, run, n + 1), p) ==> Knows(At(cfg, r, run, n), p) || StoresAt(cfg, r, run, n, p.hash)
  {
    hide Knows, Next, Ends, Inv;
    if Knows(At(cfg, r, run, n + 1), p) && !Knows(At(cfg, r, run, n), p) {
      OnlyEnqueuesRemember(cfg, At(cfg, r, run, n), run[n], p);
    }
  }

  lemma {:induction false} UnknownUntilStored(cfg: Config, r: Relay, run: seq<Event>, a: nat, b: nat, p: Packet)
    requires Inv(cfg, r) && Lawful(cfg, r, run) && a <= b <= |run| && !Knows(At(cfg, r, run, a), p)
    requires forall k | a <= k < b :: !StoresAt(cfg, r, run, k, p.hash)
    ensures !Knows(At(cfg, r, run, b), p)
    decreases b
  {
    hide Knows, Next, Ends, StoresAt, Inv;
    if a < b {
      UnknownUntilStored(cfg, r, run, a, b - 1, p);
      ReachableInv(cfg, r, run, b - 1);
      StoreSeen(cfg, r, run, b - 1, p);
    }
  }

  /** Until it is stored again, the relay knows the packet as it was stored or not at all. */
  lemma {:induction false} KnownAsStored(cfg: Config, r: Relay, run: seq<Event>, k: nat, j: nat)
    requires Inv(cfg, r) && Lawful(cfg, r, run) && k < j <= |run| && EnqueuesAt(cfg, r, run, k)
    requires forall n | k < n < j :: !StoresAt(cfg, r, run, n, run[k].step.op.packet.hash)
    ensures var p := run[k].step.op.packet;
      Knows(At(cfg, r, run, j), p) ==> Remembers(At(cfg, r, run, j), p, run[k].Now())
    decreases j
  {
    hide Remembers, Knows, Next, Ends;
    if j == k + 1 {
      EnqueuingRemembers(cfg, r, run, k);
    } else {
      var p := run[k].step.op.packet;
      KnownAsStored(cfg, r, run, k, j - 1);
      ReachableInv(cfg, r, run, j - 1);
      if Knows(At(cfg, r, run, j - 1), p) {
        MemoryLasts(cfg, At(cfg, r, run, j - 1), run[j - 1], p, run[k].Now());
      } else {
        UnknownUntilStored(cfg, r, run, j - 1, j, p);
      }
    }
  }

  /** A prune past the expiry leaves the packet unknown. */
  lemma ForgottenAt(cfg: Config, r: Relay, run: seq<Event>, k: nat, q: nat)
    requires Inv(cfg, r) && Lawful(cfg, r, run) && k < q < |run| && EnqueuesAt(cfg, r, run, k)
    requires forall n | k < n < q :: !StoresAt(cfg, r, run, n, run[k].step.op.packet.hash)
    requires Forgets(run[q], run[k].step.op.packet)
    ensures !Knows(At(cfg, r, run, q + 1), run[k].step.op.packet)
  {
    hide Remembers, Knows, Next, Ends;
    var p := run[k].step.op.packet;
    KnownAsStored(cfg, r, run, k, q);
    ReachableInv(cfg, r, run, q);
    if Knows(At(cfg, r, run, q), p) {
      MemoryLasts(cfg, At(cfg, r, run, q), run[q], p, run[k].Now());
    } else {
      UnknownUntilStored(cfg, r, run, q, q + 1, p);
    }
  }

  /** A prune at `q` has forgotten the packet, and nothing before `j` has stored it again. */
  ghost predicate ForgottenSince(cfg: Config, r: Relay, run: seq<Event>, p: Packet, q: nat, j: nat)
    requires q < j <= |run|
  {
    Forgets(run[q], p) && forall n | q < n < j :: !StoresAt(cfg, r, run, n, p.hash)
  }

  lemma UnknownSince(cfg: Config, r: Relay, run: seq<Event>, k: nat, q: nat, j: nat)
    requires Inv(cfg, r) && Lawful(cfg, r, run) && k < q < j <= |run| && EnqueuesAt(cfg, r, run, k)
    requires forall n | k < n < j :: !StoresAt(cfg, r, run, n, run[k].step.op.packet.hash)
    requires Forgets(run[q], run[k].step.op.packet)
    ensures !Knows(At(cfg, r, run, j), run[k].step.op.packet)
  {
    var p := run[k].step.op.packet;
    hide *;
    ForgottenAt(cfg, r, run, k, q);
    UnknownUntilStored(cfg, r, run, q + 1, j, p);
  }

  /** A packet stored once and now unknown was forgotten since it was last stored. */
  lemma UnknownWasForgotten(cfg: Config, r: Relay, run: seq<Event>, i: nat, j: nat) returns (q: nat)
    requires HashBinds(cfg) && Inv(cfg, r) && Lawful(cfg, r, run) && i < j <= |run| && EnqueuesAt(cfg, r, run, i)
    requires !Knows(At(cfg, r, run, j), run[i].step.op.packet)
    ensures i < q < j && ForgottenSince(cfg, r, run, run[i].step.op.packet, q, j)
  {
    var p := run[i].step.op.packet;
    var k := LastStore(cfg, r, run, i, j, p.hash);
    SamePacket(cfg, r, run, i, k);
    hide Knows, Forgets, Ends, At, Lawful, Inv, HashBinds;
    RememberedUntilForgotten(cfg, r, run, k, j);
    q :| k < q < j && Forgets(run[q], p);
  }

  lemma ForgottenIsUnknown(cfg: Config, r: Relay, run: seq<Event>, i: nat, q: nat, j: nat)
    requires HashBinds(cfg) && Inv(cfg, r) && Lawful(cfg, r, run) && i < q < j <= |run| && EnqueuesAt(cfg, r, run, i)
    requires ForgottenSince(cfg, r, run, run[i].step.op.packet, q, j)
    ensures !Knows(At(cfg, r, run, j), run[i].step.op.packet)
  {
    hide Knows, Forgets, EndingAt, At, Lawful, Inv, HashBinds;
    var p := run[i].step.op.packet;
    var k := LastStore(cfg, r, run, i, j, p.hash);
    SamePacket(cfg, r, run, i, k);
    PrunesDoNotStore(cfg, r, run, q, p);
    hide StoresAt, EnqueuesAt, DeliversAt;
    UnknownSince(cfg, r, run, k, q, j);
  }

  /**
   * A packet stored once is stored again, in any run and under any clock, exactly when everything else about the
   * delivery is in order and a prune has forgotten it since it was last stored.
   */
  lemma StoredAgainIff(cfg: Config, r: Relay, run: seq<Event>, i: nat, j: nat)
    requires HashBinds(cfg) && Inv(cfg, r) && Lawful(cfg, r, run) && i < j < |run|
    requires EnqueuesAt(cfg, r, run, i) && DeliversAt(run, j) && run[j].step.op == run[i].step.op
    ensures var p := run[i].step.op.packet;
      EnqueuesAt(cfg, r, run, j) <==>
        && Admissible(cfg, At(cfg, r, run, j), p, run[j].Now())
        && exists q | i < q < j :: ForgottenSince(cfg, r, run, p, q, j)
  {
    var p := run[i].step.op.packet;
    EnqueuingRemembers(cfg, r, run, i);
    StoresWhenUnknown(cfg, At(cfg, r, run, j), p, run[j].Now());
    hide Admissible, Knows, Remembers, Ends, At, Lawful, Inv, HashBinds, ForgottenSince;
    if !Knows(At(cfg, r, run, j), p) {
      var q := UnknownWasForgotten(cfg, r, run, i, j);
    }
    if exists q | i < q < j :: ForgottenSince(cfg, r, run, p, q, j) {
      var q :| i < q < j && ForgottenSince(cfg, r, run, p, q, j);
      ForgottenIsUnknown(cfg, r, run, i, q, j);
    }
  }

  lemma SamePacket(cfg: Config, r: Relay, run: seq<Event>, i: nat, k: nat)
    requires HashBinds(cfg) && i < |run| && EnqueuesAt(cfg, r, run, i)
    requires k < |run| && StoresAt(cfg, r, run, k, run[i].step.op.packet.hash)
    ensures EnqueuesAt(cfg, r, run, k) && run[k].step.op.packet == run[i].step.op.packet
  {
    EnqueuingRemembers(cfg, r, run, i);
    EnqueuingRemembers(cfg, r, run, k);
    hide At, Ends;
  }

  lemma PrunesDoNotStore(cfg: Config, r: Relay, run: seq<Event>, q: nat, p: Packet)
    requires q < |run| && Forgets(run[q], p)
    ensures !StoresAt(cfg, r, run, q, p.hash)
  {
  }

  /** A refused delivery changes nothing, except that packets of that mailbox already past their expiry may go. */
  lemma RefusalOnlySweeps(cfg: Config, r: Relay, m: Id, p: Packet, now: int)
    requires Delivered(cfg, r, m, p, now).1.Err?
    ensures var t := Delivered(cfg, r, m, p, now).0;
      t == r ||
      (&& m in r.boxes && t == r.(boxes := r.boxes[m := t.boxes[m]])
       && t.boxes[m] == r.boxes[m].(packets := t.boxes[m].packets, bytes := t.boxes[m].bytes)
       && forall x :: x in t.boxes[m].packets <==> x in r.boxes[m].packets && now < x.record.packet.expiresAt)
  {
    hide AdmissionRefusal, QuotaRefusal, PacketRefusal;
    if m in r.boxes {
      KeepIsExact(r.boxes[m].packets, Live(now));
    }
  }

  /** Sequence numbers are never reused within a mailbox's life: an enqueue takes one above all before it. */
  lemma EnqueueTakesAFreshNumber(cfg: Config, r: Relay, m: Id, p: Packet, now: int)
    requires Inv(cfg, r) && Ends(cfg, r, m, p, now) == Stores
    ensures var t := Delivered(cfg, r, m, p, now).0;
      && t.boxes[m].lastSeq == r.boxes[m].lastSeq + 1
      && t.boxes[m].packets[|t.boxes[m].packets| - 1].record == PacketRecord(p.hash, p, now, t.boxes[m].lastSeq)
      && (forall x | x in r.boxes[m].packets :: x.record.seqNo < t.boxes[m].lastSeq && x.record.packetId != p.hash)
      && BoxInv(cfg, m, t.boxes[m])
  {
    hide Keep, TotalSize, AdmissionRefusal, PacketRefusal, QuotaRefusal;
    DeliverKeepsInv(cfg, r, m, p, now);
    var b := r.boxes[m];
    assert BoxInv(cfg, m, b);
    forall x | x in b.packets
      ensures x.record.seqNo <= b.lastSeq && x.record.packetId != p.hash
    {
      var i :| 0 <= i < |b.packets| && b.packets[i] == x;
      assert PacketInv(cfg, m, b, b.packets[i]);
    }
  }

  /** A packet is stored exactly when all of this holds at once, whatever order the relay checks it in. */
  lemma StoresIff(cfg: Config, r: Relay, m: Id, p: Packet, now: int)
    ensures Ends(cfg, r, m, p, now) == Stores <==>
              && SafeTime(now) && PathIdValid(m, 16) && cfg.packetVerifies(p) && p.mailboxId == m && m in r.boxes
              && (var b := r.boxes[m];
                  var card := b.current.envelope;
                  && p.hash !in b.tombstones
                  && cfg.origin in card.routes && p.cardHash == card.hash && p.actor !in b.blocked
                  && now < card.expiresAt && now < p.expiresAt <= card.receiveUntil
                  && p.createdAt < p.expiresAt && p.createdAt <= now + FUTURE_SKEW_MS
                  && p.expiresAt - p.createdAt <= MAX_TTL_MS + FUTURE_SKEW_MS
                  && p.expiresAt - now <= MAX_TTL_MS + FUTURE_SKEW_MS
                  && cfg.size(p) <= MAX_PACKET_BYTES && cfg.size(p) <= card.maxPacketBytes
                  && |Keep(b.packets, Live(now))| < cfg.maxPackets
                  && b.bytes - (TotalSize(b.packets) - TotalSize(Keep(b.packets, Live(now))))
                      + cfg.size(p) <= cfg.maxBytes
                  && b.lastSeq < MAX_SAFE)
  {
  }

  lemma {:induction false} KeepingLessWeighsLess(packets: seq<Stored>, first: Stored -> bool, second: Stored -> bool)
    ensures |Keep(Keep(packets, first), second)| <= |Keep(packets, second)|
    ensures TotalSize(Keep(Keep(packets, first), second)) <= TotalSize(Keep(packets, second))
  {
    hide Keep;
    if packets == [] {
      KeepNone(first);
      KeepNone(second);
    } else {
      var n := |packets| - 1;
      var before, last := packets[..n], packets[n];
      assert packets == before + [last];
      KeepingLessWeighsLess(before, first, second);
      Snoc(before, last, first);
      Snoc(before, last, second);
      Snoc(Keep(before, first), last, second);
      Snoc(Keep(before, second), last, second);
      Snoc(Keep(Keep(before, first), second), last, second);
      assert Keep(packets, first) == Keep(before, first) || Keep(packets, first) == Keep(before, first) + [last];
      assert !second(last) ==> Keep(packets, second) == Keep(before, second);
      assert !second(last) ==> Keep(Keep(before, first) + [last], second) == Keep(Keep(before, first), second);
    }
  }

  lemma SweepingAgainKeepsAll(packets: seq<Stored>, now: int)
    ensures Keep(Keep(packets, Live(now)), Live(now)) == Keep(packets, Live(now))
  {
    KeepIsExact(packets, Live(now));
    hide Keep;
    var kept := Keep(packets, Live(now));
    assert forall i | 0 <= i < |kept| :: kept[i] in kept;
    KeepAll(kept, Live(now));
  }

  /** Of the packets that were there before an enqueue, a later prune and another sweep leave no more than the first. */
  lemma PruningMakesRoom(packets: seq<Stored>, x: Stored, now: int, later: int)
    requires x.record.packet.expiresAt <= later
    ensures var kept := Keep(packets, Live(now));
      var again := Keep(Keep(kept + [x], Live(later)), Live(now));
      |again| <= |kept| && TotalSize(again) <= TotalSize(kept)
  {
    var kept := Keep(packets, Live(now));
    Snoc(kept, x, Live(later));
    SweepingAgainKeepsAll(packets, now);
    KeepingLessWeighsLess(kept, Live(later), Live(now));
    hide Keep, TotalSize;
    assert Keep(kept + [x], Live(later)) == Keep(kept, Live(later));
  }

  lemma SweptWeighs(cfg: Config, m: Id, b: Mailbox, now: int)
    requires BoxInv(cfg, m, b)
    ensures Swept(b, now).bytes == TotalSize(Swept(b, now).packets)
              && Swept(b, now).packets == Keep(b.packets, Live(now))
  {
  }

  lemma QuotaHoldsAgain(cfg: Config, m: Id, b: Mailbox, p: Packet, now: int, later: int)
    requires BoxInv(cfg, m, b) && p.mailboxId == m && p.hash !in b.tombstones
    requires QuotaRefusal(cfg, Swept(b, now), p).None? && b.lastSeq + 1 < MAX_SAFE && p.expiresAt <= later
    ensures QuotaRefusal(cfg, Swept(PrunedBox(Enqueued(cfg, Swept(b, now), p, now), later), now), p).None?
  {
    hide Keep, TotalSize, BoxInv;
    var fuller := Enqueued(cfg, Swept(b, now), p, now);
    ThinningKeepsInv(cfg, m, b, Live(now));
    EnqueueKeepsInv(cfg, m, Swept(b, now), p, now);
    PrunedBoxKeepsInv(cfg, m, fuller, later);
    SweptWeighs(cfg, m, b, now);
    SweptWeighs(cfg, m, PrunedBox(fuller, later), now);
    PruningMakesRoom(b.packets, Stored(PacketRecord(p.hash, p, now, b.lastSeq + 1), cfg.size(p)), now, later);
  }

  lemma BoxAfterPrune(cfg: Config, r: Relay, m: Id, p: Packet, now: int, later: int)
    requires Ends(cfg, r, m, p, now) == Stores && SafeTime(later)
    requires m in Pruned(Delivered(cfg, r, m, p, now).0, later).0.boxes
    ensures var b := Pruned(Delivered(cfg, r, m, p, now).0, later).0.boxes[m];
      && b == PrunedBox(Enqueued(cfg, Swept(r.boxes[m], now), p, now), later)
      && b.current == r.boxes[m].current && (p.hash in b.tombstones <==> later < p.expiresAt)
  {
    hide Keep, TotalSize, AdmissionRefusal, PacketRefusal, QuotaRefusal;
  }

  /**
   * Why the clock must not step back: a prune read at `later` lets the same packet in a second time at the earlier
   * `now` exactly when it was late enough to take the tombstone.
   */
  lemma SteppingBackEnqueuesTwiceIff(cfg: Config, r: Relay, m: Id, p: Packet, now: int, later: int)
    requires Inv(cfg, r) && Ends(cfg, r, m, p, now) == Stores && r.boxes[m].lastSeq + 1 < MAX_SAFE
    requires SafeTime(later) && m in Pruned(Delivered(cfg, r, m, p, now).0, later).0.boxes
    ensures Ends(cfg, Pruned(Delivered(cfg, r, m, p, now).0, later).0, m, p, now) == Stores <==> p.expiresAt <= later
  {
    hide BoxInv, AdmissionRefusal, PacketRefusal, QuotaRefusal, Swept, Enqueued, PrunedBox, Pruned, Delivered;
    BoxAfterPrune(cfg, r, m, p, now, later);
    if p.expiresAt <= later {
      QuotaHoldsAgain(cfg, m, r.boxes[m], p, now, later);
    }
  }
}
