/**
 * The recipient's inbox: sender policy before decryption, then one entry per message until it expires.
 *
 * Opening a packet is asynchronous, so an acceptance is two steps, `Screen` and `Commit`, with any other steps in
 * between. A commit carries the clock reading taken when its acceptance began, which may by then be an old one.
 */
module MailInbox {
  import opened Common
  import opened Text
  import AgentUrl

  datatype Message = Message(from: string, messageId: string, expiresAt: int, content: string)

  datatype Packet = Packet(actor: string, content: string)

  /** Packet verification and decryption are opaque; so is the digest of a message's canonical bytes. */
  datatype Keyring = Keyring(
    verifies: Packet -> bool, opens: (Packet, int) -> Option<Message>, digest: Message -> string)

  datatype Entry = Entry(expires: int, digest: string)

  datatype Inbox = Inbox(accepted: map<string, Entry>, blocked: set<string>)

  datatype Error = InvalidRequest | InvalidEvent | InvalidAgentId | PermissionDenied | ReusedId | PacketExpired

  datatype Kind = Accepted | Duplicate

  function Key(m: Message): string {
    m.from + "/" + m.messageId
  }

  /** An agent id has no slash, so sender and message id can be read back from the key. */
  lemma KeyIdentifies(m: Message, n: Message)
    requires '/' !in m.from && '/' !in n.from
    ensures Key(m) == Key(n) <==> m.from == n.from && m.messageId == n.messageId
  {
    if Key(m) == Key(n) {
      SplitFirst(m.from, m.messageId, '/');
      SplitFirst(n.from, n.messageId, '/');
      assert Split(Key(m), '/')[0] == m.from && Split(Key(n), '/')[0] == n.from;
      assert m.messageId == Key(m)[|m.from| + 1..] == n.messageId;
    }
  }

  function ScreenRefusal(k: Keyring, inbox: Inbox, p: Packet, now: int): Option<Error> {
    if !SafeTime(now) then Some(InvalidRequest)
    else if !k.verifies(p) then Some(InvalidEvent)
    else if p.actor in inbox.blocked then Some(PermissionDenied)
    else None
  }

  function Committed(k: Keyring, inbox: Inbox, m: Message, now: int): (Inbox, Result<Kind, Error>) {
    if Key(m) in inbox.accepted then
      (inbox, if inbox.accepted[Key(m)].digest == k.digest(m) then Ok(Duplicate) else Err(ReusedId))
    else if now >= m.expiresAt then (inbox, Err(PacketExpired))
    else (inbox.(accepted := inbox.accepted[Key(m) := Entry(m.expiresAt, k.digest(m))]), Ok(Accepted))
  }

  function SenderSet(inbox: Inbox, sender: string, block: bool): (Inbox, Result<(), Error>) {
    if !AgentUrl.AgentIdValid(sender) then (inbox, Err(InvalidAgentId))
    else (inbox.(blocked := if block then inbox.blocked + {sender} else inbox.blocked - {sender}), Ok(()))
  }

  function Pruned(inbox: Inbox, now: int): Inbox {
    if !SafeTime(now) then inbox
    else inbox.(accepted := map key | key in inbox.accepted && now < inbox.accepted[key].expires :: inbox.accepted[key])
  }

  class MailInbox {
    const keyring: Keyring
    var accepted: map<string, Entry>
    var blocked: set<string>

    ghost function Contents(): Inbox
      reads this
    {
      Inbox(accepted, blocked)
    }

    constructor (keyring: Keyring)
      ensures this.keyring == keyring && Contents() == Inbox(map[], {})
    {
      this.keyring := keyring;
      accepted, blocked := map[], {};
    }

    method SetSenderBlocked(sender: string, block: bool) returns (r: Result<(), Error>)
      modifies this`blocked
      ensures (Contents(), r) == SenderSet(old(Contents()), sender, block)
    {
      hide AgentUrl.AgentIdValid;
      if !AgentUrl.AgentIdValid(sender) {
        return Err(InvalidAgentId);
      }
      if block {
        blocked := blocked + {sender};
      } else {
        blocked := blocked - {sender};
      }
      r := Ok(());
    }

    /** Everything before the packet is opened. */
    method Screen(p: Packet, now: int) returns (refusal: Option<Error>)
      ensures refusal == ScreenRefusal(keyring, Contents(), p, now)
    {
      if !SafeTime(now) {
        return Some(InvalidRequest);
      }
      if !keyring.verifies(p) {
        return Some(InvalidEvent);
      }
      if p.actor in blocked {
        return Some(PermissionDenied);
      }
      refusal := None;
    }

    /** Everything after the packet is opened; nothing else runs between the lookup and the insertion. */
    method Commit(m: Message, now: int) returns (r: Result<Kind, Error>)
      modifies this`accepted
      ensures (Contents(), r) == Committed(keyring, old(Contents()), m, now)
    {
      var key, digest := Key(m), keyring.digest(m);
      if key in accepted {
        if accepted[key].digest != digest {
          return Err(ReusedId);
        }
        return Ok(Duplicate);
      }
      if now >= m.expiresAt {
        return Err(PacketExpired);
      }
      accepted := accepted[key := Entry(m.expiresAt, digest)];
      r := Ok(Accepted);
    }

    /** An acceptance that nothing interrupts. */
    method Accept(p: Packet, now: int) returns (r: Result<(Kind, Message), Error>)
      modifies this`accepted
      ensures var refusal, m := ScreenRefusal(keyring, old(Contents()), p, now), keyring.opens(p, now);
        if refusal.Some? then r == Err(refusal.value) && accepted == old(accepted)
        else if m.None? then r == Err(InvalidEvent) && accepted == old(accepted)
        else
          var (inbox, committed) := Committed(keyring, old(Contents()), m.value, now);
          Contents() == inbox && r == if committed.Ok? then Ok((committed.value, m.value)) else Err(committed.error)
    {
      var refusal := Screen(p, now);
      if refusal.Some? {
        return Err(refusal.value);
      }
      var m := keyring.opens(p, now);
      if m.None? {
        return Err(InvalidEvent);
      }
      var committed := Commit(m.value, now);
      r := if committed.Ok? then Ok((committed.value, m.value)) else Err(committed.error);
    }

    method Prune(now: int) returns (r: Result<(), Error>)
      modifies this`accepted
      ensures Contents() == Pruned(old(Contents()), now) && r == if SafeTime(now) then Ok(()) else Err(InvalidRequest)
    {
      r := Err(InvalidRequest);
      if SafeTime(now) {
        r := Ok(());
        ghost var before := accepted;
        var todo := accepted.Keys;
        while todo != {}
          invariant todo <= before.Keys && todo <= accepted.Keys <= before.Keys
          invariant forall key | key in accepted :: accepted[key] == before[key]
          invariant forall key | key in before && key !in todo :: key in accepted <==> now < before[key].expires
          invariant blocked == old(blocked)
          decreases todo
        {
          var key :| key in todo;
          if now >= accepted[key].expires {
            accepted := accepted - {key};
          }
          todo := todo - {key};
        }
        assert accepted == Pruned(Inbox(before, blocked), now).accepted;
      }
    }
  }

  // ---- Runs ---------------------------------------------------------------

  /** Screening reads the inbox but does not change it, so it needs no step of its own. */
  datatype Op = Commit(message: Message, now: int) | Prune(now: int) | Block(sender: string, blocked: bool)

  function Apply(k: Keyring, inbox: Inbox, op: Op): Inbox {
    match op
    case Commit(m, now) => Committed(k, inbox, m, now).0
    case Prune(now) => Pruned(inbox, now)
    case Block(sender, blocked) => SenderSet(inbox, sender, blocked).0
  }

  function At(k: Keyring, inbox: Inbox, run: seq<Op>, n: nat): Inbox
    requires n <= |run|
  {
    if n == 0 then inbox else Apply(k, At(k, inbox, run, n - 1), run[n - 1])
  }

  predicate CommitsAt(run: seq<Op>, i: nat, m: Message) {
    i < |run| && run[i].Commit? && run[i].message == m
  }

  predicate AcceptsAt(k: Keyring, inbox: Inbox, run: seq<Op>, i: nat, m: Message) {
    CommitsAt(run, i, m) && Committed(k, At(k, inbox, run, i), m, run[i].now).1 == Ok(Accepted)
  }

  /** A prune late enough to forget the message. */
  predicate ForgetsAt(run: seq<Op>, p: nat, m: Message) {
    p < |run| && run[p].Prune? && SafeTime(run[p].now) && m.expiresAt <= run[p].now
  }

  ghost predicate Holds(k: Keyring, inbox: Inbox, m: Message) {
    Key(m) in inbox.accepted && inbox.accepted[Key(m)] == Entry(m.expiresAt, k.digest(m))
  }

  /** An accepted message is held until a late enough prune. */
  lemma {:induction false} HeldUntilForgotten(k: Keyring, inbox: Inbox, run: seq<Op>, i: nat, j: nat, m: Message)
    requires i < j <= |run| && AcceptsAt(k, inbox, run, i, m)
    ensures Holds(k, At(k, inbox, run, j), m) || exists p | i < p < j :: ForgetsAt(run, p, m)
    decreases j
  {
    if i + 1 < j {
      HeldUntilForgotten(k, inbox, run, i, j - 1, m);
      if !Holds(k, At(k, inbox, run, j), m) && Holds(k, At(k, inbox, run, j - 1), m) {
        assert ForgetsAt(run, j - 1, m);
      }
    }
  }

  /** While a message is held, its content is a duplicate and any other content under its key is refused. */
  lemma HeldKeyIsTaken(k: Keyring, inbox: Inbox, m: Message, other: Message, now: int)
    requires Holds(k, inbox, m) && Key(other) == Key(m)
    ensures Committed(k, inbox, other, now)
         == (inbox, if k.digest(other) == k.digest(m) then Ok(Duplicate) else Err(ReusedId))
  {
  }

  lemma TakenUntilForgotten(k: Keyring, inbox: Inbox, run: seq<Op>, i: nat, j: nat, m: Message, other: Message)
    requires i < j && AcceptsAt(k, inbox, run, i, m) && CommitsAt(run, j, other) && Key(other) == Key(m)
    requires forall p | i < p < j :: !ForgetsAt(run, p, m)
    ensures Committed(k, At(k, inbox, run, j), other, run[j].now).1
         == if k.digest(other) == k.digest(m) then Ok(Duplicate) else Err(ReusedId)
  {
    HeldUntilForgotten(k, inbox, run, i, j, m);
    HeldKeyIsTaken(k, At(k, inbox, run, j), m, other, run[j].now);
  }

  /** No commit uses a clock reading older than one an earlier prune already used. */
  ghost predicate CommitsAreCurrent(run: seq<Op>) {
    forall p, j | 0 <= p < j < |run| && run[p].Prune? && run[j].Commit? :: run[p].now <= run[j].now
  }

  /** Under that discipline, which a steady clock gives if no acceptances overlap, a message is accepted once. */
  lemma AcceptedAtMostOnce(k: Keyring, inbox: Inbox, run: seq<Op>, i: nat, j: nat, m: Message)
    requires CommitsAreCurrent(run) && i < j && AcceptsAt(k, inbox, run, i, m)
    ensures !AcceptsAt(k, inbox, run, j, m)
  {
    if CommitsAt(run, j, m) {
      HeldUntilForgotten(k, inbox, run, i, j, m);
    }
  }

  // ---- Exactly when a message is accepted twice ---------------------------

  /** A commit of `m` whose clock reading is from before its expiry, after a prune from beyond it. */
  ghost predicate StaleCommit(run: seq<Op>, m: Message, p: nat, j: nat) {
    p < j && ForgetsAt(run, p, m) && CommitsAt(run, j, m) && run[j].now < m.expiresAt
  }

  /** Senders do not reuse this message's id for other content. */
  ghost predicate KeyIsItsOwn(run: seq<Op>, m: Message) {
    forall i | 0 <= i < |run| && run[i].Commit? && Key(run[i].message) == Key(m) :: run[i].message == m
  }

  lemma {:induction false} AbsentUntilAccepted(k: Keyring, inbox: Inbox, run: seq<Op>, a: nat, b: nat, m: Message)
    requires a <= b <= |run| && KeyIsItsOwn(run, m) && Key(m) !in At(k, inbox, run, a).accepted
    ensures Key(m) !in At(k, inbox, run, b).accepted || exists i | a <= i < b :: AcceptsAt(k, inbox, run, i, m)
    decreases b
  {
    if a < b {
      AbsentUntilAccepted(k, inbox, run, a, b - 1, m);
      if Key(m) !in At(k, inbox, run, b - 1).accepted && Key(m) in At(k, inbox, run, b).accepted {
        assert AcceptsAt(k, inbox, run, b - 1, m);
      }
    }
  }

  lemma {:induction false} EntryIsItsOwn(k: Keyring, inbox: Inbox, run: seq<Op>, i: nat, j: nat, m: Message)
    requires i < j <= |run| && KeyIsItsOwn(run, m) && AcceptsAt(k, inbox, run, i, m)
    ensures Key(m) in At(k, inbox, run, j).accepted ==> Holds(k, At(k, inbox, run, j), m)
    decreases j
  {
    if i + 1 < j {
      EntryIsItsOwn(k, inbox, run, i, j - 1, m);
    }
  }

  /**
   * An accepted message is accepted again exactly when some later commit of it is stale: its clock reading is from
   * before the message's expiry, and the inbox has pruned past it.
   */
  lemma AcceptedAgainIffStale(k: Keyring, inbox: Inbox, run: seq<Op>, i: nat, m: Message)
    requires KeyIsItsOwn(run, m) && AcceptsAt(k, inbox, run, i, m)
    ensures (exists j :: i < j && AcceptsAt(k, inbox, run, j, m)) <==>
              (exists p, j :: i < p && StaleCommit(run, m, p, j))
  {
    if exists j :: i < j && AcceptsAt(k, inbox, run, j, m) {
      var j :| i < j && AcceptsAt(k, inbox, run, j, m);
      HeldUntilForgotten(k, inbox, run, i, j, m);
      var p :| i < p < j && ForgetsAt(run, p, m);
      assert StaleCommit(run, m, p, j);
    }
    if exists p, j :: i < p && StaleCommit(run, m, p, j) {
      var p, j :| i < p && StaleCommit(run, m, p, j);
      EntryIsItsOwn(k, inbox, run, i, p, m);
      AbsentUntilAccepted(k, inbox, run, p + 1, j, m);
      if Key(m) !in At(k, inbox, run, j).accepted {
        assert AcceptsAt(k, inbox, run, j, m);
      }
    }
  }

  // ---- Acceptances under way ----------------------------------------------

  /** An acceptance between its screening and its commit: the opened message and the clock reading it began with. */
  datatype Task = Task(message: Message, now: int)

  datatype Session = Session(inbox: Inbox, pending: multiset<Task>)

  /** `Begin` is everything up to the opened packet; `Finish` resumes a pending acceptance. */
  datatype Action =
    | Begin(packet: Packet, now: int) | Finish(task: Task) | Blocks(sender: string, blocked: bool) | Prunes(now: int)

  function Acted(k: Keyring, s: Session, a: Action): Session {
    match a
    case Begin(p, now) =>
      if ScreenRefusal(k, s.inbox, p, now).None? && k.opens(p, now).Some?
      then s.(pending := s.pending + multiset{Task(k.opens(p, now).value, now)}) else s
    case Finish(task) =>
      if task in s.pending
      then Session(Committed(k, s.inbox, task.message, task.now).0, s.pending - multiset{task}) else s
    case Blocks(sender, blocked) => s.(inbox := SenderSet(s.inbox, sender, blocked).0)
    case Prunes(now) => s.(inbox := Pruned(s.inbox, now))
  }

  function SessionAt(k: Keyring, s: Session, actions: seq<Action>, n: nat): Session
    requires n <= |actions|
  {
    if n == 0 then s else Acted(k, SessionAt(k, s, actions, n - 1), actions[n - 1])
  }

  predicate AcceptsIn(k: Keyring, s: Session, actions: seq<Action>, j: nat, m: Message)
    requires j < |actions|
  {
    var before, a := SessionAt(k, s, actions, j), actions[j];
    a.Finish? && a.task.message == m && a.task in before.pending
        && Committed(k, before.inbox, m, a.task.now).1 == Ok(Accepted)
  }

  /** At `i` a packet was verified, its sender not blocked, and it opened to this task. */
  predicate ScreenedAt(k: Keyring, s: Session, actions: seq<Action>, i: nat, task: Task)
    requires i < |actions|
  {
    && actions[i].Begin? && actions[i].now == task.now && SafeTime(task.now)
    && k.verifies(actions[i].packet) && actions[i].packet.actor !in SessionAt(k, s, actions, i).inbox.blocked
    && k.opens(actions[i].packet, task.now) == Some(task.message)
  }

  lemma {:induction false} PendingWasScreened(k: Keyring, s: Session, actions: seq<Action>, n: nat, task: Task)
    requires s.pending == multiset{} && n <= |actions| && task in SessionAt(k, s, actions, n).pending
    ensures exists i | 0 <= i < n :: ScreenedAt(k, s, actions, i, task)
  {
    hide Committed, SenderSet, Pruned;
    if n > 0 {
      if task in SessionAt(k, s, actions, n - 1).pending {
        PendingWasScreened(k, s, actions, n - 1, task);
      } else {
        assert ScreenedAt(k, s, actions, n - 1, task);
      }
    }
  }

  /**
   * Sender policy comes before decryption: whatever runs in between, every message the inbox accepts was opened, with
   * the clock reading it is committed with, from a verified packet whose sender was not blocked at that moment.
   */
  lemma AcceptedWasScreened(k: Keyring, s: Session, actions: seq<Action>, j: nat, m: Message)
    requires s.pending == multiset{} && j < |actions| && AcceptsIn(k, s, actions, j, m)
    ensures exists i | 0 <= i < j :: ScreenedAt(k, s, actions, i, actions[j].task)
  {
    PendingWasScreened(k, s, actions, j, actions[j].task);
  }

  /** A packet is opened for acceptance exactly when the clock is safe, it verifies, and its sender is not blocked. */
  lemma OpenedIff(k: Keyring, s: Session, p: Packet, now: int)
    ensures var after := Acted(k, s, Begin(p, now));
      && after.inbox == s.inbox
      && after.pending ==
           if SafeTime(now) && k.verifies(p) && p.actor !in s.inbox.blocked && k.opens(p, now).Some?
           then s.pending + multiset{Task(k.opens(p, now).value, now)} else s.pending
  {
  }

  /** What an action leaves of the sender policy and of the acceptances under way. */
  lemma PolicyFollows(k: Keyring, s: Session, a: Action, sender: string)
    ensures sender in Acted(k, s, a).inbox.blocked <==>
              if a.Blocks? && a.sender == sender && AgentUrl.AgentIdValid(sender) then a.blocked
              else sender in s.inbox.blocked
    ensures !a.Begin? ==> Acted(k, s, a).pending == if a.Finish? then s.pending - multiset{a.task} else s.pending
  {
    hide AgentUrl.AgentIdValid;
  }

  /** What an action leaves under one key: only a current commit adds an entry, and only a late prune takes one. */
  lemma EntriesFollow(k: Keyring, s: Session, a: Action, key: string)
    ensures var inbox := Acted(k, s, a).inbox;
      && (key in inbox.accepted <==>
            || (key in s.inbox.accepted
                && !(a.Prunes? && SafeTime(a.now) && s.inbox.accepted[key].expires <= a.now))
            || (a.Finish? && a.task in s.pending && key == a.task.message.from + "/" + a.task.message.messageId
                && a.task.now < a.task.message.expiresAt))
      && (key in s.inbox.accepted && key in inbox.accepted ==> inbox.accepted[key] == s.inbox.accepted[key])
      && (key !in s.inbox.accepted && key in inbox.accepted ==>
            inbox.accepted[key] == Entry(a.task.message.expiresAt, k.digest(a.task.message)))
  {
    hide AgentUrl.AgentIdValid;
  }

  /** The inbox steps a session amounts to: what has finished, and what housekeeping did. */
  function Steps(k: Keyring, s: Session, actions: seq<Action>, n: nat): seq<Op>
    requires n <= |actions|
  {
    if n == 0 then []
    else
      Steps(k, s, actions, n - 1) + StepsOf(SessionAt(k, s, actions, n - 1), actions[n - 1])
  }

  lemma {:induction false} AtPrefix(k: Keyring, inbox: Inbox, run: seq<Op>, more: seq<Op>, n: nat)
    requires n <= |run|
    ensures At(k, inbox, run + more, n) == At(k, inbox, run, n)
  {
    hide Apply;
    if n > 0 {
      AtPrefix(k, inbox, run, more, n - 1);
    }
  }

  lemma AtSnoc(k: Keyring, inbox: Inbox, run: seq<Op>, op: Op)
    ensures At(k, inbox, run + [op], |run| + 1) == Apply(k, At(k, inbox, run, |run|), op)
  {
    hide Apply;
    AtPrefix(k, inbox, run, [op], |run|);
  }

  /** What one action adds to those steps. */
  function StepsOf(before: Session, a: Action): seq<Op> {
    match a
    case Begin(_, _) => []
    case Finish(task) => if task in before.pending then [Op.Commit(task.message, task.now)] else []
    case Blocks(sender, blocked) => [Op.Block(sender, blocked)]
    case Prunes(now) => [Op.Prune(now)]
  }

  lemma ActionIsItsSteps(k: Keyring, s: Session, a: Action)
    ensures |StepsOf(s, a)| <= 1
    ensures Acted(k, s, a).inbox == if StepsOf(s, a) == [] then s.inbox else Apply(k, s.inbox, StepsOf(s, a)[0])
  {
    hide Committed, ScreenRefusal, SenderSet, Pruned;
  }

  /** A session leaves the inbox as those steps do, so what holds of every run of the inbox holds of every session. */
  lemma {:induction false} SessionIsARun(k: Keyring, s: Session, actions: seq<Action>, n: nat)
    requires n <= |actions|
    ensures var run := Steps(k, s, actions, n);
      SessionAt(k, s, actions, n).inbox == At(k, s.inbox, run, |run|)
  {
    hide Acted, Apply, StepsOf;
    if n > 0 {
      SessionIsARun(k, s, actions, n - 1);
      var before, run := SessionAt(k, s, actions, n - 1), Steps(k, s, actions, n - 1);
      var more := StepsOf(before, actions[n - 1]);
      ActionIsItsSteps(k, before, actions[n - 1]);
      assert more == if more == [] then [] else [more[0]];
      if more == [] {
        assert run + more == run;
      } else {
        AtSnoc(k, s.inbox, run, more[0]);
      }
    }
  }

  // ---- Stalled decryptions ------------------------------------------------

  /** The clock does not step back: acceptances begin and prunes run at readings that do not fall. */
  ghost predicate Steady(actions: seq<Action>) {
    forall a, b | 0 <= a < b < |actions| && Timed(actions[a]) && Timed(actions[b]) ::
      actions[a].now <= actions[b].now
  }

  predicate Timed(a: Action) {
    a.Begin? || a.Prunes?
  }

  predicate ForgetsIn(actions: seq<Action>, p: nat, m: Message) {
    p < |actions| && actions[p].Prunes? && SafeTime(actions[p].now) && m.expiresAt <= actions[p].now
  }

  predicate FinishesIn(k: Keyring, s: Session, actions: seq<Action>, j: nat, m: Message) {
    && j < |actions| && actions[j].Finish? && actions[j].task.message == m
    && actions[j].task in SessionAt(k, s, actions, j).pending
  }

  /** An acceptance of `m` that began at `b`, before the expiry, and finished at `j`, behind a prune past it at `p`. */
  predicate StallsAt(k: Keyring, s: Session, actions: seq<Action>, m: Message, b: nat, p: nat, j: nat) {
    && b < p < j && FinishesIn(k, s, actions, j, m) && ForgetsIn(actions, p, m)
    && ScreenedAt(k, s, actions, b, actions[j].task) && actions[j].task.now < m.expiresAt
  }

  /** Senders do not reuse this message's id for other content. */
  ghost predicate IdIsItsOwn(actions: seq<Action>, m: Message) {
    forall i | 0 <= i < |actions| && actions[i].Finish? && Key(actions[i].task.message) == Key(m) ::
      actions[i].task.message == m
  }

  lemma {:induction false} HeldInSession(k: Keyring, s: Session, actions: seq<Action>, i: nat, n: nat, m: Message)
    requires i < n <= |actions| && AcceptsIn(k, s, actions, i, m)
    ensures Holds(k, SessionAt(k, s, actions, n).inbox, m) || exists p | i < p < n :: ForgetsIn(actions, p, m)
    decreases n
  {
    hide Acted, Holds;
    if i + 1 == n {
      AcceptedIsHeld(k, SessionAt(k, s, actions, i), actions[i], m);
    } else {
      HeldInSession(k, s, actions, i, n - 1, m);
      var before := SessionAt(k, s, actions, n - 1).inbox;
      if Holds(k, before, m) && !Holds(k, SessionAt(k, s, actions, n).inbox, m) {
        OnlyForgettingLoses(k, SessionAt(k, s, actions, n - 1), actions[n - 1], m);
        assert ForgetsIn(actions, n - 1, m);
      }
    }
  }

  lemma AcceptedIsHeld(k: Keyring, s: Session, a: Action, m: Message)
    requires a.Finish? && a.task.message == m && a.task in s.pending
    requires Committed(k, s.inbox, m, a.task.now).1 == Ok(Accepted)
    ensures Holds(k, Acted(k, s, a).inbox, m)
  {
  }

  lemma OnlyForgettingLoses(k: Keyring, s: Session, a: Action, m: Message)
    requires Holds(k, s.inbox, m) && !Holds(k, Acted(k, s, a).inbox, m)
    ensures a.Prunes? && SafeTime(a.now) && m.expiresAt <= a.now
  {
    hide ScreenRefusal, AgentUrl.AgentIdValid;
  }

  /** What the inbox has under this key, if anything, is this message's entry. */
  ghost predicate OnlyOwn(k: Keyring, inbox: Inbox, m: Message) {
    Key(m) in inbox.accepted ==> Holds(k, inbox, m)
  }

  lemma ActionKeepsOwn(k: Keyring, s: Session, a: Action, m: Message)
    requires OnlyOwn(k, s.inbox, m)
    requires a.Finish? && Key(a.task.message) == Key(m) ==> a.task.message == m
    ensures OnlyOwn(k, Acted(k, s, a).inbox, m)
  {
    hide ScreenRefusal, AgentUrl.AgentIdValid, Key;
  }

  lemma {:induction false} EntryInSession(k: Keyring, s: Session, actions: seq<Action>, i: nat, n: nat, m: Message)
    requires i < n <= |actions| && IdIsItsOwn(actions, m) && AcceptsIn(k, s, actions, i, m)
    ensures OnlyOwn(k, SessionAt(k, s, actions, n).inbox, m)
    decreases n
  {
    hide Acted, Key;
    if i + 1 == n {
      AcceptedIsHeld(k, SessionAt(k, s, actions, i), actions[i], m);
    } else {
      EntryInSession(k, s, actions, i, n - 1, m);
      hide OnlyOwn;
      ActionKeepsOwn(k, SessionAt(k, s, actions, n - 1), actions[n - 1], m);
    }
  }

  lemma OnlyAcceptanceAdds(k: Keyring, s: Session, a: Action, m: Message)
    requires Key(m) !in s.inbox.accepted && Key(m) in Acted(k, s, a).inbox.accepted
    ensures a.Finish? && a.task in s.pending && Key(a.task.message) == Key(m)
    ensures Committed(k, s.inbox, a.task.message, a.task.now).1 == Ok(Accepted)
  {
    hide ScreenRefusal, AgentUrl.AgentIdValid, Key;
  }

  lemma {:induction false} AbsentInSession(k: Keyring, s: Session, actions: seq<Action>, a: nat, n: nat, m: Message)
    requires a <= n <= |actions| && IdIsItsOwn(actions, m) && Key(m) !in SessionAt(k, s, actions, a).inbox.accepted
    ensures Key(m) !in SessionAt(k, s, actions, n).inbox.accepted
            || exists j | a <= j < n :: AcceptsIn(k, s, actions, j, m)
    decreases n
  {
    hide Acted, Committed, Key;
    if a < n {
      AbsentInSession(k, s, actions, a, n - 1, m);
      var before, after := SessionAt(k, s, actions, n - 1), SessionAt(k, s, actions, n);
      if Key(m) !in before.inbox.accepted && Key(m) in after.inbox.accepted {
        OnlyAcceptanceAdds(k, before, actions[n - 1], m);
        assert AcceptsIn(k, s, actions, n - 1, m);
      }
    }
  }

  /** A prune past its expiry leaves an accepted message unknown. */
  lemma ForgottenInSession(k: Keyring, s: Session, actions: seq<Action>, i: nat, p: nat, m: Message)
    requires i < p < |actions| && IdIsItsOwn(actions, m) && AcceptsIn(k, s, actions, i, m) && ForgetsIn(actions, p, m)
    ensures Key(m) !in SessionAt(k, s, actions, p + 1).inbox.accepted
  {
    EntryInSession(k, s, actions, i, p, m);
  }

  lemma AcceptanceIsTimely(k: Keyring, s: Session, actions: seq<Action>, j: nat, m: Message)
    requires j < |actions| && AcceptsIn(k, s, actions, j, m)
    ensures FinishesIn(k, s, actions, j, m) && actions[j].task.now < m.expiresAt
    ensures !Holds(k, SessionAt(k, s, actions, j).inbox, m)
  {
    hide SessionAt;
  }

  lemma BeganBefore(k: Keyring, s: Session, actions: seq<Action>, b: nat, p: nat, task: Task, m: Message)
    requires Steady(actions) && b < |actions| && ScreenedAt(k, s, actions, b, task) && ForgetsIn(actions, p, m)
    requires task.now < m.expiresAt
    ensures b < p
  {
    hide SessionAt;
    assert Timed(actions[p]) && Timed(actions[b]);
  }

  /** Under a steady clock, a message is only accepted again by an acceptance that stalled across its expiry. */
  lemma SecondAcceptanceStalled(k: Keyring, s: Session, actions: seq<Action>, i: nat, j: nat, m: Message)
    returns (b: nat, p: nat)
    requires s.pending == multiset{} && Steady(actions) && i < j < |actions|
    requires AcceptsIn(k, s, actions, i, m) && AcceptsIn(k, s, actions, j, m)
    ensures i < p && StallsAt(k, s, actions, m, b, p, j)
  {
    HeldInSession(k, s, actions, i, j, m);
    AcceptedWasScreened(k, s, actions, j, m);
    AcceptanceIsTimely(k, s, actions, j, m);
    hide SessionAt, AcceptsIn, FinishesIn, Holds, ScreenedAt, ForgetsIn, Steady;
    p :| i < p < j && ForgetsIn(actions, p, m);
    b :| 0 <= b < j && ScreenedAt(k, s, actions, b, actions[j].task);
    BeganBefore(k, s, actions, b, p, actions[j].task, m);
  }

  /** Under a steady clock, an accepted message is accepted again exactly when some acceptance of it stalls so. */
  lemma AcceptedAgainIffStalled(k: Keyring, s: Session, actions: seq<Action>, i: nat, m: Message)
    requires s.pending == multiset{} && Steady(actions) && IdIsItsOwn(actions, m)
    requires i < |actions| && AcceptsIn(k, s, actions, i, m)
    ensures (exists j | i < j < |actions| :: AcceptsIn(k, s, actions, j, m))
              <==> (exists b, p, j :: i < p && StallsAt(k, s, actions, m, b, p, j))
  {
    hide SessionAt, ScreenedAt, ScreenRefusal, Steady;
    if exists j | i < j < |actions| :: AcceptsIn(k, s, actions, j, m) {
      var j :| i < j < |actions| && AcceptsIn(k, s, actions, j, m);
      var b, p := SecondAcceptanceStalled(k, s, actions, i, j, m);
    }
    if exists b, p, j :: i < p && StallsAt(k, s, actions, m, b, p, j) {
      var b, p, j :| i < p && StallsAt(k, s, actions, m, b, p, j);
      ForgottenInSession(k, s, actions, i, p, m);
      AbsentInSession(k, s, actions, p + 1, j, m);
      if Key(m) !in SessionAt(k, s, actions, j).inbox.accepted {
        assert AcceptsIn(k, s, actions, j, m);
      }
    }
  }

  /** A packet that arrives twice just before its message expires; the second decryption ends after a prune. */
  function Stall(p: Packet, m: Message): seq<Action> {
    var task := Task(m, m.expiresAt - 1);
    [Begin(p, task.now), Begin(p, task.now), Finish(task), Prunes(m.expiresAt), Finish(task)]
  }

  /** It happens to every packet that verifies and opens, from any sender who is not blocked. */
  lemma StalledDecryptionAcceptsTwice(k: Keyring, blocked: set<string>, p: Packet, m: Message)
    requires 1 <= m.expiresAt <= MAX_SAFE && k.verifies(p) && p.actor !in blocked
    requires k.opens(p, m.expiresAt - 1) == Some(m)
    ensures var s, actions := Session(Inbox(map[], blocked), multiset{}), Stall(p, m);
      && Steady(actions) && IdIsItsOwn(actions, m)
      && AcceptsIn(k, s, actions, 2, m) && AcceptsIn(k, s, actions, 4, m)
  {
    var s, actions, task := Session(Inbox(map[], blocked), multiset{}), Stall(p, m), Task(m, m.expiresAt - 1);
    hide SessionAt, Acted, Committed, Key, ScreenRefusal, Holds;
    SessionSteps(k, s, actions, 0);
    BeginAdds(k, s, p, m, task.now);
    SessionSteps(k, s, actions, 1);
    BeginAdds(k, SessionAt(k, s, actions, 1), p, m, task.now);
    SessionSteps(k, s, actions, 2);
    FinishAccepts(k, SessionAt(k, s, actions, 2), task);
    SessionSteps(k, s, actions, 3);
    PruneForgets(k, SessionAt(k, s, actions, 3), m, m.expiresAt);
    FinishAccepts(k, SessionAt(k, s, actions, 4), task);
  }

  lemma BeginAdds(k: Keyring, s: Session, p: Packet, m: Message, now: int)
    requires SafeTime(now) && k.verifies(p) && p.actor !in s.inbox.blocked && k.opens(p, now) == Some(m)
    ensures var t := Acted(k, s, Begin(p, now));
      t.inbox == s.inbox && t.pending[Task(m, now)] == s.pending[Task(m, now)] + 1
  {
  }

  lemma FinishAccepts(k: Keyring, s: Session, task: Task)
    requires task in s.pending && Key(task.message) !in s.inbox.accepted && task.now < task.message.expiresAt
    ensures Committed(k, s.inbox, task.message, task.now).1 == Ok(Accepted)
    ensures var t := Acted(k, s, Finish(task));
      Holds(k, t.inbox, task.message) && t.pending[task] == s.pending[task] - 1
  {
  }

  lemma PruneForgets(k: Keyring, s: Session, m: Message, now: int)
    requires Holds(k, s.inbox, m) && SafeTime(now) && m.expiresAt <= now
    ensures var t := Acted(k, s, Prunes(now));
      Key(m) !in t.inbox.accepted && t.pending == s.pending
  {
  }

  lemma SessionSteps(k: Keyring, s: Session, actions: seq<Action>, n: nat)
    requires n < |actions|
    ensures SessionAt(k, s, actions, 0) == s
    ensures SessionAt(k, s, actions, n + 1) == Acted(k, SessionAt(k, s, actions, n), actions[n])
  {
    hide Acted;
  }
}
