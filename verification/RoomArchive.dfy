/** Hash-chained room archives: verification, what a verified chain commits to, and redaction. */
module RoomArchive {
  import opened Common
  import opened RoomEvents

  /** What a record's hash covers: everything but the envelope, which it covers through the envelope's own hash. */
  datatype HashInput = HashInput(
    roomId: string, seqNo: nat, preHash: Option<string>, envelopeHash: string, acceptedAt: int)

  datatype Body =
    | Signed(envelopeHash: string, kind: EventType, content: string)
    | Redacted(envelopeHash: string, kind: EventType, flagged: bool)

  datatype Record = Record(
    roomId: string, seqNo: nat, preHash: Option<string>, hash: string, acceptedAt: int, body: Body)
  {
    function Input(): HashInput {
      HashInput(roomId, seqNo, preHash, body.envelopeHash, acceptedAt)
    }
  }

  datatype Manifest = Manifest(roomId: string, lastSeq: nat, lastHash: string)

  datatype Error = InvalidHash | NotRedactable | BrokenLink | WrongEnd | WrongRoom | InvalidEnvelope

  ghost predicate Injective(hash: HashInput -> string) {
    forall a, b | hash(a) == hash(b) :: a == b
  }

  // ---- Verification -------------------------------------------------------

  predicate RecordValid(hash: HashInput -> string, r: Record) {
    r.hash == hash(r.Input()) && (r.body.Redacted? ==> r.body.flagged && r.body.kind.Redactable())
  }

  predicate Linked(r: Record, next: Record) {
    next.seqNo == r.seqNo + 1 && next.preHash == Some(r.hash)
  }

  /** A gap-free chain from sequence number 1, every record valid. */
  ghost predicate ChainValid(hash: HashInput -> string, records: seq<Record>) {
    && (forall r | r in records :: RecordValid(hash, r))
    && (records != [] ==> records[0].seqNo == 1 && records[0].preHash == None)
    && forall i, j | 0 <= i < j < |records| && j == i + 1 :: Linked(records[i], records[j])
  }

  method VerifyArchiveChain(hash: HashInput -> string, records: seq<Record>) returns (r: Result<(), Error>)
    ensures r.Ok? <==> ChainValid(hash, records)
  {
    var previous: Option<Record> := None;
    for i := 0 to |records|
      invariant previous == if i == 0 then None else Some(records[i - 1])
      invariant ChainValid(hash, records[..i])
    {
      var record := records[i];
      if record.hash != hash(record.Input()) {
        assert record in records && !RecordValid(hash, record);
        return Err(InvalidHash);
      }
      if record.body.Redacted? && !(record.body.flagged && record.body.kind.Redactable()) {
        assert record in records && !RecordValid(hash, record);
        return Err(NotRedactable);
      }
      match previous {
        case Some(p) =>
          if record.seqNo != p.seqNo + 1 || record.preHash != Some(p.hash) {
            assert !Linked(records[i - 1], records[i]);
            return Err(BrokenLink);
          }
        case None =>
          if record.seqNo != 1 || record.preHash.Some? {
            return Err(BrokenLink);
          }
      }
      ChainGrows(hash, records, i);
      previous := Some(record);
    }
    assert records[..|records|] == records;
    r := Ok(());
  }

  lemma ChainGrows(hash: HashInput -> string, records: seq<Record>, i: nat)
    requires i < |records| && ChainValid(hash, records[..i]) && RecordValid(hash, records[i])
    requires if i == 0 then records[0].seqNo == 1 && records[0].preHash == None else Linked(records[i - 1], records[i])
    ensures ChainValid(hash, records[..i + 1])
  {
  }

  function RedactedSeqs(records: seq<Record>): seq<nat> {
    if records == [] then []
    else
      var last := records[|records| - 1];
      RedactedSeqs(records[..|records| - 1]) + if last.body.Redacted? then [last.seqNo] else []
  }

  predicate EndsAt(records: seq<Record>, m: Manifest) {
    records != [] && records[|records| - 1].seqNo == m.lastSeq && records[|records| - 1].hash == m.lastHash
  }

  ghost predicate Verifies(hash: HashInput -> string, envelopeValid: Body -> bool, m: Manifest, records: seq<Record>) {
    && ChainValid(hash, records) && EndsAt(records, m)
    && forall r | r in records :: r.roomId == m.roomId && (r.body.Signed? ==> envelopeValid(r.body))
  }

  method VerifyArchiveRecords(hash: HashInput -> string, envelopeValid: Body -> bool, m: Manifest, records: seq<Record>)
    returns (r: Result<seq<nat>, Error>)
    ensures r.Ok? <==> Verifies(hash, envelopeValid, m, records)
    ensures r.Ok? ==> r.value == RedactedSeqs(records)
  {
    var chain := VerifyArchiveChain(hash, records);
    if chain.Err? {
      return Err(chain.error);
    }
    if !EndsAt(records, m) {
      return Err(WrongEnd);
    }
    var redacted: seq<nat> := [];
    for i := 0 to |records|
      invariant redacted == RedactedSeqs(records[..i])
      invariant forall j | 0 <= j < i ::
                  records[j].roomId == m.roomId && (records[j].body.Signed? ==> envelopeValid(records[j].body))
    {
      assert records[..i + 1][..i] == records[..i];
      assert records[i] in records;
      if records[i].roomId != m.roomId {
        return Err(WrongRoom);
      }
      if records[i].body.Redacted? {
        redacted := redacted + [records[i].seqNo];
      } else if !envelopeValid(records[i].body) {
        return Err(InvalidEnvelope);
      }
    }
    assert records[..|records|] == records;
    r := Ok(redacted);
  }

  // ---- Commitment ---------------------------------------------------------

  lemma {:induction false} NumberedByPosition(hash: HashInput -> string, records: seq<Record>, i: nat)
    requires ChainValid(hash, records) && i < |records|
    ensures records[i].seqNo == i + 1
  {
    if i > 0 {
      NumberedByPosition(hash, records, i - 1);
      assert Linked(records[i - 1], records[i]);
    }
  }

  lemma {:induction false} CommittedAt(hash: HashInput -> string, a: seq<Record>, b: seq<Record>, i: nat)
    requires Injective(hash) && ChainValid(hash, a) && ChainValid(hash, b)
    requires i < |a| == |b| && a[|a| - 1].hash == b[|b| - 1].hash
    ensures a[i].hash == b[i].hash && a[i].Input() == b[i].Input()
    decreases |a| - i
  {
    if i + 1 < |a| {
      CommittedAt(hash, a, b, i + 1);
      assert Linked(a[i], a[i + 1]) && Linked(b[i], b[i + 1]);
    }
    assert RecordValid(hash, a[i]) && RecordValid(hash, b[i]) by {
      assert a[i] in a && b[i] in b;
    }
  }

  /** One manifest, one history: two verified archives with one end agree, position by position, on all hashed. */
  lemma ArchivesAgree(
    hash: HashInput -> string, envelopeValid: Body -> bool, m: Manifest, n: Manifest, a: seq<Record>, b: seq<Record>)
    requires Injective(hash) && m.lastSeq == n.lastSeq && m.lastHash == n.lastHash
    requires Verifies(hash, envelopeValid, m, a) && Verifies(hash, envelopeValid, n, b)
    ensures |a| == |b| == m.lastSeq && m.roomId == n.roomId
    ensures forall i | 0 <= i < |a| :: a[i].Input() == b[i].Input() && a[i].hash == b[i].hash && a[i].seqNo == i + 1
  {
    NumberedByPosition(hash, a, |a| - 1);
    NumberedByPosition(hash, b, |b| - 1);
    forall i | 0 <= i < |a|
      ensures a[i].Input() == b[i].Input() && a[i].hash == b[i].hash && a[i].seqNo == i + 1
    {
      CommittedAt(hash, a, b, i);
      NumberedByPosition(hash, a, i);
    }
    assert a[0] in a && b[0] in b;
  }

  // ---- Redaction ----------------------------------------------------------

  function RedactServerRecord(r: Record): Result<Record, Error>
    requires r.body.Signed?
  {
    if !r.body.kind.Redactable() then Err(NotRedactable)
    else Ok(r.(body := Redacted(r.body.envelopeHash, r.body.kind, true)))
  }

  /** A message or a record of a room's own types can be redacted, and no other; its hash still covers it. */
  lemma RedactableIff(hash: HashInput -> string, r: Record)
    requires r.body.Signed? && r.hash == hash(r.Input())
    ensures RedactServerRecord(r).Ok? <==> r.body.kind.MessageCreate? || r.body.kind.Custom?
    ensures RedactServerRecord(r).Ok? ==>
              var redacted := RedactServerRecord(r).value;
              && redacted == r.(body := Redacted(r.body.envelopeHash, r.body.kind, true)) && RecordValid(hash, redacted)
  {
  }

  /** Nothing but messages and records of a room's own types is redacted in a valid chain. */
  lemma OnlyMessagesAreRedacted(hash: HashInput -> string, records: seq<Record>, i: nat)
    requires ChainValid(hash, records) && i < |records| && records[i].body.Redacted?
    ensures records[i].body.flagged && (records[i].body.kind.MessageCreate? || records[i].body.kind.Custom?)
    ensures i > 0 ==> records[i].preHash == Some(records[i - 1].hash)
  {
    assert records[i] in records;
    if i > 0 {
      assert Linked(records[i - 1], records[i]);
    }
  }

  /** The archive with the records at `positions` replaced by their redacted forms. */
  function RedactedAt(records: seq<Record>, positions: set<nat>): seq<Record>
    requires forall i | i in positions :: i < |records| && records[i].body.Signed? && records[i].body.kind.Redactable()
  {
    seq(|records|, i requires 0 <= i < |records|
                     && (i in positions ==> records[i].body.Signed? && records[i].body.kind.Redactable()) =>
          if i in positions then RedactServerRecord(records[i]).value else records[i])
  }

  lemma {:induction false} RedactedSeqsAre(hash: HashInput -> string, records: seq<Record>, n: nat)
    requires ChainValid(hash, records) && n <= |records|
    ensures forall k :: k in RedactedSeqs(records[..n]) <==> 1 <= k <= n && records[k - 1].body.Redacted?
    ensures forall i, j | 0 <= i < j < |RedactedSeqs(records[..n])| ::
              RedactedSeqs(records[..n])[i] < RedactedSeqs(records[..n])[j]
  {
    if n > 0 {
      RedactedSeqsAre(hash, records, n - 1);
      NumberedByPosition(hash, records, n - 1);
      assert records[..n][..n - 1] == records[..n - 1];
      var before := RedactedSeqs(records[..n - 1]);
      forall i | 0 <= i < |before|
        ensures before[i] < n
      {
        assert before[i] in before;
      }
    }
  }

  lemma RedactedPosition(
    hash: HashInput -> string, envelopeValid: Body -> bool, m: Manifest, records: seq<Record>, positions: set<nat>,
    i: nat)
    requires Verifies(hash, envelopeValid, m, records) && i < |records|
    requires forall i | i in positions :: i < |records| && records[i].body.Signed? && records[i].body.kind.Redactable()
    ensures var r := RedactedAt(records, positions)[i];
      && r == records[i].(body := r.body) && r.Input() == records[i].Input()
      && RecordValid(hash, r) && r.roomId == m.roomId && (r.body.Signed? ==> envelopeValid(r.body))
      && (r.body.Redacted? <==> i in positions || records[i].body.Redacted?)
  {
  }

  lemma RedactionKeepsChain(
    hash: HashInput -> string, envelopeValid: Body -> bool, m: Manifest, records: seq<Record>, positions: set<nat>)
    requires Verifies(hash, envelopeValid, m, records)
    requires forall i | i in positions :: i < |records| && records[i].body.Signed? && records[i].body.kind.Redactable()
    ensures Verifies(hash, envelopeValid, m, RedactedAt(records, positions))
  {
  }

  /**
   * Redacting any redactable records of a verified archive leaves it verified against the same manifest, and the
   * verifier then reports exactly those records, together with any redacted before, in order.
   */
  lemma RedactionStillVerifies(
    hash: HashInput -> string, envelopeValid: Body -> bool, m: Manifest, records: seq<Record>, positions: set<nat>)
    requires Verifies(hash, envelopeValid, m, records)
    requires forall i | i in positions :: i < |records| && records[i].body.Signed? && records[i].body.kind.Redactable()
    ensures var redacted := RedactedAt(records, positions);
      && Verifies(hash, envelopeValid, m, redacted)
      && (forall k :: k in RedactedSeqs(redacted) <==>
            1 <= k <= |records| && (k - 1 in positions || records[k - 1].body.Redacted?))
      && (forall i, j | 0 <= i < j < |RedactedSeqs(redacted)| :: RedactedSeqs(redacted)[i] < RedactedSeqs(redacted)[j])
  {
    var redacted := RedactedAt(records, positions);
    RedactionKeepsChain(hash, envelopeValid, m, records, positions);
    RedactedSeqsAre(hash, redacted, |redacted|);
    assert redacted[..|redacted|] == redacted;
    hide ChainValid, RedactedSeqs, RedactedAt;
    forall i | 0 <= i < |records|
      ensures redacted[i].body.Redacted? <==> i in positions || records[i].body.Redacted?
    {
      RedactedPosition(hash, envelopeValid, m, records, positions, i);
    }
  }
}
