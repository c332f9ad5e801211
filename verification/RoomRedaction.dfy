/**
 * What a redaction costs a replay: from then on it checks envelopes only. For each rule it no longer enforces, the
 * exact condition under which the replay guarantees it, and a history that breaks it.
 */
module RoomRedaction {
  import opened Common
  import opened RoomEvents
  import opened RoomReplay
  import RoomArchive

  /** After a redaction nothing but its own envelope decides whether a record is accepted. */
  lemma OnlyTheEnvelopeIsChecked(c: Catalog, s: State, e: Entry)
    requires !s.verified && e.record.body.Signed? && e.record.seqNo != 1
    ensures Stepped(c, s, e).Ok? <==> ShapeValid(e)
  {
    hide ShapeValid, AdvancesHead, Projected;
  }

  /** The replay takes this signed record next. */
  ghost predicate Accepts(c: Catalog, s: State, e: Entry) {
    e.record.body.Signed? && e.record.seqNo == |s.entries| + 1 && Stepped(c, s, e).Ok?
  }

  lemma AcceptedIsNumbered(c: Catalog, s: State, e: Entry)
    requires Numbered(s.entries) && Accepts(c, s, e)
    ensures Numbered(s.entries + [e])
  {
    hide Stepped;
  }

  // ---- Records that only a redaction lets in ------------------------------

  /** A text of the schema's form that is not this one. */
  function OtherHash(text: string): (other: string)
    ensures IsEventHash(other) && other != text
  {
    var a, b := seq(43, _ => 'A'), seq(43, _ => 'B');
    assert a[0] != b[0];
    if text == a then b else a
  }

  function Archived(
    hash: RoomArchive.HashInput -> string, room: string, seqNo: nat, preHash: Option<string>, body: RoomArchive.Body)
    : RoomArchive.Record
  {
    var blank := RoomArchive.Record(room, seqNo, preHash, "", 0, body);
    blank.(hash := hash(blank.Input()))
  }

  /** An event as its sender wrote it, on an archived record, that no role, state or payload check admits. */
  function Written(
    r: RoomArchive.Record, baseSeq: Option<nat>, baseHash: Option<string>, declaration: Option<Declaration>): Entry
  {
    Entry(r, Some(r.roomId), baseSeq, baseHash, declaration, [], "", true, false)
  }

  /** The next record of this archive, based on its genesis. */
  function Unadmitted(
    hash: RoomArchive.HashInput -> string, entries: seq<Entry>, kind: EventType, baseHash: string,
    declaration: Option<Declaration>): Entry
    requires entries != []
  {
    var last := entries[|entries| - 1].record;
    var body := RoomArchive.Signed(OtherHash(""), kind, "");
    Written(Archived(hash, last.roomId, |entries| + 1, Some(last.hash), body), Some(1), Some(baseHash), declaration)
  }

  lemma UnadmittedIsAccepted(
    c: Catalog, hash: RoomArchive.HashInput -> string, s: State, kind: EventType, baseHash: string,
    declaration: Option<Declaration>)
    requires !s.verified && s.entries != [] && IsEventHash(baseHash)
    requires !kind.RoomCreate? && !kind.RoomJoinRequest? && (kind.TypeDefine? ==> declaration.Some?)
    ensures Accepts(c, s, Unadmitted(hash, s.entries, kind, baseHash, declaration))
  {
    hide IsEventHash;
    OnlyTheEnvelopeIsChecked(c, s, Unadmitted(hash, s.entries, kind, baseHash, declaration));
    hide Stepped;
  }

  // ---- Anchors ------------------------------------------------------------

  lemma VerifiedStepAnchors(c: Catalog, s: State, e: Entry)
    requires HeadExact(s) && Numbered(s.entries) && s.entries != [] && s.verified && Accepts(c, s, e)
    ensures AnchoredAt(s.entries + [e], |s.entries|)
    ensures RequiresHead(e.Type(), s.types) ==> s.headSeq <= e.baseSeq.value
    ensures e.Type().TypeDefine? || Stepped(c, s, e).value.types == s.types
  {
    AcceptedIsNumbered(c, s, e);
    hide BaseChecked, RequiresHead, AdvancesHead, Projected, Applied, Declared, ShapeValid;
    AnchorOfAccepted(s, e);
  }

  /** A message that gives the genesis a hash it does not have. */
  function UnanchoredMessage(hash: RoomArchive.HashInput -> string, entries: seq<Entry>): Entry
    requires entries != []
  {
    Unadmitted(hash, entries, MessageCreate, OtherHash(entries[0].record.hash), None)
  }

  /** The replay guarantees that its next record is anchored exactly when its state is verified. */
  lemma AnchorsGuaranteedIff(c: Catalog, hash: RoomArchive.HashInput -> string, s: State)
    requires HeadExact(s) && Numbered(s.entries) && s.entries != []
    ensures (forall e | Accepts(c, s, e) :: AnchoredAt(s.entries + [e], |s.entries|)) <==> s.verified
  {
    hide Accepts, HeadExact, Numbered, AnchoredAt;
    if s.verified {
      forall e | Accepts(c, s, e)
        ensures AnchoredAt(s.entries + [e], |s.entries|)
      {
        VerifiedStepAnchors(c, s, e);
      }
    } else {
      var e := UnanchoredMessage(hash, s.entries);
      UnadmittedIsAccepted(c, hash, s, MessageCreate, OtherHash(s.entries[0].record.hash), None);
      WrongBaseIsUnanchored(s.entries, e);
    }
  }

  lemma WrongBaseIsUnanchored(entries: seq<Entry>, e: Entry)
    requires entries != [] && e.baseSeq == Some(1) && e.baseHash != Some(entries[0].record.hash)
    ensures !AnchoredAt(entries + [e], |entries|)
  {
    assert (entries + [e])[0] == entries[0];
  }

  // ---- Freshness ----------------------------------------------------------

  /** Behind a base at or after the head, nothing that advances it was missed. */
  lemma BasedOnTheHeadIsFresh(s: State, e: Entry)
    requires HeadExact(s)
    requires RequiresHead(e.Type(), s.types) ==> e.baseSeq.Some? && s.headSeq <= e.baseSeq.value
    ensures FreshAt(s.entries + [e], s.types, |s.entries|)
  {
    HeadInRange(s.entries, s.types);
    hide RequiresHead, AdvancesHead, HeadOf, HashAt;
    assert forall i | 0 <= i < |s.entries| :: (s.entries + [e])[i] == s.entries[i];
  }

  lemma TypeDefinitionsAreFresh(s: State, e: Entry, types: Types)
    requires e.Type().TypeDefine?
    ensures FreshAt(s.entries + [e], types, |s.entries|)
  {
  }

  lemma AcceptedIsFresh(c: Catalog, s: State, e: Entry)
    requires HeadExact(s) && Numbered(s.entries) && s.entries != [] && Accepts(c, s, e)
    requires s.verified || s.headSeq <= 1
    ensures FreshAt(s.entries + [e], Stepped(c, s, e).value.types, |s.entries|)
  {
    if e.Type().TypeDefine? {
      TypeDefinitionsAreFresh(s, e, Stepped(c, s, e).value.types);
    } else {
      if s.verified {
        VerifiedStepAnchors(c, s, e);
      } else {
        OnlyTheEnvelopeIsChecked(c, s, e);
        UnverifiedStepKeepsTypes(c, s, e);
      }
      hide Stepped, HeadExact, AdvancesHead;
      BasedOnTheHeadIsFresh(s, e);
    }
  }

  lemma UnverifiedStepKeepsTypes(c: Catalog, s: State, e: Entry)
    requires !s.verified && Stepped(c, s, e).Ok? && !e.Type().TypeDefine?
    ensures Stepped(c, s, e).value.types == s.types
  {
    hide Checked, AdvancesHead;
  }

  /** A message based on the genesis missed the head, if the head has moved since. */
  lemma MessageOnTheGenesisIsStale(s: State, e: Entry)
    requires HeadExact(s) && s.headSeq > 1 && e.Type().MessageCreate? && e.baseSeq == Some(1)
    ensures !FreshAt(s.entries + [e], s.types, |s.entries|)
  {
    HeadAdvances(s.entries, s.types);
    var i := s.headSeq - 1;
    assert (s.entries + [e])[i] == s.entries[i];
  }

  /**
   * The replay guarantees that its next record is fresh exactly when its state is verified, or no record but the
   * genesis has advanced the head.
   */
  lemma FreshnessGuaranteedIff(c: Catalog, hash: RoomArchive.HashInput -> string, s: State)
    requires HeadExact(s) && Numbered(s.entries) && s.entries != []
    ensures (forall e | Accepts(c, s, e) :: FreshAt(s.entries + [e], Stepped(c, s, e).value.types, |s.entries|))
              <==> s.verified || s.headSeq <= 1
  {
    hide Stepped, HeadExact, Numbered, FreshAt;
    if s.verified || s.headSeq <= 1 {
      forall e | Accepts(c, s, e)
        ensures FreshAt(s.entries + [e], Stepped(c, s, e).value.types, |s.entries|)
      {
        AcceptedIsFresh(c, s, e);
      }
    } else {
      var e := UnanchoredMessage(hash, s.entries);
      UnadmittedIsAccepted(c, hash, s, MessageCreate, OtherHash(s.entries[0].record.hash), None);
      UnverifiedStepKeepsTypes(c, s, e);
      MessageOnTheGenesisIsStale(s, e);
    }
  }

  // ---- Kinds --------------------------------------------------------------

  /** An inline definition that gives a type the room already has another kind. */
  predicate ChangesKind(types: Types, e: Entry) {
    && e.Type().TypeDefine? && e.declaration.Some? && e.declaration.value.Def?
    && var def := e.declaration.value.def;
       def.name in types && types[def.name].kind != def.kind
  }

  /** Without a redaction a type keeps its kind always; after one, unless the record is such a definition. */
  lemma StepKeepsKindsIff(c: Catalog, s: State, e: Entry)
    requires HeadExact(s) && s.entries != [] && Numbered(s.entries + [e])
    requires e.record.body.Signed? && Stepped(c, s, e).Ok?
    ensures KeepsKinds(s.types, Stepped(c, s, e).value.types) <==> s.verified || !ChangesKind(s.types, e)
  {
    NumberedSnoc(s.entries, e);
    if s.verified {
      StepKeepsKinds(c, s, e);
    } else {
      hide Checked, AdvancesHead;
      if ChangesKind(s.types, e) {
        assert e.declaration.value.def.name in s.types;
      }
    }
  }

  /** The types of a room are listed under their own names. */
  ghost predicate Named(types: Types) {
    forall name | name in types :: types[name].name == name
  }

  /** The replay guarantees that its next record keeps every kind exactly when its state is verified or has no types. */
  lemma KindsGuaranteedIff(c: Catalog, hash: RoomArchive.HashInput -> string, s: State)
    requires HeadExact(s) && Numbered(s.entries) && s.entries != [] && Named(s.types)
    ensures (forall e | Accepts(c, s, e) :: KeepsKinds(s.types, Stepped(c, s, e).value.types))
              <==> s.verified || s.types == map[]
  {
    hide HeadExact, Numbered, KeepsKinds;
    if s.verified || s.types == map[] {
      forall e | Accepts(c, s, e)
        ensures KeepsKinds(s.types, Stepped(c, s, e).value.types)
      {
        AcceptedIsNumbered(c, s, e);
        StepKeepsKindsIff(c, s, e);
      }
    } else {
      var e := RedefinitionOf(hash, s);
      UnadmittedIsAccepted(c, hash, s, TypeDefine, OtherHash(""), e.declaration);
      AcceptedIsNumbered(c, s, e);
      StepKeepsKindsIff(c, s, e);
    }
  }

  /** Some type of the room, defined again with another kind. */
  ghost function RedefinitionOf(hash: RoomArchive.HashInput -> string, s: State): (e: Entry)
    requires s.entries != [] && s.types != map[] && Named(s.types)
    ensures ChangesKind(s.types, e)
  {
    assert s.types.Keys != {};
    var name :| name in s.types.Keys;
    var def := s.types[name];
    var changed := def.(kind := if def.kind.MessageKind? then ControlKind else MessageKind);
    Unadmitted(hash, s.entries, TypeDefine, OtherHash(""), Some(Def(changed)))
  }

  // ---- Whole histories ----------------------------------------------------

  /** A signed record with which the history still replays. */
  ghost predicate Extends(
    c: Catalog, hash: RoomArchive.HashInput -> string, host: string, entries: seq<Entry>, e: Entry)
  {
    e.record.body.Signed? && Replayable(hash, host, entries + [e]) && Folded(c, entries + [e]).Ok?
  }

  /** What a record must be for the chain to go on with it. */
  predicate Chains(hash: RoomArchive.HashInput -> string, entries: seq<Entry>, e: Entry)
    requires entries != []
  {
    var last := entries[|entries| - 1].record;
    && RoomArchive.RecordValid(hash, e.record) && RoomArchive.Linked(last, e.record)
    && e.record.roomId == entries[0].record.roomId
  }

  lemma RecordsOfSnoc(entries: seq<Entry>, e: Entry)
    ensures RecordsOf(entries + [e]) == RecordsOf(entries) + [e.record]
  {
  }

  lemma ChainsIff(hash: RoomArchive.HashInput -> string, host: string, entries: seq<Entry>, e: Entry)
    requires Replayable(hash, host, entries)
    ensures Replayable(hash, host, entries + [e]) <==> Chains(hash, entries, e)
  {
    var n := |entries|;
    var records := RecordsOf(entries + [e]);
    RecordsOfSnoc(entries, e);
    assert records[..n] == RecordsOf(entries) && records[..n + 1] == records;
    assert entries + [e] != [] && (entries + [e])[0] == entries[0] && (entries + [e])[n] == e;
    assert records[n] in records && records[n - 1] == entries[n - 1].record;
    if Chains(hash, entries, e) {
      RoomArchive.ChainGrows(hash, records, n);
    }
    if RoomArchive.ChainValid(hash, records) {
      assert RoomArchive.Linked(records[n - 1], records[n]);
    }
  }

  /** The state a replayed history leaves. */
  lemma ReplayedState(c: Catalog, hash: RoomArchive.HashInput -> string, host: string, entries: seq<Entry>)
    requires Replayable(hash, host, entries) && Folded(c, entries).Ok?
    ensures var s := Folded(c, entries).value;
      && HeadExact(s) && Numbered(s.entries) && s.entries == entries && entries != [] && Named(s.types)
      && (s.verified <==> Unredacted(entries, |entries|))
  {
    ReplayableIsNumbered(hash, host, entries);
    HeadIsRecomputable(c, entries);
    FoldedEntries(c, entries);
    VerifiedIff(c, entries);
    FoldIsNamed(c, entries);
  }

  lemma ExtendsIff(c: Catalog, hash: RoomArchive.HashInput -> string, host: string, entries: seq<Entry>, e: Entry)
    requires Replayable(hash, host, entries) && Folded(c, entries).Ok?
    ensures Extends(c, hash, host, entries, e) <==>
              Chains(hash, entries, e) && Accepts(c, Folded(c, entries).value, e)
    ensures Extends(c, hash, host, entries, e) ==>
              Folded(c, entries + [e]) == Stepped(c, Folded(c, entries).value, e)
  {
    ReplayedState(c, hash, host, entries);
    ChainsIff(hash, host, entries, e);
    hide Replayable, Stepped, HeadExact;
    assert (entries + [e])[..|entries|] == entries;
    if Chains(hash, entries, e) {
      var last := entries[|entries| - 1];
      assert last.record.seqNo == |entries|;
    }
  }

  /** After a replayed history, its next record is certain to be anchored exactly when nothing is redacted. */
  lemma AnchorsHoldIff(c: Catalog, hash: RoomArchive.HashInput -> string, host: string, entries: seq<Entry>)
    requires Replayable(hash, host, entries) && Folded(c, entries).Ok?
    ensures (forall e | Extends(c, hash, host, entries, e) :: AnchoredAt(entries + [e], |entries|))
              <==> Unredacted(entries, |entries|)
  {
    var s := Folded(c, entries).value;
    ReplayedState(c, hash, host, entries);
    hide Replayable, Folded, HeadExact, Numbered, AnchoredAt, Unredacted, Extends, Accepts;
    forall e | Extends(c, hash, host, entries, e) && s.verified
      ensures AnchoredAt(entries + [e], |entries|)
    {
      ExtendsIff(c, hash, host, entries, e);
      VerifiedStepAnchors(c, s, e);
    }
    if !s.verified {
      var e := UnanchoredMessage(hash, entries);
      UnadmittedIsAccepted(c, hash, s, MessageCreate, OtherHash(entries[0].record.hash), None);
      UnadmittedChains(c, hash, host, entries, e);
      WrongBaseIsUnanchored(entries, e);
    }
  }

  /** Any of those records goes on the chain of the history it was made for. */
  lemma UnadmittedChains(
    c: Catalog, hash: RoomArchive.HashInput -> string, host: string, entries: seq<Entry>, e: Entry)
    requires Replayable(hash, host, entries) && Folded(c, entries).Ok? && Accepts(c, Folded(c, entries).value, e)
    requires e == Unadmitted(hash, entries, e.Type(), e.baseHash.GetOr(""), e.declaration)
    ensures Extends(c, hash, host, entries, e)
  {
    ReplayedState(c, hash, host, entries);
    ExtendsIff(c, hash, host, entries, e);
    hide Folded, HeadExact, Accepts, Extends;
    assert entries[|entries| - 1].record.seqNo == |entries|;
    assert e.record.Input() == e.record.(hash := "").Input();
  }

  /**
   * It is certain to be fresh exactly when nothing is redacted, or no record but the genesis has advanced the head:
   * then there is nothing to have missed.
   */
  lemma FreshnessHoldsIff(c: Catalog, hash: RoomArchive.HashInput -> string, host: string, entries: seq<Entry>)
    requires Replayable(hash, host, entries) && Folded(c, entries).Ok?
    ensures (forall e | Extends(c, hash, host, entries, e) ::
               FreshAt(entries + [e], Folded(c, entries + [e]).value.types, |entries|))
              <==> Unredacted(entries, |entries|) || HeadOf(entries, Folded(c, entries).value.types) <= 1
  {
    var s := Folded(c, entries).value;
    ReplayedState(c, hash, host, entries);
    assert s.headSeq == HeadOf(entries, s.types);
    hide Replayable, Folded, HeadExact, Numbered, FreshAt, Unredacted, Extends, Accepts, Stepped;
    forall e | Extends(c, hash, host, entries, e) && (s.verified || s.headSeq <= 1)
      ensures FreshAt(entries + [e], Folded(c, entries + [e]).value.types, |entries|)
    {
      ExtendsIff(c, hash, host, entries, e);
      AcceptedIsFresh(c, s, e);
    }
    if !s.verified && s.headSeq > 1 {
      var e := UnanchoredMessage(hash, entries);
      UnadmittedIsAccepted(c, hash, s, MessageCreate, OtherHash(entries[0].record.hash), None);
      UnadmittedChains(c, hash, host, entries, e);
      ExtendsIff(c, hash, host, entries, e);
      AcceptedSteps(c, s, e);
      UnverifiedStepKeepsTypes(c, s, e);
      MessageOnTheGenesisIsStale(s, e);
    }
  }

  lemma AcceptedSteps(c: Catalog, s: State, e: Entry)
    requires Accepts(c, s, e)
    ensures Stepped(c, s, e).Ok?
  {
  }

  /** It is certain to keep every kind exactly when nothing is redacted or the room has no types. */
  lemma KindsHoldIff(c: Catalog, hash: RoomArchive.HashInput -> string, host: string, entries: seq<Entry>)
    requires Replayable(hash, host, entries) && Folded(c, entries).Ok?
    ensures (forall e | Extends(c, hash, host, entries, e) ::
               KeepsKinds(Folded(c, entries).value.types, Folded(c, entries + [e]).value.types))
              <==> Unredacted(entries, |entries|) || Folded(c, entries).value.types == map[]
  {
    var s := Folded(c, entries).value;
    ReplayedState(c, hash, host, entries);
    hide Replayable, Folded, HeadExact, Numbered, KeepsKinds, Unredacted, Extends, Accepts, Stepped;
    forall e | Extends(c, hash, host, entries, e) && (s.verified || s.types == map[])
      ensures KeepsKinds(s.types, Folded(c, entries + [e]).value.types)
    {
      ExtendsIff(c, hash, host, entries, e);
      AcceptedKeepsKindsIff(c, s, e);
    }
    if !s.verified && s.types != map[] {
      var e := RedefinitionOf(hash, s);
      UnadmittedIsAccepted(c, hash, s, TypeDefine, OtherHash(""), e.declaration);
      UnadmittedChains(c, hash, host, entries, e);
      ExtendsIff(c, hash, host, entries, e);
      AcceptedKeepsKindsIff(c, s, e);
    }
  }

  lemma AcceptedKeepsKindsIff(c: Catalog, s: State, e: Entry)
    requires HeadExact(s) && Numbered(s.entries) && s.entries != [] && Accepts(c, s, e)
    ensures Stepped(c, s, e).Ok?
    ensures KeepsKinds(s.types, Stepped(c, s, e).value.types) <==> s.verified || !ChangesKind(s.types, e)
  {
    AcceptedIsNumbered(c, s, e);
    StepKeepsKindsIff(c, s, e);
  }

  // ---- Histories that break the rules -------------------------------------

  /** The archive of these bodies, chained from the genesis. */
  function Chain(hash: RoomArchive.HashInput -> string, room: string, bodies: seq<RoomArchive.Body>)
    : (records: seq<RoomArchive.Record>)
    ensures |records| == |bodies|
  {
    if bodies == [] then []
    else
      var n := |bodies| - 1;
      var before := Chain(hash, room, bodies[..n]);
      before + [Archived(hash, room, n + 1, if n == 0 then None else Some(before[n - 1].hash), bodies[n])]
  }

  predicate RedactionsAllowed(bodies: seq<RoomArchive.Body>) {
    forall b | b in bodies :: b.Redacted? ==> b.flagged && b.kind.Redactable()
  }

  lemma {:induction false} ChainIsValid(
    hash: RoomArchive.HashInput -> string, room: string, bodies: seq<RoomArchive.Body>)
    requires RedactionsAllowed(bodies)
    ensures RoomArchive.ChainValid(hash, Chain(hash, room, bodies))
    ensures forall i | 0 <= i < |bodies| ::
              var r := Chain(hash, room, bodies)[i]; r.body == bodies[i] && r.roomId == room && r.seqNo == i + 1
  {
    if bodies != [] {
      var n := |bodies| - 1;
      var records := Chain(hash, room, bodies);
      ChainIsValid(hash, room, bodies[..n]);
      assert records[..n] == Chain(hash, room, bodies[..n]) && records[..n + 1] == records;
      assert bodies[n] in bodies;
      RoomArchive.ChainGrows(hash, records, n);
    }
  }

  /** Record hashes have the form of the schema, as any digest the room uses does. */
  ghost predicate GivesEventHashes(hash: RoomArchive.HashInput -> string) {
    forall input: RoomArchive.HashInput :: IsEventHash(hash(input))
  }

  function GenesisEntry(r: RoomArchive.Record, host: string, opening: seq<Declaration>): Entry {
    Entry(r, None, None, None, None, opening, host, true, true)
  }

  lemma FoldStep(c: Catalog, entries: seq<Entry>, n: nat)
    requires n < |entries|
    ensures Folded(c, entries[..0]) == Ok(START)
    ensures var before := Folded(c, entries[..n]);
      Folded(c, entries[..n + 1]) == if before.Err? then before else Stepped(c, before.value, entries[n])
  {
    hide Stepped;
    assert entries[..n + 1][..n] == entries[..n];
  }

  /** A genesis that defines a type, a message lost to redaction, and the type again with another kind. */
  predicate KindChangeBodies(bodies: seq<RoomArchive.Body>) {
    && |bodies| == 3 && RedactionsAllowed(bodies)
    && bodies[0].Signed? && bodies[0].kind.RoomCreate? && bodies[1].Redacted?
    && bodies[2].Signed? && bodies[2].kind.TypeDefine?
  }

  function KindChange(
    hash: RoomArchive.HashInput -> string, host: string, room: string, bodies: seq<RoomArchive.Body>,
    def: TypeDef, kind: Kind): seq<Entry>
    requires KindChangeBodies(bodies)
  {
    var r := Chain(hash, room, bodies);
    [GenesisEntry(r[0], host, [Def(def)]), Written(r[1], None, None, None),
     Written(r[2], Some(1), Some(r[0].hash), Some(Def(def.(kind := kind))))]
  }

  lemma OpeningDefines(c: Catalog, def: TypeDef)
    requires c.defValid(def)
    ensures Declared(c, map[], [Def(def)], []) == Ok(map[def.name := def])
  {
    assert [] + [def.name] == [def.name];
  }

  lemma KindChangeReplays(
    hash: RoomArchive.HashInput -> string, host: string, room: string, bodies: seq<RoomArchive.Body>,
    def: TypeDef, kind: Kind)
    requires GivesEventHashes(hash) && KindChangeBodies(bodies)
    ensures var entries := KindChange(hash, host, room, bodies, def, kind);
      && Replayable(hash, host, entries) && |entries| == 3
      && entries[0].record.body.Signed? && entries[0].record.seqNo == 1 && entries[0].opening == [Def(def)]
      && entries[1].record.body.Redacted? && entries[2].record.body.Signed? && entries[2].record.seqNo == 3
      && ShapeValid(entries[0]) && ShapeValid(entries[2]) && entries[2].Type().TypeDefine?
      && entries[2].declaration == Some(Def(def.(kind := kind)))
  {
    ChainIsValid(hash, room, bodies);
    var r := Chain(hash, room, bodies);
    assert r[0].hash == hash(r[0].Input()) by {
      assert r[0] in r;
    }
    hide Chain, RoomArchive.ChainValid, IsEventHash;
    assert RecordsOf(KindChange(hash, host, room, bodies, def, kind)) == r;
  }

  /** Such a history replays, whatever the definition and the kinds, and changes the kind of its type. */
  lemma KindChangesBehindARedaction(
    c: Catalog, hash: RoomArchive.HashInput -> string, host: string, room: string, bodies: seq<RoomArchive.Body>,
    def: TypeDef, kind: Kind)
    requires GivesEventHashes(hash) && KindChangeBodies(bodies) && c.defValid(def) && kind != def.kind
    ensures var entries := KindChange(hash, host, room, bodies, def, kind);
      && Replayable(hash, host, entries) && Folded(c, entries).Ok? && Folded(c, entries[..2]).Ok?
      && ChangesKind(Folded(c, entries[..2]).value.types, entries[2])
      && !KeepsKinds(Folded(c, entries[..2]).value.types, Folded(c, entries).value.types)
  {
    KindChangeReplays(hash, host, room, bodies, def, kind);
    var entries := KindChange(hash, host, room, bodies, def, kind);
    hide KindChange, Replayable, ShapeValid, Folded;
    OpeningDefines(c, def);
    FoldStep(c, entries, 0);
    FoldStep(c, entries, 1);
    FoldStep(c, entries, 2);
    assert entries[..3] == entries;
  }

  /** A genesis, an update of the room, a message lost to redaction, and another message. */
  predicate StaleMessageBodies(bodies: seq<RoomArchive.Body>) {
    && |bodies| == 4 && RedactionsAllowed(bodies)
    && bodies[0].Signed? && bodies[0].kind.RoomCreate? && bodies[1].Signed? && bodies[1].kind.RoomUpdate?
    && bodies[2].Redacted? && bodies[3].Signed? && bodies[3].kind.MessageCreate?
  }

  /** The last message is based on the genesis, before the update, under the hash `other`. */
  function StaleMessage(
    hash: RoomArchive.HashInput -> string, host: string, room: string, bodies: seq<RoomArchive.Body>,
    other: string): seq<Entry>
    requires StaleMessageBodies(bodies)
  {
    var r := Chain(hash, room, bodies);
    [GenesisEntry(r[0], host, []), Written(r[1], Some(1), Some(r[0].hash), None).(admitted := true),
     Written(r[2], None, None, None), Written(r[3], Some(1), Some(other), None)]
  }

  lemma GenesisStep(c: Catalog, e: Entry)
    requires e.record.seqNo == 1 && e.record.body.Signed? && e.Type().RoomCreate? && ShapeValid(e) && e.opening == []
    ensures Stepped(c, START, e) == Ok(State(map[], map[], true, 1, Some(e.record.hash), [e]))
  {
    assert START.entries + [e] == [e];
  }

  lemma UpdateStep(c: Catalog, s: State, e: Entry)
    requires s.verified && s.types == s.registry && s.headSeq == 1 && e.record.seqNo == 2
    requires e.record.body.Signed? && e.Type().RoomUpdate? && ShapeValid(e) && e.admitted
    requires e.baseSeq == Some(1) && e.baseHash == s.headHash
    ensures Stepped(c, s, e) == Ok(s.(headSeq := 2, headHash := Some(e.record.hash), entries := s.entries + [e]))
  {
    hide HashAt;
  }

  lemma RedactedStep(c: Catalog, s: State, e: Entry)
    requires e.record.body.Redacted?
    ensures Stepped(c, s, e).Ok? && !Stepped(c, s, e).value.verified
  {
  }

  lemma StaleMessageReplays(
    hash: RoomArchive.HashInput -> string, host: string, room: string, bodies: seq<RoomArchive.Body>, other: string)
    requires GivesEventHashes(hash) && StaleMessageBodies(bodies) && IsEventHash(other)
    ensures var entries := StaleMessage(hash, host, room, bodies, other);
      && Replayable(hash, host, entries) && |entries| == 4
      && (forall i | 0 <= i < 4 ::
            entries[i].record.seqNo == i + 1 && (entries[i].record.body.Signed? ==> ShapeValid(entries[i])))
      && (forall i | 0 <= i < 4 :: entries[i].record.body == bodies[i]) && entries[0].opening == []
      && entries[1].admitted && entries[1].baseSeq == Some(1) && entries[1].baseHash == Some(entries[0].record.hash)
      && entries[3].baseSeq == Some(1) && entries[3].baseHash == Some(other)
  {
    ChainIsValid(hash, room, bodies);
    var r := Chain(hash, room, bodies);
    assert r[0].hash == hash(r[0].Input()) by {
      assert r[0] in r;
    }
    hide Chain, RoomArchive.ChainValid, IsEventHash;
    assert RecordsOf(StaleMessage(hash, host, room, bodies, other)) == r;
  }

  /** Such a history replays with a message that is neither anchored nor fresh. */
  lemma StaleMessageBehindARedaction(
    c: Catalog, hash: RoomArchive.HashInput -> string, host: string, room: string, bodies: seq<RoomArchive.Body>,
    other: string)
    requires GivesEventHashes(hash) && StaleMessageBodies(bodies)
    requires IsEventHash(other) && other != Chain(hash, room, bodies)[0].hash
    ensures var entries := StaleMessage(hash, host, room, bodies, other);
      && Replayable(hash, host, entries) && Folded(c, entries).Ok?
      && !AnchoredAt(entries, 3) && !FreshAt(entries, Folded(c, entries).value.types, 3)
  {
    StaleMessageReplays(hash, host, room, bodies, other);
    var entries := StaleMessage(hash, host, room, bodies, other);
    assert entries[0].record.hash == Chain(hash, room, bodies)[0].hash;
    hide StaleMessage, Replayable, Chain, Folded, Stepped, ShapeValid;
    FoldStep(c, entries, 0);
    GenesisStep(c, entries[0]);
    FoldStep(c, entries, 1);
    UpdateStep(c, Folded(c, entries[..1]).value, entries[1]);
    FoldStep(c, entries, 2);
    RedactedStep(c, Folded(c, entries[..2]).value, entries[2]);
    FoldStep(c, entries, 3);
    OnlyTheEnvelopeIsChecked(c, Folded(c, entries[..3]).value, entries[3]);
    assert entries[..4] == entries;
    hide AnchoredAt, FreshAt;
    StaleMessageMissesTheUpdate(entries, Folded(c, entries).value.types);
  }

  lemma StaleMessageMissesTheUpdate(entries: seq<Entry>, types: Types)
    requires |entries| == 4 && entries[1].Type().RoomUpdate? && entries[3].Type().MessageCreate?
    requires entries[3].baseSeq == Some(1) && entries[3].baseHash != Some(entries[0].record.hash)
    ensures !AnchoredAt(entries, 3) && !FreshAt(entries, types, 3)
  {
    assert AdvancesHead(entries[1].Type(), types);
  }

  // ---- Types under their own names ----------------------------------------

  lemma {:induction false} DefiningIsNamed(c: Catalog, types: Types, defs: seq<TypeDef>)
    requires Named(types) && DefinedAll(c, types, defs).Ok?
    ensures Named(DefinedAll(c, types, defs).value)
    decreases |defs|
  {
    if defs != [] {
      DefiningIsNamed(c, Defined(c, types, defs[0]).value, defs[1..]);
    }
  }

  lemma DeclarationIsNamed(c: Catalog, types: Types, d: Declaration)
    requires Named(types) && Applied(c, types, d).Ok?
    ensures Named(Applied(c, types, d).value.0)
  {
    if d.Import? {
      DefiningIsNamed(c, types, Selected(d, c.packs[d.pack]));
    }
  }

  lemma {:induction false} OpeningIsNamed(c: Catalog, types: Types, opening: seq<Declaration>, names: seq<string>)
    requires Named(types) && Declared(c, types, opening, names).Ok?
    ensures Named(Declared(c, types, opening, names).value)
    decreases |opening|
  {
    hide Applied, DistinctStrings;
    if opening != [] {
      var next := Applied(c, types, opening[0]).value;
      DeclarationIsNamed(c, types, opening[0]);
      OpeningIsNamed(c, next.0, opening[1..], names + next.1);
    }
  }

  lemma StepIsNamed(c: Catalog, s: State, e: Entry)
    requires Named(s.types) && Named(s.registry) && Stepped(c, s, e).Ok?
    ensures Named(Stepped(c, s, e).value.types) && Named(Stepped(c, s, e).value.registry)
  {
    hide Applied, Declared, BaseChecked, Permitted, ShapeValid, AdvancesHead;
    if e.record.body.Signed? {
      if e.record.seqNo == 1 {
        OpeningIsNamed(c, map[], e.opening, []);
      } else if e.declaration.Some? && Applied(c, s.registry, e.declaration.value).Ok? {
        DeclarationIsNamed(c, s.registry, e.declaration.value);
      }
    }
  }

  lemma {:induction false} FoldIsNamed(c: Catalog, entries: seq<Entry>)
    requires Folded(c, entries).Ok?
    ensures Named(Folded(c, entries).value.types) && Named(Folded(c, entries).value.registry)
  {
    hide Stepped, Named;
    if entries == [] {
      assert Named(map[]) by {
        NothingIsNamed();
      }
    } else {
      var n := |entries| - 1;
      FoldIsNamed(c, entries[..n]);
      StepIsNamed(c, Folded(c, entries[..n]).value, entries[n]);
    }
  }

  lemma NothingIsNamed()
    ensures Named(map[])
  {
  }
}
