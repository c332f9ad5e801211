/**
 * The room head and its freshness rules over whole histories: the type registry, the host's base check, and the
 * replay that folds an archived history into a registry, a head, and a verdict.
 */
module RoomReplay {
  import opened Common
  import opened RoomEvents
  import RoomArchive

  datatype Kind = MessageKind | SignalKind | ControlKind

  datatype Status = Active | Deprecated | Disabled

  datatype TypeDef = TypeDef(name: string, kind: Kind, status: Status, content: string)

  type Types = map<string, TypeDef>

  datatype Override = Override(status: Option<Status>, content: Option<string>)

  datatype Declaration =
    | Def(def: TypeDef)
    | Import(pack: string, subset: Option<seq<string>>, overrides: map<string, Override>)

  /** Shape rules for definitions and pack references, and the packs a room can import. */
  datatype Catalog = Catalog(
    defValid: TypeDef -> bool, referenceValid: string -> bool, packs: map<string, seq<TypeDef>>)

  datatype Error =
    | InvalidType | TypeConflict | PackUnavailable | InvalidRecord | BaseMismatch | HeadMismatch | NotPermitted

  // ---- The type registry --------------------------------------------------

  function Defined(c: Catalog, types: Types, def: TypeDef): Result<Types, Error> {
    if !c.defValid(def) then Err(InvalidType)
    else if def.name in types && types[def.name].kind != def.kind then Err(TypeConflict)
    else Ok(types[def.name := def])
  }

  function DefinedAll(c: Catalog, types: Types, defs: seq<TypeDef>): Result<Types, Error>
    decreases |defs|
  {
    if defs == [] then Ok(types)
    else
      var next := Defined(c, types, defs[0]);
      if next.Err? then next else DefinedAll(c, next.value, defs[1..])
  }

  function Names(defs: seq<TypeDef>): seq<string> {
    seq(|defs|, i requires 0 <= i < |defs| => defs[i].name)
  }

  function Overridden(def: TypeDef, overrides: map<string, Override>): TypeDef {
    if def.name !in overrides then def
    else def.(status := overrides[def.name].status.GetOr(def.status),
        content := overrides[def.name].content.GetOr(def.content))
  }

  predicate Chosen(d: Declaration, def: TypeDef)
    requires d.Import?
  {
    d.subset.Some? ==> def.name in d.subset.value
  }

  /** The definitions an import brings in, in pack order, with its overrides applied. */
  function Selected(d: Declaration, pack: seq<TypeDef>): seq<TypeDef>
    requires d.Import?
  {
    if pack == [] then []
    else (if Chosen(d, pack[0]) then [Overridden(pack[0], d.overrides)] else []) + Selected(d, pack[1..])
  }

  predicate DistinctStrings(names: seq<string>) {
    forall i, j | 0 <= i < j < |names| :: names[i] != names[j]
  }

  /** No pack defines a type twice; a subset names only its types; an override only types that are imported. */
  predicate ImportConsistent(d: Declaration, pack: seq<TypeDef>)
    requires d.Import?
  {
    && DistinctStrings(Names(pack))
    && (d.subset.Some? ==> forall name | name in d.subset.value :: name in Names(pack))
    && forall name | name in d.overrides ::
         if d.subset.Some? then name in d.subset.value else name in Names(pack)
  }

  /** The shape of an import on its own: a well-formed reference, and no empty or repeating subset. */
  function ImportRefusal(c: Catalog, d: Declaration): Option<Error>
    requires d.Import?
  {
    if !c.referenceValid(d.pack) || d.subset == Some([]) then Some(InvalidType)
    else if d.subset.Some? && !DistinctStrings(d.subset.value) then Some(TypeConflict)
    else None
  }

  /** One declaration: the new registry and the names declared; on an error the registry is untouched. */
  function Applied(c: Catalog, types: Types, d: Declaration): Result<(Types, seq<string>), Error> {
    match d
    case Def(def) =>
      var next := Defined(c, types, def);
      if next.Err? then Err(next.error) else Ok((next.value, [def.name]))
    case Import(name, _, _) =>
      if ImportRefusal(c, d).Some? then Err(ImportRefusal(c, d).value)
      else if name !in c.packs then Err(PackUnavailable)
      else if !ImportConsistent(d, c.packs[name]) then Err(TypeConflict)
      else
        var defs := Selected(d, c.packs[name]);
        var next := DefinedAll(c, types, defs);
        if next.Err? then Err(next.error) else Ok((next.value, Names(defs)))
  }

  /** The room's opening declarations, which may not name a type twice. */
  function Declared(c: Catalog, types: Types, declarations: seq<Declaration>, names: seq<string>): Result<Types, Error>
    decreases |declarations|
  {
    if declarations == [] then Ok(types)
    else
      var next := Applied(c, types, declarations[0]);
      if next.Err? then Err(next.error)
      else if !DistinctStrings(names + next.value.1) then Err(TypeConflict)
      else Declared(c, next.value.0, declarations[1..], names + next.value.1)
  }

  class TypeRegistry {
    const catalog: Catalog
    var types: Types

    constructor (catalog: Catalog)
      ensures this.catalog == catalog && types == map[]
    {
      this.catalog := catalog;
      types := map[];
    }

    method Define(def: TypeDef) returns (r: Result<(), Error>)
      modifies this
      ensures var next := Defined(catalog, old(types), def);
        if next.Ok? then r == Ok(()) && types == next.value else r == Err(next.error) && types == old(types)
    {
      if !catalog.defValid(def) {
        return Err(InvalidType);
      }
      if def.name in types && types[def.name].kind != def.kind {
        return Err(TypeConflict);
      }
      types := types[def.name := def];
      r := Ok(());
    }

    method Apply(d: Declaration) returns (r: Result<seq<string>, Error>)
      modifies this
      ensures var next := Applied(catalog, old(types), d);
        if next.Ok? then r == Ok(next.value.1) && types == next.value.0 else r == Err(next.error) && types == old(types)
    {
      match d
      case Def(def) =>
        var defined := Define(def);
        r := if defined.Ok? then Ok([def.name]) else Err(defined.error);
      case Import(name, _, _) =>
        var refusal := ImportRefusal(catalog, d);
        if refusal.Some? {
          return Err(refusal.value);
        }
        if name !in catalog.packs {
          return Err(PackUnavailable);
        }
        var pack := catalog.packs[name];
        if !ImportConsistent(d, pack) {
          return Err(TypeConflict);
        }
        var staged := new TypeRegistry(catalog);
        staged.types := types;
        r := staged.ImportAll(d, pack);
        if r.Ok? {
          types := staged.types;
        }
    }

    /** Defines what an import selects, one type after the other; only ever called on a staged copy. */
    method ImportAll(d: Declaration, pack: seq<TypeDef>) returns (r: Result<seq<string>, Error>)
      requires d.Import?
      modifies this
      ensures var defs := Selected(d, pack);
        var next := DefinedAll(catalog, old(types), defs);
        if next.Ok? then r == Ok(Names(defs)) && types == next.value else r == Err(next.error)
    {
      hide Selected, Names, Overridden, Chosen, DefinedAll, Defined;
      var declared: seq<string> := [];
      SelectedEnds(d, pack);
      ghost var all := DefinedAll(catalog, types, Selected(d, pack));
      ghost var names := Names(Selected(d, pack));
      assert declared + names == names;
      for i := 0 to |pack|
        invariant DefinedAll(catalog, types, Selected(d, pack[i..])) == all
        invariant declared + Names(Selected(d, pack[i..])) == names
      {
        SelectedFrom(d, pack, i);
        ghost var rest := Selected(d, pack[i + 1..]);
        if Chosen(d, pack[i]) {
          var def := Overridden(pack[i], d.overrides);
          DefinedAllCons(catalog, types, def, rest);
          assert declared + ([def.name] + Names(rest)) == declared + [def.name] + Names(rest);
          var defined := Define(def);
          if defined.Err? {
            return Err(defined.error);
          }
          declared := declared + [def.name];
        }
      }
      assert declared + [] == declared;
      r := Ok(declared);
    }
  }

  lemma SelectedFrom(d: Declaration, pack: seq<TypeDef>, i: nat)
    requires d.Import? && i < |pack|
    ensures Selected(d, pack[i..])
         == if Chosen(d, pack[i]) then [Overridden(pack[i], d.overrides)] + Selected(d, pack[i + 1..])
            else Selected(d, pack[i + 1..])
  {
  }

  lemma SelectedEnds(d: Declaration, pack: seq<TypeDef>)
    requires d.Import?
    ensures pack[0..] == pack && Selected(d, pack[|pack|..]) == []
    ensures Names([]) == [] && forall c, types :: DefinedAll(c, types, []) == Ok(types)
  {
  }

  lemma DefinedAllCons(c: Catalog, types: Types, def: TypeDef, rest: seq<TypeDef>)
    ensures var next := Defined(c, types, def);
      DefinedAll(c, types, [def] + rest) == if next.Err? then next else DefinedAll(c, next.value, rest)
    ensures Names([def] + rest) == [def.name] + Names(rest)
  {
  }

  ghost predicate KeepsKinds(types: Types, later: Types) {
    forall name | name in types :: name in later && later[name].kind == types[name].kind
  }

  lemma {:induction false} DefiningKeepsKinds(c: Catalog, types: Types, defs: seq<TypeDef>)
    requires DefinedAll(c, types, defs).Ok?
    ensures KeepsKinds(types, DefinedAll(c, types, defs).value)
    decreases |defs|
  {
    if defs != [] {
      DefiningKeepsKinds(c, Defined(c, types, defs[0]).value, defs[1..]);
    }
  }

  /** Redefinition never changes what kind a type is, whether inline or through a pack. */
  lemma DeclarationKeepsKinds(c: Catalog, types: Types, d: Declaration)
    requires Applied(c, types, d).Ok?
    ensures KeepsKinds(types, Applied(c, types, d).value.0)
  {
    if d.Import? {
      DefiningKeepsKinds(c, types, Selected(d, c.packs[d.pack]));
    }
  }

  // ---- Freshness classes and the base check -------------------------------

  datatype RecordClass = Genesis | Contract | Message | Signal | Control

  function ClassOf(e: EventType, types: Types): Option<RecordClass> {
    match e
    case RoomCreate => Some(Genesis)
    case RoomUpdate | RoomClose | RoomCancel | TypeDefine => Some(Contract)
    case RoomJoin | RoomJoinReview | RoomLeave | RoomMemberRoleUpdate | RoomMemberRemove => Some(Signal)
    case MessageCreate => Some(Message)
    case RoomJoinRequest => None
    case Custom(name) =>
      if name !in types then None
      else
        match types[name].kind
        case MessageKind => Some(Message)
        case SignalKind => Some(Signal)
        case ControlKind => Some(Control)
  }

  predicate AdvancesHead(e: EventType, types: Types) {
    ClassOf(e, types) != Some(Message) && ClassOf(e, types) != Some(Signal)
  }

  predicate RequiresHead(e: EventType, types: Types) {
    match ClassOf(e, types)
    case Some(Message) | Some(Control) => true
    case Some(_) => false
    case None => !e.Builtin()
  }

  /** The host's check, given the hash of its own record at the base, if there is one. */
  function ValidateRoomBase(
    e: EventType, types: Types, baseSeq: nat, baseHash: string, anchor: Option<string>, headSeq: nat): Result<(), Error>
  {
    if anchor != Some(baseHash) then Err(BaseMismatch)
    else if RequiresHead(e, types) && baseSeq < headSeq then Err(HeadMismatch)
    else Ok(())
  }

  // ---- Replay -------------------------------------------------------------

  /**
   * An archived record with what the replay reads of its event. `envelopeValid` stands for the signature, the closed
   * fields and the schema, which every record must pass; `admitted` for the role, state and payload checks, which
   * depend on neither the head nor the base, and for a genesis for the rules of its payload.
   */
  datatype Entry = Entry(
    record: RoomArchive.Record, eventRoomId: Option<string>, baseSeq: Option<nat>, baseHash: Option<string>,
    declaration: Option<Declaration>, opening: seq<Declaration>, host: string, envelopeValid: bool, admitted: bool)
  {
    function Type(): EventType {
      record.body.kind
    }
  }

  datatype State = State(
    types: Types, registry: Types, verified: bool, headSeq: nat, headHash: Option<string>, entries: seq<Entry>)

  const START := State(map[], map[], true, 0, None, [])

  /** The schema's `eventHash`: 43 characters of the base64url alphabet. */
  predicate IsEventHash(s: string) {
    |s| == 43 && forall i | 0 <= i < 43 :: HashChar(s[i])
  }

  predicate HashChar(c: char) {
    'a' <= c <= 'z' || 'A' <= c <= 'Z' || '0' <= c <= '9' || c == '-' || c == '_'
  }

  /** The envelope on its own: the room of its record, and a base of the right form unless its event has none. */
  predicate ShapeValid(e: Entry) {
    && e.envelopeValid
    && (e.Type().RoomCreate? || e.eventRoomId == Some(e.record.roomId))
    && if e.Type().RoomCreate? || e.Type().RoomJoinRequest? then e.baseSeq.None? && e.baseHash.None?
       else
         && e.baseSeq.Some? && 1 <= e.baseSeq.value <= MAX_SAFE
         && e.baseHash.Some? && IsEventHash(e.baseHash.value)
         && (e.Type().TypeDefine? ==> e.declaration.Some?)
  }

  /** The hash of the first held record numbered `n`. */
  function HashAt(entries: seq<Entry>, n: nat): Option<string> {
    if entries == [] then None
    else if entries[0].record.seqNo == n then Some(entries[0].record.hash)
    else HashAt(entries[1..], n)
  }

  /** The replay's own base check, against the head and the records it holds. */
  function BaseChecked(s: State, e: Entry): Result<(), Error> {
    if e.Type().RoomCreate? then Ok(())
    else if e.Type().RoomJoinRequest? || e.baseSeq.None? || e.baseHash.None? then Err(InvalidRecord)
    else
      var base, hash := e.baseSeq.value, e.baseHash.value;
      if base >= e.record.seqNo then Err(BaseMismatch)
      else if RequiresHead(e.Type(), s.types) && base < s.headSeq then Err(HeadMismatch)
      else if base == s.headSeq then if s.headHash == Some(hash) then Ok(()) else Err(BaseMismatch)
      else if HashAt(s.entries, base).Some? && HashAt(s.entries, base) != Some(hash) then Err(BaseMismatch)
      else Ok(())
  }

  /** Writing is never permitted for a genesis event or for a custom type that is undefined or disabled. */
  predicate Permitted(s: State, e: Entry) {
    && e.admitted && !e.Type().RoomCreate?
    && (e.Type().Custom? ==> e.Type().name in s.registry && s.registry[e.Type().name].status != Disabled)
  }

  /** The registry after the record's own checks; after a redaction nothing but the envelope is checked. */
  function Checked(c: Catalog, s: State, e: Entry): Result<Types, Error> {
    if !ShapeValid(e) then Err(InvalidRecord)
    else if e.record.seqNo == 1 then Declared(c, map[], e.opening, [])
    else if !s.verified then Ok(s.registry)
    else if !Permitted(s, e) then Err(NotPermitted)
    else
      var base := BaseChecked(s, e);
      if base.Err? then Err(base.error)
      else if e.Type().TypeDefine? && e.declaration.Some? then
        var applied := Applied(c, s.registry, e.declaration.value);
        if applied.Err? then Err(applied.error) else Ok(applied.value.0)
      else Ok(s.registry)
  }

  /** An inline definition reaches the projected types even when the registry is no longer followed. */
  function Projected(types: Types, e: Entry): Types {
    if e.Type().TypeDefine? && e.declaration.Some? && e.declaration.value.Def?
    then types[e.declaration.value.def.name := e.declaration.value.def]
    else types
  }

  function Advanced(s: State, e: Entry): State {
    var t := s.(entries := s.entries + [e]);
    if AdvancesHead(e.Type(), s.types) then t.(headSeq := e.record.seqNo, headHash := Some(e.record.hash)) else t
  }

  function Stepped(c: Catalog, s: State, e: Entry): Result<State, Error> {
    if e.record.body.Redacted? then Ok(Advanced(s.(verified := false), e))
    else
      var registry := Checked(c, s, e);
      if registry.Err? then Err(registry.error)
      else
        var types := if s.verified then registry.value else Projected(s.types, e);
        Ok(Advanced(s.(registry := registry.value, types := types), e))
  }

  function Folded(c: Catalog, entries: seq<Entry>): Result<State, Error> {
    if entries == [] then Ok(START)
    else
      var before := Folded(c, entries[..|entries| - 1]);
      if before.Err? then before else Stepped(c, before.value, entries[|entries| - 1])
  }

  function RecordsOf(entries: seq<Entry>): seq<RoomArchive.Record> {
    seq(|entries|, i requires 0 <= i < |entries| => entries[i].record)
  }

  ghost predicate Replayable(hash: RoomArchive.HashInput -> string, host: string, entries: seq<Entry>) {
    && RoomArchive.ChainValid(hash, RecordsOf(entries))
    && entries != [] && entries[0].record.body.Signed? && entries[0].Type().RoomCreate?
    && entries[0].admitted && entries[0].host == host
    && forall i | 0 <= i < |entries| :: entries[i].record.roomId == entries[0].record.roomId
  }

  method Replay(c: Catalog, hash: RoomArchive.HashInput -> string, host: string, entries: seq<Entry>)
    returns (r: Result<State, Error>)
    ensures r.Ok? <==> Replayable(hash, host, entries) && Folded(c, entries).Ok?
    ensures r.Ok? ==> r == Folded(c, entries)
  {
    var chain := RoomArchive.VerifyArchiveChain(hash, RecordsOf(entries));
    if chain.Err? || entries == [] || !entries[0].record.body.Signed? || !entries[0].Type().RoomCreate? {
      return Err(InvalidRecord);
    }
    if !entries[0].admitted || entries[0].host != host {
      return Err(InvalidRecord);
    }
    var s := START;
    for i := 0 to |entries|
      invariant Folded(c, entries[..i]) == Ok(s)
      invariant forall j | 0 <= j < i :: entries[j].record.roomId == entries[0].record.roomId
    {
      var e := entries[i];
      assert entries[..i + 1][..i] == entries[..i];
      if e.record.roomId != entries[0].record.roomId {
        return Err(InvalidRecord);
      }
      var next := Stepped(c, s, e);
      if next.Err? {
        FoldStops(c, entries, i + 1);
        return Err(next.error);
      }
      s := next.value;
    }
    assert entries[..|entries|] == entries;
    r := Ok(s);
  }

  lemma {:induction false} FoldStops(c: Catalog, entries: seq<Entry>, i: nat)
    requires i <= |entries| && Folded(c, entries[..i]).Err?
    ensures Folded(c, entries).Err?
    decreases |entries| - i
  {
    if i == |entries| {
      assert entries[..i] == entries;
    } else {
      assert entries[..i + 1][..i] == entries[..i];
      FoldStops(c, entries, i + 1);
    }
  }

  // ---- The head -----------------------------------------------------------

  /** The head read off a finished history: its last head-advancing record under the final types. */
  function HeadOf(entries: seq<Entry>, types: Types): nat {
    if entries == [] then 0
    else if AdvancesHead(entries[|entries| - 1].Type(), types) then |entries|
    else HeadOf(entries[..|entries| - 1], types)
  }

  ghost predicate Numbered(entries: seq<Entry>) {
    forall i | 0 <= i < |entries| :: entries[i].record.seqNo == i + 1
  }

  ghost predicate HeadExact(s: State) {
    && s.headSeq == HeadOf(s.entries, s.types)
    && s.headHash == (if s.headSeq == 0 then None else HashAt(s.entries, s.headSeq))
    && (s.entries != [] ==> s.headSeq >= 1)
    && (s.verified ==> s.types == s.registry)
  }

  lemma {:induction false} HashAtIs(entries: seq<Entry>, n: nat, offset: nat)
    requires forall i | 0 <= i < |entries| :: entries[i].record.seqNo == offset + i + 1
    ensures HashAt(entries, n)
         == if offset < n <= offset + |entries| then Some(entries[n - offset - 1].record.hash) else None
    decreases |entries|
  {
    if entries != [] {
      HashAtIs(entries[1..], n, offset + 1);
    }
  }

  lemma {:induction false} HeadInRange(entries: seq<Entry>, types: Types)
    ensures HeadOf(entries, types) <= |entries|
    ensures forall i | 0 <= i < |entries| && AdvancesHead(entries[i].Type(), types) :: i + 1 <= HeadOf(entries, types)
  {
    if entries != [] {
      HeadInRange(entries[..|entries| - 1], types);
    }
  }

  lemma {:induction false} HeadAdvances(entries: seq<Entry>, types: Types)
    requires HeadOf(entries, types) > 0
    ensures HeadOf(entries, types) <= |entries|
    ensures AdvancesHead(entries[HeadOf(entries, types) - 1].Type(), types)
  {
    var n := |entries| - 1;
    if !AdvancesHead(entries[n].Type(), types) {
      HeadAdvances(entries[..n], types);
    }
  }

  lemma AdvancingKeepsHead(s: State, u: State, e: Entry)
    requires HeadExact(s) && Numbered(s.entries + [e])
    requires u.entries == s.entries && u.headSeq == s.headSeq && u.headHash == s.headHash
    requires u.types == s.types || AdvancesHead(e.Type(), u.types)
    requires s.entries == [] ==> AdvancesHead(e.Type(), u.types)
    ensures Advanced(u, e).headSeq == HeadOf(s.entries + [e], u.types) > 0
    ensures Advanced(u, e).headHash == HashAt(s.entries + [e], Advanced(u, e).headSeq)
  {
    hide HashAt, HeadOf, Numbered, AdvancesHead;
    NumberedSnoc(s.entries, e);
    HeadOfSnoc(s.entries, e, u.types);
    HeadInRange(s.entries, s.types);
    HashAtSnoc(s.entries, e, Advanced(u, e).headSeq);
  }

  lemma NumberedSnoc(entries: seq<Entry>, e: Entry)
    requires Numbered(entries + [e])
    ensures Numbered(entries) && e.record.seqNo == |entries| + 1
  {
    assert (entries + [e])[|entries|] == e;
    assert forall i | 0 <= i < |entries| :: (entries + [e])[i] == entries[i];
  }

  lemma HeadOfSnoc(entries: seq<Entry>, e: Entry, types: Types)
    ensures HeadOf(entries + [e], types)
         == if AdvancesHead(e.Type(), types) then |entries| + 1 else HeadOf(entries, types)
  {
  }

  lemma HashAtSnoc(entries: seq<Entry>, e: Entry, n: nat)
    requires Numbered(entries + [e]) && 1 <= n <= |entries| + 1
    ensures HashAt(entries + [e], n) == if n <= |entries| then HashAt(entries, n) else Some(e.record.hash)
  {
    hide HashAt;
    NumberedSnoc(entries, e);
    HashAtIs(entries + [e], n, 0);
    HashAtIs(entries, n, 0);
  }

  /** One record keeps the head exact: the types only change in a record that takes the head itself. */
  lemma StepKeepsHead(c: Catalog, s: State, e: Entry)
    requires HeadExact(s) && Numbered(s.entries + [e]) && Stepped(c, s, e).Ok?
    requires s.entries == [] ==> e.Type().RoomCreate? && e.record.body.Signed?
    ensures HeadExact(Stepped(c, s, e).value)
  {
    NumberedSnoc(s.entries, e);
    var t := Stepped(c, s, e).value;
    TypesMoveWithTheHead(c, s, e);
    hide Stepped, HashAt, HeadOf, Numbered, ClassOf;
    AdvancingKeepsHead(s, s.(types := t.types), e);
  }

  lemma TypesMoveWithTheHead(c: Catalog, s: State, e: Entry)
    requires HeadExact(s) && e.record.seqNo == |s.entries| + 1 && Stepped(c, s, e).Ok?
    requires s.entries == [] ==> e.Type().RoomCreate? && e.record.body.Signed?
    ensures var t := Stepped(c, s, e).value;
      && t == Advanced(s.(types := t.types, registry := t.registry, verified := t.verified), e)
      && (t.types == s.types || AdvancesHead(e.Type(), t.types))
      && (s.entries == [] ==> AdvancesHead(e.Type(), t.types))
      && (t.verified ==> t.types == t.registry)
  {
    hide Declared, Applied, BaseChecked, HashAt, HeadOf, Permitted, ShapeValid;
  }

  lemma StepAppends(c: Catalog, s: State, e: Entry)
    requires Stepped(c, s, e).Ok?
    ensures Stepped(c, s, e).value.entries == s.entries + [e]
  {
    hide Checked, Projected, AdvancesHead;
  }

  lemma {:induction false} FoldedEntries(c: Catalog, entries: seq<Entry>)
    requires Folded(c, entries).Ok?
    ensures Folded(c, entries).value.entries == entries
  {
    hide Stepped;
    if entries != [] {
      var n := |entries| - 1;
      FoldedEntries(c, entries[..n]);
      StepAppends(c, Folded(c, entries[..n]).value, entries[n]);
    }
  }

  /** The head folded record by record is the head recomputed from the final types, redactions or not. */
  lemma {:induction false} HeadIsRecomputable(c: Catalog, entries: seq<Entry>)
    requires Folded(c, entries).Ok? && Numbered(entries)
    requires entries != [] ==> entries[0].Type().RoomCreate? && entries[0].record.body.Signed?
    ensures HeadExact(Folded(c, entries).value)
  {
    if entries != [] {
      var n := |entries| - 1;
      assert Numbered(entries[..n]);
      HeadIsRecomputable(c, entries[..n]);
      FoldedEntries(c, entries[..n]);
      assert entries[..n] + [entries[n]] == entries;
      StepKeepsHead(c, Folded(c, entries[..n]).value, entries[n]);
    }
  }

  // ---- Freshness ----------------------------------------------------------

  /** Every write after the genesis is anchored in an earlier record of this history. */
  ghost predicate AnchoredAt(entries: seq<Entry>, j: nat)
    requires j < |entries|
  {
    var e := entries[j];
    e.baseSeq.Some? && 1 <= e.baseSeq.value <= j && e.baseHash == Some(entries[e.baseSeq.value - 1].record.hash)
  }

  /** A message or control record was composed at or after every contract it could have missed. */
  ghost predicate FreshAt(entries: seq<Entry>, types: Types, j: nat)
    requires j < |entries|
  {
    RequiresHead(entries[j].Type(), types) ==>
      && entries[j].baseSeq.Some?
      && forall i | 0 <= i < j && AdvancesHead(entries[i].Type(), types) :: i + 1 <= entries[j].baseSeq.value
  }

  predicate Known(e: EventType, types: Types) {
    e.Custom? ==> e.name in types
  }

  lemma KnownClassesStay(e: EventType, types: Types, later: Types)
    requires Known(e, types) && KeepsKinds(types, later)
    ensures ClassOf(e, later) == ClassOf(e, types) && Known(e, later)
  {
  }

  /** While nothing is redacted, the replay's base check is the host's, for every record and every head. */
  lemma ReplayChecksAsTheHost(s: State, e: Entry)
    requires HeadExact(s) && Numbered(s.entries + [e]) && ShapeValid(e)
    requires !e.Type().RoomCreate? && !e.Type().RoomJoinRequest?
    ensures BaseChecked(s, e).Ok? <==>
              && e.baseSeq.value <= |s.entries|
              && ValidateRoomBase(e.Type(), s.types, e.baseSeq.value, e.baseHash.value,
                                  HashAt(s.entries, e.baseSeq.value), s.headSeq).Ok?
  {
    assert (s.entries + [e])[|s.entries|].record.seqNo == |s.entries| + 1;
    assert forall i | 0 <= i < |s.entries| :: (s.entries + [e])[i] == s.entries[i];
    HashAtIs(s.entries, e.baseSeq.value, 0);
  }

  /**
   * Contract and signal writes are refused for their anchor only: whatever the head, the replay accepts one exactly
   * when the record it names has the hash it gives, and the host never answers it with a head mismatch.
   */
  lemma AnchoredWritesIgnoreTheHead(s: State, e: Entry, anchor: Option<string>)
    requires HeadExact(s) && Numbered(s.entries + [e]) && ShapeValid(e)
    requires ClassOf(e.Type(), s.types) == Some(Contract) || ClassOf(e.Type(), s.types) == Some(Signal)
    ensures BaseChecked(s, e).Ok? <==>
              e.baseSeq.value <= |s.entries| && s.entries[e.baseSeq.value - 1].record.hash == e.baseHash.value
    ensures ValidateRoomBase(e.Type(), s.types, e.baseSeq.value, e.baseHash.value, anchor, s.headSeq)
         == if anchor == e.baseHash then Ok(()) else Err(BaseMismatch)
  {
    hide HashAt;
    NumberedSnoc(s.entries, e);
    HashAtIs(s.entries, e.baseSeq.value, 0);
  }

  /** What a history replayed without redactions has been shown to be, under its final types. */
  ghost predicate HistorySound(s: State) {
    && HeadExact(s) && Numbered(s.entries)
    && (forall j | 0 <= j < |s.entries| :: Known(s.entries[j].Type(), s.types))
    && (forall j | 1 <= j < |s.entries| :: AnchoredAt(s.entries, j))
    && (forall j | 0 <= j < |s.entries| :: FreshAt(s.entries, s.types, j))
  }

  lemma StepKeepsKinds(c: Catalog, s: State, e: Entry)
    requires s.verified && s.types == s.registry && s.entries != [] && Numbered(s.entries + [e])
    requires Stepped(c, s, e).Ok? && Stepped(c, s, e).value.verified
    ensures KeepsKinds(s.types, Stepped(c, s, e).value.types) && Known(e.Type(), Stepped(c, s, e).value.types)
    ensures ShapeValid(e) && Permitted(s, e) && BaseChecked(s, e).Ok?
  {
    assert (s.entries + [e])[|s.entries|].record.seqNo == |s.entries| + 1;
    hide BaseChecked;
    if e.Type().TypeDefine? && e.declaration.Some? {
      DeclarationKeepsKinds(c, s.registry, e.declaration.value);
    }
  }

  lemma AnchorOfAccepted(s: State, e: Entry)
    requires HeadExact(s) && Numbered(s.entries + [e]) && ShapeValid(e) && s.entries != []
    requires !e.Type().RoomCreate? && BaseChecked(s, e).Ok?
    ensures AnchoredAt(s.entries + [e], |s.entries|)
    ensures RequiresHead(e.Type(), s.types) ==> s.headSeq <= e.baseSeq.value
  {
    ReplayChecksAsTheHost(s, e);
    assert forall i | 0 <= i < |s.entries| :: (s.entries + [e])[i] == s.entries[i];
    HashAtIs(s.entries, e.baseSeq.value, 0);
  }

  lemma StepKeepsSound(c: Catalog, s: State, e: Entry)
    requires HistorySound(s) && s.verified && s.entries != [] && Numbered(s.entries + [e])
    requires Stepped(c, s, e).Ok? && Stepped(c, s, e).value.verified
    ensures HistorySound(Stepped(c, s, e).value)
  {
    var t := Stepped(c, s, e).value;
    var n := |s.entries|;
    var entries := s.entries + [e];
    StepKeepsHead(c, s, e);
    StepKeepsKinds(c, s, e);
    AnchorOfAccepted(s, e);
    HeadInRange(s.entries, s.types);
    assert t.entries == entries;
    hide Stepped, BaseChecked, ClassOf, HeadOf, HashAt;
    var same := forall i | 0 <= i < n :: entries[i] == s.entries[i];
    assert same;
    forall j | 0 <= j < |entries|
      ensures Known(entries[j].Type(), t.types)
      ensures j >= 1 ==> AnchoredAt(entries, j)
      ensures FreshAt(entries, t.types, j)
    {
      FreshUnderLaterTypes(s, e, t.types, j);
    }
  }

  lemma FreshUnderLaterTypes(s: State, e: Entry, later: Types, j: nat)
    requires HistorySound(s) && s.entries != [] && j <= |s.entries|
    requires KeepsKinds(s.types, later) && Known(e.Type(), s.types)
    requires AnchoredAt(s.entries + [e], |s.entries|)
    requires RequiresHead(e.Type(), s.types) ==> s.headSeq <= e.baseSeq.value
    requires forall i | 0 <= i < |s.entries| && AdvancesHead(s.entries[i].Type(), s.types) :: i + 1 <= s.headSeq
    ensures Known((s.entries + [e])[j].Type(), later) && FreshAt(s.entries + [e], later, j)
    ensures j >= 1 ==> AnchoredAt(s.entries + [e], j)
  {
    var entries := s.entries + [e];
    forall i | 0 <= i < |entries|
      ensures ClassOf(entries[i].Type(), later) == ClassOf(entries[i].Type(), s.types)
                && Known(entries[i].Type(), later)
    {
      assert i < |s.entries| ==> Known(s.entries[i].Type(), s.types);
      KnownClassesStay(entries[i].Type(), s.types, later);
    }
    if j < |s.entries| {
      assert FreshAt(s.entries, s.types, j);
      assert j >= 1 ==> AnchoredAt(s.entries, j);
    }
  }

  lemma GenesisIsSound(c: Catalog, e: Entry)
    requires e.record.seqNo == 1 && e.Type().RoomCreate? && e.record.body.Signed? && Stepped(c, START, e).Ok?
    ensures HistorySound(Stepped(c, START, e).value)
  {
    hide Stepped, HistorySound;
    assert START.entries + [e] == [e];
    StepKeepsHead(c, START, e);
    StepAppends(c, START, e);
    AloneIsSound(Stepped(c, START, e).value, e);
  }

  lemma AloneIsSound(s: State, e: Entry)
    requires HeadExact(s) && s.entries == [e] && e.record.seqNo == 1 && e.Type().RoomCreate?
    ensures HistorySound(s)
  {
    hide HeadExact;
  }

  /** No record before position `k` is redacted. */
  ghost predicate Unredacted(entries: seq<Entry>, k: nat)
    requires k <= |entries|
  {
    forall i | 0 <= i < k :: entries[i].record.body.Signed?
  }

  /** A replay counts as verified exactly when nothing in it is redacted. */
  lemma {:induction false} VerifiedIff(c: Catalog, entries: seq<Entry>)
    requires Folded(c, entries).Ok?
    ensures Folded(c, entries).value.verified <==> Unredacted(entries, |entries|)
  {
    hide Checked, Projected, AdvancesHead;
    if entries != [] {
      var n := |entries| - 1;
      VerifiedIff(c, entries[..n]);
      assert forall i | 0 <= i < n :: entries[..n][i] == entries[i];
    }
  }

  lemma {:induction false} PrefixReplays(c: Catalog, entries: seq<Entry>, k: nat)
    requires Folded(c, entries).Ok? && k <= |entries|
    ensures Folded(c, entries[..k]).Ok?
    decreases |entries|
  {
    if k == |entries| {
      assert entries[..k] == entries;
    } else {
      PrefixReplays(c, entries[..|entries| - 1], k);
      assert entries[..|entries| - 1][..k] == entries[..k];
    }
  }

  /**
   * In any history that replays, up to its first redaction every record after the genesis is anchored in an earlier
   * one, and every message and control record is based at or after all earlier genesis, contract and control records,
   * under the types the room had by then.
   */
  lemma ReplayedHistoryIsSound(c: Catalog, entries: seq<Entry>, k: nat)
    requires Folded(c, entries).Ok? && Numbered(entries) && 1 <= k <= |entries| && Unredacted(entries, k)
    requires entries[0].Type().RoomCreate?
    ensures Folded(c, entries[..k]).Ok?
    ensures var s := Folded(c, entries[..k]).value;
      HistorySound(s) && s.verified && s.entries == entries[..k]
  {
    hide HistorySound;
    PrefixReplays(c, entries, k);
    assert forall i | 0 <= i < k :: entries[..k][i] == entries[i];
    VerifiedIff(c, entries[..k]);
    FoldedEntries(c, entries[..k]);
    VerifiedHistoryIsSound(c, entries[..k]);
  }

  lemma {:induction false} VerifiedHistoryIsSound(c: Catalog, entries: seq<Entry>)
    requires Folded(c, entries).Ok? && Folded(c, entries).value.verified && Numbered(entries)
    requires entries != [] && entries[0].Type().RoomCreate? && entries[0].record.body.Signed?
    ensures HistorySound(Folded(c, entries).value)
  {
    var n := |entries| - 1;
    FoldedEntries(c, entries[..n]);
    assert Numbered(entries[..n]);
    assert entries[..n] + [entries[n]] == entries;
    if n == 0 {
      assert entries[..0] == [];
      GenesisIsSound(c, entries[0]);
    } else {
      VerifiedHistoryIsSound(c, entries[..n]);
      StepKeepsSound(c, Folded(c, entries[..n]).value, entries[n]);
    }
  }

  /** The chain check already numbers the records, so every history `Replay` accepts is covered by the lemmas above. */
  lemma ReplayableIsNumbered(hash: RoomArchive.HashInput -> string, host: string, entries: seq<Entry>)
    requires Replayable(hash, host, entries)
    ensures Numbered(entries)
  {
    forall i | 0 <= i < |entries|
      ensures entries[i].record.seqNo == i + 1
    {
      RoomArchive.NumberedByPosition(hash, RecordsOf(entries), i);
    }
  }
}
