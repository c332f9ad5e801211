/** What declarations leave in a room's type registry, name by name, and which of them are accepted. */
module RoomTypes {
  import opened Common
  import opened RoomEvents
  import opened RoomReplay

  /** The types of a pack that an import asks for: all of them, or the subset it lists. */
  ghost predicate AsksFor(d: Declaration, pack: seq<TypeDef>, def: TypeDef) {
    d.Import? && def in pack && (d.subset.None? || def.name in d.subset.value)
  }

  ghost predicate AsksForName(d: Declaration, pack: seq<TypeDef>, name: string) {
    exists def | def in pack :: def.name == name && AsksFor(d, pack, def)
  }

  /** The pack's definition with what the import overrides of it; never its name or its kind. */
  ghost predicate IsImportOf(x: TypeDef, def: TypeDef, overrides: map<string, Override>) {
    && x.name == def.name && x.kind == def.kind
    && x.status == (if def.name in overrides && overrides[def.name].status.Some? then overrides[def.name].status.value
                    else def.status)
    && x.content == (if def.name in overrides && overrides[def.name].content.Some?
                     then overrides[def.name].content.value else def.content)
  }

  /** A definition that a registry takes: a valid one that does not change the kind of its type. */
  predicate Takes(c: Catalog, types: Types, def: TypeDef) {
    c.defValid(def) && (def.name in types ==> types[def.name].kind == def.kind)
  }

  lemma {:induction false} SelectedMember(d: Declaration, pack: seq<TypeDef>, x: TypeDef)
    requires d.Import?
    ensures x in Selected(d, pack) <==> exists def :: AsksFor(d, pack, def) && IsImportOf(x, def, d.overrides)
  {
    if pack != [] {
      SelectedMember(d, pack[1..], x);
      assert pack == [pack[0]] + pack[1..];
      forall def: TypeDef
        ensures AsksFor(d, pack, def) <==> AsksFor(d, pack[1..], def) || (def == pack[0] && Chosen(d, def))
      {
      }
      var head := Overridden(pack[0], d.overrides);
      assert IsImportOf(head, pack[0], d.overrides);
      assert IsImportOf(x, pack[0], d.overrides) ==> x == head;
    }
  }

  lemma NamesCons(first: TypeDef, rest: seq<TypeDef>)
    ensures Names([first] + rest) == [first.name] + Names(rest)
    ensures DistinctStrings(Names([first] + rest)) <==> DistinctStrings(Names(rest)) && first.name !in Names(rest)
  {
    var all := Names([first] + rest);
    assert all == [first.name] + Names(rest);
    if DistinctStrings(all) {
      assert forall i | 0 <= i < |rest| :: all[i + 1] == Names(rest)[i] && all[0] != all[i + 1];
    }
  }

  lemma {:induction false} SelectedNames(d: Declaration, pack: seq<TypeDef>)
    requires d.Import? && DistinctStrings(Names(pack))
    ensures DistinctStrings(Names(Selected(d, pack)))
    ensures forall name | name in Names(Selected(d, pack)) :: name in Names(pack)
  {
    hide Names, DistinctStrings, Overridden;
    if pack == [] {
      assert Selected(d, pack) == pack;
    } else {
      assert pack == [pack[0]] + pack[1..];
      NamesCons(pack[0], pack[1..]);
      SelectedNames(d, pack[1..]);
      OverriddenName(pack[0], d.overrides);
      NamesCons(Overridden(pack[0], d.overrides), Selected(d, pack[1..]));
      assert [] + Selected(d, pack[1..]) == Selected(d, pack[1..]);
    }
  }

  lemma OverriddenName(def: TypeDef, overrides: map<string, Override>)
    ensures Overridden(def, overrides).name == def.name
  {
  }

  /** Definitions of different names do not get in each other's way. */
  lemma {:induction false} DefinedAllIff(c: Catalog, types: Types, defs: seq<TypeDef>)
    requires DistinctStrings(Names(defs))
    ensures DefinedAll(c, types, defs).Ok? <==> forall x | x in defs :: Takes(c, types, x)
    ensures DefinedAll(c, types, defs).Ok? ==>
              var later := DefinedAll(c, types, defs).value;
              && (forall x | x in defs :: x.name in later && later[x.name] == x)
              && forall name | name !in Names(defs) ::
                   (name in later <==> name in types) && (name in types ==> later[name] == types[name])
    decreases |defs|
  {
    hide Names, DistinctStrings;
    if defs != [] {
      var first, rest := defs[0], defs[1..];
      assert defs == [first] + rest;
      NamesCons(first, rest);
      forall x | x in rest
        ensures x.name in Names(rest)
      {
        NamesMember(rest, x.name);
      }
      if Takes(c, types, first) {
        var next := types[first.name := first];
        DefinedAllIff(c, next, rest);
        assert forall x | x in rest :: Takes(c, next, x) <==> Takes(c, types, x);
      }
    }
  }

  lemma NamesMember(defs: seq<TypeDef>, name: string)
    ensures name in Names(defs) <==> exists x | x in defs :: x.name == name
  {
    if exists x | x in defs :: x.name == name {
      var x :| x in defs && x.name == name;
      var i :| 0 <= i < |defs| && defs[i] == x;
      assert Names(defs)[i] == name;
    }
  }

  lemma SelectedNamesAsked(d: Declaration, pack: seq<TypeDef>, name: string)
    requires d.Import?
    ensures name in Names(Selected(d, pack)) <==> AsksForName(d, pack, name)
  {
    hide Selected, AsksFor;
    NamesMember(Selected(d, pack), name);
    if name in Names(Selected(d, pack)) {
      var x :| x in Selected(d, pack) && x.name == name;
      SelectedMember(d, pack, x);
      var def :| AsksFor(d, pack, def) && IsImportOf(x, def, d.overrides);
      AskedIsInPack(d, pack, def);
    }
    if AsksForName(d, pack, name) {
      var def :| def in pack && def.name == name && AsksFor(d, pack, def);
      var x := Overridden(def, d.overrides);
      assert IsImportOf(x, def, d.overrides);
      SelectedMember(d, pack, x);
    }
  }

  lemma AskedIsInPack(d: Declaration, pack: seq<TypeDef>, def: TypeDef)
    ensures AsksFor(d, pack, def) ==> def in pack
  {
  }

  /**
   * What an accepted import leaves: under each name it asks for, the pack's definition with its overrides, and under
   * every other name what was there before. It declares each of its names once.
   */
  lemma ImportLeaves(c: Catalog, types: Types, d: Declaration)
    requires d.Import? && Applied(c, types, d).Ok?
    ensures d.pack in c.packs
    ensures var pack, later, names := c.packs[d.pack], Applied(c, types, d).value.0, Applied(c, types, d).value.1;
      && (forall def | AsksFor(d, pack, def) ::
            def.name in later && IsImportOf(later[def.name], def, d.overrides))
      && (forall name | !AsksForName(d, pack, name) ::
            (name in later <==> name in types) && (name in types ==> later[name] == types[name]))
      && DistinctStrings(names) && forall name :: name in names <==> AsksForName(d, pack, name)
  {
    var pack, later := c.packs[d.pack], Applied(c, types, d).value.0;
    var defs := Selected(d, pack);
    SelectedNames(d, pack);
    DefinedAllIff(c, types, defs);
    hide Selected, AsksFor, DefinedAll, Takes;
    forall name: string
      ensures name in Names(defs) <==> AsksForName(d, pack, name)
    {
      SelectedNamesAsked(d, pack, name);
    }
    forall def | AsksFor(d, pack, def)
      ensures def.name in later && IsImportOf(later[def.name], def, d.overrides)
    {
      var x := Overridden(def, d.overrides);
      assert IsImportOf(x, def, d.overrides);
      SelectedMember(d, pack, x);
    }
  }

  /** An import on its own: a well-formed reference to a known pack, and only names that the pack has, each once. */
  ghost predicate ImportSound(c: Catalog, d: Declaration)
    requires d.Import?
  {
    && c.referenceValid(d.pack) && d.pack in c.packs
    && var pack := c.packs[d.pack];
       && (forall i, j | 0 <= i < j < |pack| :: pack[i].name != pack[j].name)
       && (d.subset.Some? ==>
             && d.subset.value != []
             && (forall i, j | 0 <= i < j < |d.subset.value| :: d.subset.value[i] != d.subset.value[j])
             && forall name | name in d.subset.value :: name in Names(pack))
       && forall name | name in d.overrides :: AsksForName(d, pack, name)
  }

  lemma OverridesAsked(d: Declaration, pack: seq<TypeDef>, name: string)
    requires d.Import? && (d.subset.Some? ==> forall n | n in d.subset.value :: n in Names(pack))
    ensures AsksForName(d, pack, name) <==> if d.subset.Some? then name in d.subset.value else name in Names(pack)
  {
    NamesMember(pack, name);
  }

  lemma ImportSoundIff(c: Catalog, d: Declaration)
    requires d.Import?
    ensures ImportSound(c, d) <==>
              ImportRefusal(c, d).None? && d.pack in c.packs && ImportConsistent(d, c.packs[d.pack])
  {
    if d.pack in c.packs {
      var pack := c.packs[d.pack];
      hide AsksForName;
      assert DistinctStrings(Names(pack)) <==> forall i, j | 0 <= i < j < |pack| :: pack[i].name != pack[j].name by {
        assert forall i | 0 <= i < |pack| :: Names(pack)[i] == pack[i].name;
      }
      if d.subset.Some? ==> forall n | n in d.subset.value :: n in Names(pack) {
        forall name | name in d.overrides
          ensures AsksForName(d, pack, name) <==>
                    if d.subset.Some? then name in d.subset.value else name in Names(pack)
        {
          OverridesAsked(d, pack, name);
        }
      }
    }
  }

  /** An import is accepted exactly when it is sound and the registry takes everything it asks for. */
  lemma ImportAcceptedIff(c: Catalog, types: Types, d: Declaration)
    requires d.Import?
    ensures Applied(c, types, d).Ok? <==>
              && ImportSound(c, d)
              && forall def | AsksFor(d, c.packs[d.pack], def) :: Takes(c, types, Overridden(def, d.overrides))
  {
    ImportSoundIff(c, d);
    hide ImportSound, Selected, AsksFor, DefinedAll, Takes, ImportRefusal;
    if ImportRefusal(c, d).None? && d.pack in c.packs && ImportConsistent(d, c.packs[d.pack]) {
      var pack := c.packs[d.pack];
      SelectedNames(d, pack);
      DefinedAllIff(c, types, Selected(d, pack));
      forall x: TypeDef
        ensures x in Selected(d, pack) <==> exists def :: AsksFor(d, pack, def) && x == Overridden(def, d.overrides)
      {
        SelectedMember(d, pack, x);
        assert forall def :: IsImportOf(x, def, d.overrides) <==> x == Overridden(def, d.overrides);
      }
    }
  }

  // ---- The opening declarations -------------------------------------------

  /** The names a declaration declares, whatever the registry holds. */
  ghost predicate DeclaresName(c: Catalog, d: Declaration, name: string) {
    match d
    case Def(def) => def.name == name
    case Import(pack, _, _) => pack in c.packs && AsksForName(d, c.packs[pack], name)
  }

  ghost predicate Apart(c: Catalog, d: Declaration, e: Declaration) {
    forall name | DeclaresName(c, d, name) :: !DeclaresName(c, e, name)
  }

  lemma AppliedNames(c: Catalog, types: Types, d: Declaration)
    requires Applied(c, types, d).Ok?
    ensures var names := Applied(c, types, d).value.1;
      DistinctStrings(names) && forall name :: name in names <==> DeclaresName(c, d, name)
    ensures forall name :: name in Applied(c, types, d).value.0 <==> name in types || DeclaresName(c, d, name)
  {
    hide AsksForName, AsksFor, IsImportOf;
    if d.Import? {
      ImportLeaves(c, types, d);
      forall name: string
        ensures name in Applied(c, types, d).value.0 <==> name in types || DeclaresName(c, d, name)
      {
        if AsksForName(d, c.packs[d.pack], name) {
          AskedName(d, c.packs[d.pack], name);
        }
      }
    }
  }

  lemma AskedName(d: Declaration, pack: seq<TypeDef>, name: string)
    requires AsksForName(d, pack, name)
    ensures exists def :: AsksFor(d, pack, def) && def.name == name
  {
  }

  /** Where none of its names is taken, a declaration is accepted as it would be in an empty registry. */
  lemma AppliedAlone(c: Catalog, types: Types, d: Declaration)
    requires forall name | DeclaresName(c, d, name) :: name !in types
    ensures Applied(c, types, d).Ok? <==> Applied(c, map[], d).Ok?
  {
    hide AsksFor, ImportSound;
    if d.Import? {
      ImportAcceptedIff(c, types, d);
      ImportAcceptedIff(c, map[], d);
      if d.pack in c.packs {
        forall def | AsksFor(d, c.packs[d.pack], def)
          ensures def.name !in types && Overridden(def, d.overrides).name == def.name
        {
          AskedIsInPack(d, c.packs[d.pack], def);
          assert DeclaresName(c, d, def.name);
        }
      } else {
        SoundHasPack(c, d);
      }
    }
  }

  lemma SoundHasPack(c: Catalog, d: Declaration)
    requires d.Import?
    ensures ImportSound(c, d) ==> d.pack in c.packs
  {
  }

  lemma JoinedDistinct(names: seq<string>, more: seq<string>)
    requires DistinctStrings(names) && DistinctStrings(more)
    ensures DistinctStrings(names + more) <==> forall name | name in more :: name !in names
  {
    var all := names + more;
    assert forall i | 0 <= i < |names| :: all[i] == names[i];
    assert forall i | |names| <= i < |all| :: all[i] == more[i - |names|] && all[i] in more;
    forall i, j | 0 <= i < |names| && 0 <= j < |more| && names[i] == more[j]
      ensures !DistinctStrings(all)
    {
      assert all[i] == all[|names| + j];
    }
  }

  ghost predicate AcceptedAlone(c: Catalog, declarations: seq<Declaration>) {
    forall i | 0 <= i < |declarations| :: Applied(c, map[], declarations[i]).Ok?
  }

  ghost predicate PairwiseApart(c: Catalog, declarations: seq<Declaration>) {
    forall i, j | 0 <= i < j < |declarations| :: Apart(c, declarations[i], declarations[j])
  }

  ghost predicate Untaken(c: Catalog, types: Types, declarations: seq<Declaration>) {
    forall i, name | 0 <= i < |declarations| && DeclaresName(c, declarations[i], name) :: name !in types
  }

  lemma {:induction false} DeclaredIff(
    c: Catalog, types: Types, declarations: seq<Declaration>, names: seq<string>)
    requires DistinctStrings(names) && forall name :: name in names <==> name in types
    ensures Declared(c, types, declarations, names).Ok? <==>
              AcceptedAlone(c, declarations) && PairwiseApart(c, declarations) && Untaken(c, types, declarations)
    decreases |declarations|
  {
    hide Applied, DeclaresName, DistinctStrings;
    if declarations != [] {
      var d, rest := declarations[0], declarations[1..];
      assert declarations == [d] + rest;
      var next := Applied(c, types, d);
      if next.Ok? {
        var (later, more) := next.value;
        AppliedNames(c, types, d);
        JoinedDistinct(names, more);
        if DistinctStrings(names + more) {
          assert forall name :: name in names + more <==> name in names || name in more;
          AppliedAlone(c, types, d);
          DeclaredIff(c, later, rest, names + more);
          AloneSplits(c, d, rest);
          if PairwiseApart(c, declarations) && Untaken(c, types, declarations) {
            OpeningSplits(c, types, later, d, rest);
          }
          if PairwiseApart(c, rest) && Untaken(c, later, rest) {
            OpeningJoins(c, types, later, d, rest);
          }
        } else {
          var name :| name in more && name in names;
          assert DeclaresName(c, declarations[0], name) && name in types;
        }
      } else if Untaken(c, types, declarations) {
        assert forall name | DeclaresName(c, declarations[0], name) :: name !in types;
        AppliedAlone(c, types, d);
        assert !Applied(c, map[], declarations[0]).Ok?;
      }
    }
  }

  lemma OpeningSplits(c: Catalog, types: Types, later: Types, d: Declaration, rest: seq<Declaration>)
    requires forall name :: name in later <==> name in types || DeclaresName(c, d, name)
    requires PairwiseApart(c, [d] + rest) && Untaken(c, types, [d] + rest)
    ensures PairwiseApart(c, rest) && Untaken(c, later, rest)
  {
    hide Applied, DeclaresName;
    var all := [d] + rest;
    forall j | 0 <= j < |rest|
      ensures all[j + 1] == rest[j] && Apart(c, d, rest[j])
    {
      assert Apart(c, all[0], all[j + 1]);
    }
    forall i, j | 0 <= i < j < |rest|
      ensures Apart(c, rest[i], rest[j])
    {
      assert Apart(c, all[i + 1], all[j + 1]);
    }
  }

  lemma OpeningJoins(c: Catalog, types: Types, later: Types, d: Declaration, rest: seq<Declaration>)
    requires forall name | DeclaresName(c, d, name) :: name !in types
    requires forall name :: name in later <==> name in types || DeclaresName(c, d, name)
    requires PairwiseApart(c, rest) && Untaken(c, later, rest)
    ensures PairwiseApart(c, [d] + rest) && Untaken(c, types, [d] + rest)
  {
    hide Applied, DeclaresName;
    var all := [d] + rest;
    assert forall j | 0 <= j < |rest| :: Apart(c, d, rest[j]);
    hide Apart;
    forall i, j | 0 <= i < j < |all|
      ensures Apart(c, all[i], all[j])
    {
      assert all[j] == rest[j - 1];
      if i > 0 {
        assert all[i] == rest[i - 1];
      }
    }
  }

  lemma AloneSplits(c: Catalog, d: Declaration, rest: seq<Declaration>)
    ensures AcceptedAlone(c, [d] + rest) <==> Applied(c, map[], d).Ok? && AcceptedAlone(c, rest)
  {
    hide Applied;
    var all := [d] + rest;
    assert all[0] == d && forall i | 0 <= i < |rest| :: all[i + 1] == rest[i];
  }

  /** A room opens exactly when each of its declarations would be accepted alone and no two name the same type. */
  lemma OpeningAcceptedIff(c: Catalog, declarations: seq<Declaration>)
    ensures Declared(c, map[], declarations, []).Ok? <==>
              AcceptedAlone(c, declarations) && PairwiseApart(c, declarations)
  {
    hide Applied, DeclaresName;
    DeclaredIff(c, map[], declarations, []);
  }

  // ---- Who may write what -------------------------------------------------

  /** Up to the first redaction, every record behind the genesis has its room, its admission and its type in order. */
  lemma WritesArePermitted(c: Catalog, entries: seq<Entry>, k: nat)
    requires Folded(c, entries).Ok? && Numbered(entries) && 1 <= k < |entries| && Unredacted(entries, k + 1)
    requires entries[0].Type().RoomCreate?
    ensures Folded(c, entries[..k]).Ok?
    ensures var e, types := entries[k], Folded(c, entries[..k]).value.types;
      && e.envelopeValid && e.admitted && !e.Type().RoomCreate? && e.eventRoomId == Some(e.record.roomId)
      && (e.Type().Custom? ==> e.Type().name in types && types[e.Type().name].status != Disabled)
      && (e.Type().TypeDefine? ==> e.declaration.Some? && Applied(c, types, e.declaration.value).Ok?)
  {
    ReplayedHistoryIsSound(c, entries, k);
    PrefixReplays(c, entries, k + 1);
    assert entries[..k + 1][..k] == entries[..k] && entries[..k + 1][k] == entries[k];
    RegistryIsTypes(c, entries[..k]);
    hide HistorySound, BaseChecked, Applied;
  }

  lemma {:induction false} RegistryIsTypes(c: Catalog, entries: seq<Entry>)
    requires Folded(c, entries).Ok? && Folded(c, entries).value.verified
    ensures Folded(c, entries).value.registry == Folded(c, entries).value.types
  {
    hide Checked, AdvancesHead;
    if entries != [] {
      RegistryIsTypes(c, entries[..|entries| - 1]);
    }
  }

  // ---- Which records the head concerns ------------------------------------

  /**
   * Joining, leaving and membership records and messages leave the head where it is, and so do records of a room's
   * own message and signal types. Messages are held to the head, and so is every record of a room's own types but
   * signals.
   */
  lemma HeadConcerns(e: EventType, types: Types)
    ensures AdvancesHead(e, types) <==>
              && e !in {RoomJoin, RoomJoinReview, RoomLeave, RoomMemberRoleUpdate, RoomMemberRemove, MessageCreate}
              && (e.Custom? && e.name in types ==> types[e.name].kind.ControlKind?)
    ensures RequiresHead(e, types) <==>
              || e == MessageCreate
              || (e.Custom? && (e.name in types ==> !types[e.name].kind.SignalKind?))
  {
  }

  // ---- The form of a record -----------------------------------------------

  /** What every signed record of a replayed history has: a valid envelope, its room, and a base of the right form. */
  ghost predicate WellFormed(e: Entry) {
    && e.envelopeValid
    && match e.Type()
       case RoomCreate => e.baseSeq.None? && e.baseHash.None?
       case RoomJoinRequest => e.eventRoomId == Some(e.record.roomId) && e.baseSeq.None? && e.baseHash.None?
       case _ =>
         && e.eventRoomId == Some(e.record.roomId)
         && e.baseSeq.Some? && 1 <= e.baseSeq.value <= MAX_SAFE
         && e.baseHash.Some? && |e.baseHash.value| == 43
         && (forall c | c in e.baseHash.value ::
               'a' <= c <= 'z' || 'A' <= c <= 'Z' || '0' <= c <= '9' || c == '-' || c == '_')
         && (e.Type().TypeDefine? ==> e.declaration.Some?)
  }

  lemma EventHashIff(text: string)
    ensures IsEventHash(text) <==>
              && |text| == 43
              && forall c | c in text :: 'a' <= c <= 'z' || 'A' <= c <= 'Z' || '0' <= c <= '9' || c == '-' || c == '_'
  {
    assert forall i | 0 <= i < |text| :: text[i] in text;
  }

  lemma WellFormedIff(e: Entry)
    ensures WellFormed(e) <==> ShapeValid(e)
  {
    hide IsEventHash;
    if e.baseHash.Some? {
      EventHashIff(e.baseHash.value);
    }
  }

  /** Whatever was redacted before it, a signed record behind the genesis is replayed only if it is well-formed. */
  lemma ReplayedIsWellFormed(c: Catalog, s: State, e: Entry)
    requires e.record.body.Signed? && e.record.seqNo != 1
    ensures Stepped(c, s, e).Ok? ==> WellFormed(e)
    ensures !s.verified && WellFormed(e) ==> Stepped(c, s, e).Ok?
  {
    WellFormedIff(e);
    hide WellFormed, ShapeValid, Permitted, BaseChecked, Applied, Declared, AdvancesHead, Projected;
  }

  /** A history that replays opens with one room's signed genesis by this host, and holds no record of another room. */
  lemma ReplayedRoomIsTheHosts(
    c: Catalog, hash: RoomArchive.HashInput -> string, host: string, entries: seq<Entry>, i: nat)
    requires Replayable(hash, host, entries) && Folded(c, entries).Ok? && i < |entries|
    ensures var first, e := entries[0], entries[i];
      && first.host == host && first.Type().RoomCreate? && first.record.body.Signed? && first.envelopeValid
      && first.admitted && first.record.seqNo == 1 && first.record.preHash.None?
      && Declared(c, map[], first.opening, []).Ok?
      && e.record.roomId == first.record.roomId && e.record.seqNo == i + 1
      && (i > 0 && e.record.body.Signed? ==> WellFormed(e))
  {
    ReplayableIsNumbered(hash, host, entries);
    PrefixReplays(c, entries, 1);
    PrefixReplays(c, entries, i + 1);
    assert entries[..1] == [entries[0]] && entries[..1][..0] == [];
    assert entries[..i + 1][..i] == entries[..i] && entries[..i + 1][i] == entries[i];
    assert RecordsOf(entries)[0] == entries[0].record;
    if i > 0 && entries[i].record.body.Signed? {
      ReplayedIsWellFormed(c, Folded(c, entries[..i]).value, entries[i]);
    }
    hide WellFormed, Permitted, BaseChecked, Applied, Declared, AdvancesHead, Projected;
  }
}
