/** Signed knowledge contributions: their links, the target rules, and the exact query filters. */
module KnowledgeEvents {
  import opened Common

  type Id = string

  datatype Kind =
    | Question | Hypothesis | Definition | Observation | Inference
    | Procedure | Resource | NegativeResult | Synthesis | Collection

  datatype RelationKind =
    | DerivedFrom | Addresses | Tests | Extends | Supports | Contradicts | Supersedes | Contains

  datatype Verdict = Supporting | Challenges | Reproduced | NotReproduced | Applied | Inconclusive

  datatype Relation = Relation(kind: RelationKind, target: Id)

  datatype EventType = PublishType | AssessType | RetractType

  datatype Payload =
    | Publish(kind: Kind, language: string, tags: seq<string>, profiles: seq<Id>, relations: seq<Relation>)
    | Assess(target: Id, verdict: Verdict, profiles: seq<Id>)
    | Retract(target: Id)

  datatype Event = Event(actor: string, createdAt: int, nonce: nat, payload: Payload)
  {
    function Type(): EventType {
      match payload
      case Publish(_, _, _, _, _) => PublishType
      case Assess(_, _, _) => AssessType
      case Retract(_) => RetractType
    }

    function Profiles(): seq<Id> {
      if payload.Retract? then [] else payload.profiles
    }

    /** The links whose targets the event depends on: its relations, or its single target. */
    function Links(): seq<Link> {
      match payload
      case Publish(_, _, _, _, relations) =>
        seq(|relations|, i requires 0 <= i < |relations| => Link(Related(relations[i].kind), relations[i].target))
      case Assess(target, _, _) => [Link(Assesses, target)]
      case Retract(target) => [Link(Retracts, target)]
    }

    function Dependencies(): set<Id> {
      set link | link in Links() :: link.target
    }
  }

  datatype LinkKind = Related(relation: RelationKind) | Assesses | Retracts

  datatype Link = Link(kind: LinkKind, target: Id)

  /** `content` stands for every signed member that no rule of this model reads. */
  datatype Envelope = Envelope(hash: Id, event: Event, content: string)

  // ---- Target rules -------------------------------------------------------

  datatype DependencyError = MissingDependency(missing: set<Id>) | InvalidTarget

  /** The links that accept an assessment as their target; every link accepts a publication. */
  predicate MayPointAtAssessment(kind: LinkKind) {
    || kind.Retracts?
    || (kind.Related? && (kind.relation.DerivedFrom? || kind.relation.Supports? || kind.relation.Contradicts?))
  }

  predicate LinkAllowed(event: Event, link: Link, target: Event) {
    && (target.payload.Publish? || (target.payload.Assess? && MayPointAtAssessment(link.kind)))
    && (link.kind == Related(Addresses) ==> target.payload.Publish? && target.payload.kind == Question)
    && (link.kind == Related(Tests) ==> target.payload.Publish? && target.payload.kind == Hypothesis)
    && (link.kind == Related(Supersedes) || link.kind == Retracts ==>
          target.actor == event.actor && target.nonce < event.nonce)
  }

  function CheckDependencies(event: Event, known: map<Id, Envelope>): Result<(), DependencyError> {
    var missing := event.Dependencies() - known.Keys;
    if missing != {} then Err(MissingDependency(missing))
    else if exists link | link in event.Links() ::
        link.target in known && !LinkAllowed(event, link, known[link.target].event)
    then Err(InvalidTarget)
    else Ok(())
  }

  ghost predicate DependenciesHold(event: Event, known: map<Id, Envelope>) {
    forall link | link in event.Links() :: link.target in known && LinkAllowed(event, link, known[link.target].event)
  }

  lemma CheckDependenciesDecides(event: Event, known: map<Id, Envelope>)
    ensures CheckDependencies(event, known).Ok? <==> DependenciesHold(event, known)
  {
    if DependenciesHold(event, known) {
      assert event.Dependencies() - known.Keys == {};
    } else {
      var link :| && link in event.Links()
                  && !(link.target in known && LinkAllowed(event, link, known[link.target].event));
      assert link.target in event.Dependencies();
      if link.target !in known {
        assert link.target in event.Dependencies() - known.Keys;
      }
    }
  }

  // ---- Exact filters ------------------------------------------------------

  datatype Filters = Filters(
    actor: Option<string>, eventType: Option<EventType>, language: Option<string>, verdict: Option<Verdict>,
    createdFrom: Option<int>, createdBefore: Option<int>, kind: Option<Kind>, tag: Option<string>,
    profile: Option<Id>, relation: Option<RelationKind>, target: Option<Id>)

  predicate FiltersValid(filters: Filters) {
    && (filters.createdFrom.Some? ==> SafeTime(filters.createdFrom.value))
    && (filters.createdBefore.Some? ==> SafeTime(filters.createdBefore.value))
    && (filters.createdFrom.Some? && filters.createdBefore.Some? ==>
          filters.createdFrom.value < filters.createdBefore.value)
  }

  function LowerAscii(c: char): char {
    if 'A' <= c <= 'Z' then c - 'A' + 'a' else c
  }

  predicate EqualIgnoringCase(a: string, b: string) {
    |a| == |b| && forall i | 0 <= i < |a| :: LowerAscii(a[i]) == LowerAscii(b[i])
  }

  predicate Matches(event: Event, filters: Filters) {
    var p := event.payload;
    && (filters.actor.Some? ==> filters.actor.value == event.actor)
    && (filters.eventType.Some? ==> filters.eventType.value == event.Type())
    && (filters.language.Some? ==> p.Publish? && EqualIgnoringCase(filters.language.value, p.language))
    && (filters.verdict.Some? ==> p.Assess? && filters.verdict.value == p.verdict)
    && (filters.createdFrom.Some? ==> filters.createdFrom.value <= event.createdAt)
    && (filters.createdBefore.Some? ==> event.createdAt < filters.createdBefore.value)
    && (filters.kind.Some? ==> p.Publish? && filters.kind.value == p.kind)
    && (filters.tag.Some? ==> p.Publish? && filters.tag.value in p.tags)
    && (filters.profile.Some? ==> filters.profile.value in event.Profiles())
    && (if filters.relation.Some? then
          p.Publish? && exists r | r in p.relations ::
            r.kind == filters.relation.value && (filters.target.Some? ==> r.target == filters.target.value)
        else filters.target.Some? ==> filters.target.value in event.Dependencies())
  }

  const NO_FILTERS := Filters(None, None, None, None, None, None, None, None, None, None, None)

  /** The targets of an event, whatever its type. */
  predicate PointsAt(event: Event, target: Id) {
    match event.payload
    case Publish(_, _, _, _, relations) => exists r | r in relations :: r.target == target
    case Assess(other, _, _) => other == target
    case Retract(other) => other == target
  }

  lemma DependenciesAreTargets(event: Event, target: Id)
    ensures target in event.Dependencies() <==> PointsAt(event, target)
  {
    if PointsAt(event, target) {
      if event.payload.Publish? {
        var relations := event.payload.relations;
        var i :| 0 <= i < |relations| && relations[i].target == target;
        assert event.Links()[i] in event.Links();
      } else {
        assert event.Links()[0] in event.Links();
      }
    }
  }

  /** A query without filters finds everything, and each filter takes away exactly what it does not describe. */
  lemma EventFiltersNarrow(event: Event, f: Filters)
    ensures Matches(event, NO_FILTERS)
    ensures forall x: string ::
              Matches(event, f.(actor := Some(x))) <==> Matches(event, f.(actor := None)) && event.actor == x
    ensures forall x: EventType ::
              Matches(event, f.(eventType := Some(x))) <==>
                Matches(event, f.(eventType := None))
                && (x == PublishType <==> event.payload.Publish?) && (x == AssessType <==> event.payload.Assess?)
    ensures forall x: int ::
              Matches(event, f.(createdFrom := Some(x))) <==>
                Matches(event, f.(createdFrom := None)) && x <= event.createdAt
    ensures forall x: int ::
              Matches(event, f.(createdBefore := Some(x))) <==>
                Matches(event, f.(createdBefore := None)) && event.createdAt < x
    ensures forall x: Id ::
              Matches(event, f.(profile := Some(x))) <==>
                Matches(event, f.(profile := None)) && !event.payload.Retract? && x in event.payload.profiles
  {
  }

  /** The same text up to the case of its ASCII letters. */
  predicate SameTag(a: string, b: string) {
    |a| == |b| && forall i | 0 <= i < |a| :: SameLetter(a[i], b[i]) || SameLetter(b[i], a[i])
  }

  predicate SameLetter(c: char, d: char) {
    c == d || ('A' <= c <= 'Z' && d as int == c as int + 32)
  }

  lemma PayloadFiltersNarrow(event: Event, f: Filters)
    ensures forall x: string ::
              Matches(event, f.(language := Some(x))) <==>
                Matches(event, f.(language := None)) && event.payload.Publish?
                && SameTag(x, event.payload.language)
    ensures forall x: Verdict ::
              Matches(event, f.(verdict := Some(x))) <==>
                Matches(event, f.(verdict := None)) && event.payload.Assess? && event.payload.verdict == x
    ensures forall x: Kind ::
              Matches(event, f.(kind := Some(x))) <==>
                Matches(event, f.(kind := None)) && event.payload.Publish? && event.payload.kind == x
    ensures forall x: string ::
              Matches(event, f.(tag := Some(x))) <==>
                Matches(event, f.(tag := None)) && event.payload.Publish? && x in event.payload.tags
  {
  }

  /** A relation filter and a target filter together ask for one relation that has both. */
  lemma LinkFiltersNarrow(event: Event, f: Filters, kind: RelationKind, target: Id)
    requires f.relation.None? && f.target.None?
    ensures Matches(event, f.(target := Some(target))) <==> Matches(event, f) && PointsAt(event, target)
    ensures Matches(event, f.(relation := Some(kind))) <==>
              Matches(event, f) && event.payload.Publish? && exists r | r in event.payload.relations :: r.kind == kind
    ensures Matches(event, f.(relation := Some(kind), target := Some(target))) <==>
              Matches(event, f) && event.payload.Publish? && Relation(kind, target) in event.payload.relations
  {
    DependenciesAreTargets(event, target);
  }

  // ---- What each link needs of its target ---------------------------------

  /** What a publication's relation of each kind needs of the event it points at. */
  predicate RelationFits(event: Event, kind: RelationKind, target: Event) {
    match kind
    case Addresses => target.payload.Publish? && target.payload.kind == Question
    case Tests => target.payload.Publish? && target.payload.kind == Hypothesis
    case Extends | Contains => target.payload.Publish?
    case Supersedes => target.payload.Publish? && target.actor == event.actor && target.nonce < event.nonce
    case DerivedFrom | Supports | Contradicts => !target.payload.Retract?
  }

  /** What an event needs of the events it points at: questions, hypotheses, publications, or its own author. */
  predicate FitsItsTargets(event: Event, known: map<Id, Envelope>) {
    match event.payload
    case Publish(_, _, _, _, relations) =>
      forall r | r in relations :: r.target in known && RelationFits(event, r.kind, known[r.target].event)
    case Assess(target, _, _) => target in known && known[target].event.payload.Publish?
    case Retract(target) =>
      && target in known && !known[target].event.payload.Retract?
      && known[target].event.actor == event.actor && known[target].event.nonce < event.nonce
  }

  /** A link of a publication is allowed exactly when its relation fits. */
  lemma RelationFitsIff(event: Event, kind: RelationKind, id: Id, target: Event)
    ensures LinkAllowed(event, Link(Related(kind), id), target) <==> RelationFits(event, kind, target)
  {
  }

  lemma FitsIff(event: Event, known: map<Id, Envelope>)
    ensures DependenciesHold(event, known) <==> FitsItsTargets(event, known)
  {
    hide LinkAllowed, RelationFits;
    match event.payload
    case Publish(_, _, _, _, relations) =>
      if DependenciesHold(event, known) {
        forall r | r in relations
          ensures r.target in known && RelationFits(event, r.kind, known[r.target].event)
        {
          var i :| 0 <= i < |relations| && relations[i] == r;
          assert event.Links()[i] in event.Links() && event.Links()[i] == Link(Related(r.kind), r.target);
          RelationFitsIff(event, r.kind, r.target, known[r.target].event);
        }
      }
      if FitsItsTargets(event, known) {
        forall link | link in event.Links()
          ensures link.target in known && LinkAllowed(event, link, known[link.target].event)
        {
          var i :| 0 <= i < |relations| && event.Links()[i] == link;
          assert relations[i] in relations;
          RelationFitsIff(event, relations[i].kind, link.target, known[link.target].event);
        }
      }
    case Assess(target, _, _) => SingleLinkFits(event, known);
    case Retract(target) => SingleLinkFits(event, known);
  }

  lemma SingleLinkFits(event: Event, known: map<Id, Envelope>)
    requires !event.payload.Publish?
    ensures DependenciesHold(event, known) <==> FitsItsTargets(event, known)
  {
    assert event.Links()[0] in event.Links();
  }

  /** An event is accepted exactly when its targets fit; a refusal names exactly the targets it misses, if any. */
  lemma CheckedIff(event: Event, known: map<Id, Envelope>)
    ensures CheckDependencies(event, known).Ok? <==> FitsItsTargets(event, known)
    ensures CheckDependencies(event, known) == Err(InvalidTarget) <==>
              !FitsItsTargets(event, known) && forall id | PointsAt(event, id) :: id in known
    ensures CheckDependencies(event, known).Err? && CheckDependencies(event, known).error.MissingDependency? ==>
              forall id :: id in CheckDependencies(event, known).error.missing <==> PointsAt(event, id) && id !in known
  {
    hide LinkAllowed, FitsItsTargets, PointsAt;
    CheckDependenciesDecides(event, known);
    FitsIff(event, known);
    forall id: Id
      ensures id in event.Dependencies() <==> PointsAt(event, id)
    {
      DependenciesAreTargets(event, id);
    }
    var missing := event.Dependencies() - known.Keys;
    forall id: Id
      ensures id in missing <==> PointsAt(event, id) && id !in known
    {
    }
  }
}
