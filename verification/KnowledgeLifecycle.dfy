/** The lifecycle view of a known set: what is retracted, superseded and assessed, whatever the order of arrival. */
module KnowledgeLifecycle {
  import opened Common
  import opened KnowledgeEvents
  import KnowledgeStore
  import KnowledgeTraversal

  type Known = map<Id, Envelope>

  datatype Status = Active | Retracted

  datatype View =
    | PublicationView(status: Status, activeAssessments: set<Id>, assessments: set<Id>, successors: set<Id>)
    | AssessmentView(status: Status)

  datatype Error = InvalidEvent | BadDependency(why: DependencyError)

  /** A dependency-closed dataset of verified envelopes, keyed by their hashes. */
  ghost predicate KnownSetValid(verifies: Envelope -> bool, known: Known) {
    forall id | id in known :: EntryValid(verifies, known, id)
  }

  ghost predicate EntryValid(verifies: Envelope -> bool, known: Known, id: Id)
    requires id in known
  {
    known[id].hash == id && verifies(known[id]) && DependenciesHold(known[id].event, known)
  }

  predicate Retracts(event: Event, target: Id) {
    event.payload.Retract? && event.payload.target == target
  }

  predicate Assesses(event: Event, target: Id) {
    event.payload.Assess? && event.payload.target == target
  }

  predicate Supersedes(event: Event, target: Id) {
    event.payload.Publish? && Relation(RelationKind.Supersedes, target) in event.payload.relations
  }

  ghost function Withdrawn(known: Known): set<Id> {
    set id | id in known && known[id].event.payload.Retract? :: known[id].event.payload.target
  }

  ghost function Assessments(known: Known, target: Id): set<Id> {
    set id | id in known && Assesses(known[id].event, target)
  }

  ghost function Successors(known: Known, target: Id): set<Id> {
    set id | id in known && Supersedes(known[id].event, target)
  }

  ghost function ViewOf(known: Known, id: Id): View
    requires id in known
  {
    var status := if id in Withdrawn(known) then Retracted else Active;
    if known[id].event.payload.Publish? then
      PublicationView(status, Assessments(known, id) - Withdrawn(known), Assessments(known, id), Successors(known, id))
    else AssessmentView(status)
  }

  ghost function Views(known: Known): map<Id, View> {
    map id | id in known && !known[id].event.payload.Retract? :: ViewOf(known, id)
  }

  // ---- Computing the view -------------------------------------------------

  function Entry(index: map<Id, set<Id>>, target: Id): set<Id> {
    if target in index then index[target] else {}
  }

  function Append(index: map<Id, set<Id>>, target: Id, id: Id): (r: map<Id, set<Id>>)
    ensures forall t :: Entry(r, t) == Entry(index, t) + (if t == target then {id} else {})
  {
    index[target := Entry(index, target) + {id}]
  }

  /** Adds `id` under every target its publication supersedes. */
  method AppendSuccessors(
    successors: map<Id, set<Id>>, id: Id, relations: seq<Relation>) returns (index: map<Id, set<Id>>)
    ensures forall target :: Entry(index, target) ==
              Entry(successors, target) + if Relation(RelationKind.Supersedes, target) in relations then {id} else {}
  {
    index := successors;
    for i := 0 to |relations|
      invariant forall target :: Entry(index, target) ==
                  Entry(successors, target) + if Relation(RelationKind.Supersedes, target) in relations[..i]
                      then {id} else {}
    {
      assert relations[..i + 1] == relations[..i] + [relations[i]];
      if relations[i].kind.Supersedes? {
        index := Append(index, relations[i].target, id);
      }
    }
    assert relations[..|relations|] == relations;
  }

  ghost function Restrict(known: Known, ids: set<Id>): Known {
    map id | id in known && id in ids :: known[id]
  }

  lemma IndexesOfOneMore(known: Known, id: Id, item: Envelope)
    requires id !in known
    ensures Withdrawn(known[id := item])
         == Withdrawn(known) + if item.event.payload.Retract? then {item.event.payload.target} else {}
    ensures forall target ::
              Assessments(known[id := item], target) == Assessments(known, target)
                  + (if Assesses(item.event, target) then {id} else {})
    ensures forall target ::
              Successors(known[id := item], target) == Successors(known, target)
                  + (if Supersedes(item.event, target) then {id} else {})
  {
    var more := known[id := item];
    forall target | target in Withdrawn(known)
      ensures target in Withdrawn(more)
    {
      var r :| r in known && Retracts(known[r].event, target);
      assert r in more && Retracts(more[r].event, target);
    }
    if item.event.payload.Retract? {
      assert Retracts(more[id].event, item.event.payload.target);
    }
  }

  method Indexes(known: Known)
    returns (withdrawn: set<Id>, successors: map<Id, set<Id>>, assessments: map<Id, set<Id>>)
    ensures withdrawn == Withdrawn(known)
    ensures forall target :: Entry(successors, target) == Successors(known, target)
    ensures forall target :: Entry(assessments, target) == Assessments(known, target)
  {
    withdrawn, successors, assessments := {}, map[], map[];
    var todo := known.Keys;
    ghost var done: set<Id> := {};
    while todo != {}
      invariant todo + done == known.Keys && todo !! done
      invariant withdrawn == Withdrawn(Restrict(known, done))
      invariant forall target :: Entry(successors, target) == Successors(Restrict(known, done), target)
      invariant forall target :: Entry(assessments, target) == Assessments(Restrict(known, done), target)
      decreases todo
    {
      var id :| id in todo;
      ghost var before := Restrict(known, done);
      todo, done := todo - {id}, done + {id};
      assert Restrict(known, done) == before[id := known[id]];
      IndexesOfOneMore(before, id, known[id]);
      match known[id].event.payload
      case Publish(_, _, _, _, relations) =>
        successors := AppendSuccessors(successors, id, relations);
      case Assess(target, _, _) =>
        assert forall t :: Assesses(known[id].event, t) <==> t == target;
        assessments := Append(assessments, target, id);
      case Retract(target) =>
        withdrawn := withdrawn + {target};
    }
    assert Restrict(known, done) == known;
  }

  method CheckKnownSet(verifies: Envelope -> bool, known: Known) returns (r: Result<(), Error>)
    ensures r.Ok? <==> KnownSetValid(verifies, known)
  {
    var todo := known.Keys;
    while todo != {}
      invariant todo <= known.Keys
      invariant forall id | id in known && id !in todo :: verifies(known[id]) && known[id].hash == id
      decreases todo
    {
      var id :| id in todo;
      if !verifies(known[id]) || known[id].hash != id {
        assert !EntryValid(verifies, known, id);
        return Err(InvalidEvent);
      }
      todo := todo - {id};
    }
    todo := known.Keys;
    while todo != {}
      invariant todo <= known.Keys
      invariant forall id | id in known && id !in todo :: EntryValid(verifies, known, id)
      decreases todo
    {
      var id :| id in todo;
      var checked := CheckDependencies(known[id].event, known);
      CheckDependenciesDecides(known[id].event, known);
      if checked.Err? {
        assert !EntryValid(verifies, known, id);
        return Err(BadDependency(checked.error));
      }
      todo := todo - {id};
    }
    r := Ok(());
  }

  method Materialize(verifies: Envelope -> bool, known: Known) returns (r: Result<map<Id, View>, Error>)
    ensures r.Ok? <==> KnownSetValid(verifies, known)
    ensures r.Ok? ==> r.value == Views(known)
  {
    var checked := CheckKnownSet(verifies, known);
    if checked.Err? {
      return Err(checked.error);
    }
    var withdrawn, successors, assessments := Indexes(known);
    var views: map<Id, View> := map[];
    var todo := known.Keys;
    while todo != {}
      invariant todo <= known.Keys
      invariant views.Keys == set id | id in known && id !in todo && !known[id].event.payload.Retract?
      invariant forall id | id in views :: views[id] == ViewOf(known, id)
      decreases todo
    {
      var id :| id in todo;
      var status := if id in withdrawn then Retracted else Active;
      match known[id].event.payload {
        case Publish(_, _, _, _, _) =>
          var reports := Entry(assessments, id);
          views := views[id := PublicationView(status, reports - withdrawn, reports, Entry(successors, id))];
        case Assess(_, _, _) =>
          views := views[id := AssessmentView(status)];
        case Retract(_) =>
      }
      todo := todo - {id};
    }
    assert views == Views(known);
    r := Ok(views);
  }

  // ---- Convergence --------------------------------------------------------

  ghost predicate Agree(a: Known, b: Known) {
    forall id | id in a && id in b :: a[id] == b[id]
  }

  ghost predicate IsRetracted(views: map<Id, View>, id: Id) {
    id in views && views[id].status == Retracted
  }

  ghost function ViewAssessments(views: map<Id, View>, id: Id): set<Id> {
    if id in views && views[id].PublicationView? then views[id].assessments else {}
  }

  ghost function ViewSuccessors(views: map<Id, View>, id: Id): set<Id> {
    if id in views && views[id].PublicationView? then views[id].successors else {}
  }

  /** Retracted if either says so; reports and successors united; active reports are those neither side retracts. */
  ghost function JoinAt(a: map<Id, View>, b: map<Id, View>, id: Id): View
    requires id in a || id in b
  {
    var status := if IsRetracted(a, id) || IsRetracted(b, id) then Retracted else Active;
    var reports := ViewAssessments(a, id) + ViewAssessments(b, id);
    if (if id in a then a[id] else b[id]).PublicationView? then
      PublicationView(status, (set r | r in reports && !IsRetracted(a, r) && !IsRetracted(b, r)), reports,
                      ViewSuccessors(a, id) + ViewSuccessors(b, id))
    else AssessmentView(status)
  }

  ghost function Join(a: map<Id, View>, b: map<Id, View>): map<Id, View> {
    map id | id in a.Keys + b.Keys :: JoinAt(a, b, id)
  }

  /** In a valid set, what an event points at is in the set, and a retraction never points at a retraction. */
  lemma TargetsAreKnown(verifies: Envelope -> bool, known: Known, id: Id, target: Id)
    requires KnownSetValid(verifies, known) && id in known
    requires Retracts(known[id].event, target) || Assesses(known[id].event, target)
              || Supersedes(known[id].event, target)
    ensures target in known && !known[target].event.payload.Retract?
    ensures !Retracts(known[id].event, target) ==> known[target].event.payload.Publish?
  {
    assert EntryValid(verifies, known, id);
    var event := known[id].event;
    if Supersedes(event, target) {
      var relations := event.payload.relations;
      var i :| 0 <= i < |relations| && relations[i] == Relation(RelationKind.Supersedes, target);
      assert event.Links()[i] == Link(Related(RelationKind.Supersedes), target);
      assert Link(Related(RelationKind.Supersedes), target) in event.Links();
    } else {
      assert event.Links()[0].target == target;
      assert event.Links()[0] in event.Links();
    }
  }

  lemma RetractedIsWithdrawn(verifies: Envelope -> bool, known: Known, id: Id)
    requires KnownSetValid(verifies, known)
    ensures IsRetracted(Views(known), id) <==> id in Withdrawn(known)
  {
    if id in Withdrawn(known) {
      var r :| r in known && Retracts(known[r].event, id);
      TargetsAreKnown(verifies, known, r, id);
    }
  }

  lemma AbsentHasNoReports(verifies: Envelope -> bool, known: Known, id: Id)
    requires KnownSetValid(verifies, known)
    requires id !in known || !known[id].event.payload.Publish?
    ensures Assessments(known, id) == {} && Successors(known, id) == {}
  {
    forall other | other in known
      ensures !Assesses(known[other].event, id) && !Supersedes(known[other].event, id)
    {
      if Assesses(known[other].event, id) || Supersedes(known[other].event, id) {
        TargetsAreKnown(verifies, known, other, id);
      }
    }
  }

  lemma UnionIsValid(verifies: Envelope -> bool, a: Known, b: Known)
    requires KnownSetValid(verifies, a) && KnownSetValid(verifies, b) && Agree(a, b)
    ensures KnownSetValid(verifies, a + b)
  {
  }

  lemma UnionIndexes(a: Known, b: Known, target: Id)
    requires Agree(a, b)
    ensures Withdrawn(a + b) == Withdrawn(a) + Withdrawn(b)
    ensures Assessments(a + b, target) == Assessments(a, target) + Assessments(b, target)
    ensures Successors(a + b, target) == Successors(a, target) + Successors(b, target)
  {
  }

  // ---- Who may retract ----------------------------------------------------

  /** In a valid set, only the author of an event retracts it, and only with a later nonce. */
  lemma RetractionIsItsAuthors(verifies: Envelope -> bool, known: Known, id: Id, target: Id)
    requires KnownSetValid(verifies, known) && id in known && Retracts(known[id].event, target)
    ensures target in known && !known[target].event.payload.Retract?
    ensures known[target].event.actor == known[id].event.actor
    ensures known[target].event.nonce < known[id].event.nonce
  {
    assert EntryValid(verifies, known, id);
    FitsIff(known[id].event, known);
  }

  /** Whether the author of an event has retracted it. */
  ghost predicate RetractedByAuthor(known: Known, id: Id)
    requires id in known
  {
    exists r | r in known ::
      && known[r].event.payload == Retract(id)
      && known[r].event.actor == known[id].event.actor && known[id].event.nonce < known[r].event.nonce
  }

  /** What a view shows as retracted is exactly what its own author has retracted. */
  lemma RetractedIff(verifies: Envelope -> bool, known: Known, id: Id)
    requires KnownSetValid(verifies, known) && id in Views(known)
    ensures Views(known)[id].status == Retracted <==> RetractedByAuthor(known, id)
  {
    if Views(known)[id].status == Retracted {
      var r :| r in known && Retracts(known[r].event, id);
      RetractionIsItsAuthors(verifies, known, r, id);
      assert known[r].event.payload == Retract(id);
    }
    if RetractedByAuthor(known, id) {
      var r :| r in known && known[r].event.payload == Retract(id);
      assert Retracts(known[r].event, id);
    }
  }

  /** A view lists the known assessments of a publication; active are those their own assessor has not retracted. */
  lemma ListedAssessments(verifies: Envelope -> bool, known: Known, id: Id, a: Id)
    requires KnownSetValid(verifies, known) && id in Views(known) && Views(known)[id].PublicationView?
    ensures a in Views(known)[id].assessments <==>
              a in known && known[a].event.payload.Assess? && known[a].event.payload.target == id
    ensures a in Views(known)[id].activeAssessments <==>
              a in Views(known)[id].assessments && !RetractedByAuthor(known, a)
    ensures a in Views(known)[id].successors ==>
              && a in known && known[a].event.payload.Publish?
              && known[a].event.actor == known[id].event.actor && known[id].event.nonce < known[a].event.nonce
  {
    hide KnownSetValid;
    if a in Views(known)[id].assessments {
      RetractedIff(verifies, known, a);
    }
    if a in Views(known)[id].successors {
      SupersedingStepsBack(verifies, known, a, id);
    }
  }

  lemma ViewSetsAreIndexes(verifies: Envelope -> bool, known: Known, id: Id)
    requires KnownSetValid(verifies, known)
    ensures ViewAssessments(Views(known), id) == Assessments(known, id)
    ensures ViewSuccessors(Views(known), id) == Successors(known, id)
  {
    if id !in known || !known[id].event.payload.Publish? {
      AbsentHasNoReports(verifies, known, id);
    }
  }

  lemma JoinAtIsView(verifies: Envelope -> bool, a: Known, b: Known, id: Id)
    requires KnownSetValid(verifies, a) && KnownSetValid(verifies, b) && Agree(a, b)
    requires id in Views(a + b)
    ensures id in Views(a) || id in Views(b)
    ensures Views(a + b)[id] == JoinAt(Views(a), Views(b), id)
  {
    UnionIndexes(a, b, id);
    RetractedIsWithdrawn(verifies, a, id);
    RetractedIsWithdrawn(verifies, b, id);
    ViewSetsAreIndexes(verifies, a, id);
    ViewSetsAreIndexes(verifies, b, id);
    var view, joined := Views(a + b)[id], JoinAt(Views(a), Views(b), id);
    if joined.PublicationView? {
      forall r
        ensures r in view.activeAssessments <==> r in joined.activeAssessments
      {
        RetractedIsWithdrawn(verifies, a, r);
        RetractedIsWithdrawn(verifies, b, r);
      }
    }
  }

  /** Two replicas that agree on their common events: the union is valid, and its view is the join of the views. */
  lemma ViewsConverge(verifies: Envelope -> bool, a: Known, b: Known)
    requires KnownSetValid(verifies, a) && KnownSetValid(verifies, b) && Agree(a, b)
    ensures KnownSetValid(verifies, a + b)
    ensures Views(a + b) == Join(Views(a), Views(b))
    ensures Views(a + b) == Views(b + a)
  {
    UnionIsValid(verifies, a, b);
    forall id | id in Views(a + b)
      ensures id in Views(a) || id in Views(b)
      ensures Views(a + b)[id] == JoinAt(Views(a), Views(b), id)
    {
      JoinAtIsView(verifies, a, b, id);
    }
    assert Views(a + b).Keys == Views(a).Keys + Views(b).Keys;
    assert a + b == b + a;
  }

  /** With ids that bind, valid sets never disagree, so any two of them converge. */
  lemma ValidSetsConverge(verifies: Envelope -> bool, a: Known, b: Known)
    requires KnownSetValid(verifies, a) && KnownSetValid(verifies, b)
    requires forall x: Envelope, y: Envelope | verifies(x) && verifies(y) && x.hash == y.hash :: x == y
    ensures Agree(a, b) && KnownSetValid(verifies, a + b) && Views(a + b) == Join(Views(a), Views(b))
  {
    forall id | id in a && id in b
      ensures a[id] == b[id]
    {
      assert EntryValid(verifies, a, id) && EntryValid(verifies, b, id);
    }
    hide KnownSetValid;
    ViewsConverge(verifies, a, b);
  }

  /** A growing set never reactivates: retractions stay, reports and successors only accumulate. */
  lemma ViewsOnlyGrow(verifies: Envelope -> bool, small: Known, large: Known, id: Id)
    requires KnownSetValid(verifies, small) && KnownSetValid(verifies, large)
    requires small.Keys <= large.Keys && Agree(small, large) && id in Views(small)
    ensures id in Views(large)
    ensures var v, w := Views(small)[id], Views(large)[id];
      && (v.status == Retracted ==> w.status == Retracted)
      && (v.PublicationView? <==> w.PublicationView?)
      && (v.PublicationView? ==>
            && v.assessments <= w.assessments && v.successors <= w.successors
            && (v.assessments - v.activeAssessments) !! w.activeAssessments)
  {
  }

  // ---- Supersedes chains --------------------------------------------------

  ghost predicate Chain(known: Known, path: seq<Id>) {
    && (forall i | 0 <= i < |path| :: path[i] in known)
    && forall i, j | 0 <= i < j < |path| && j == i + 1 :: Supersedes(known[path[i]].event, path[j])
  }

  lemma SupersedingStepsBack(verifies: Envelope -> bool, known: Known, id: Id, target: Id)
    requires KnownSetValid(verifies, known) && id in known && Supersedes(known[id].event, target)
    ensures target in known && known[target].event.actor == known[id].event.actor
    ensures known[target].event.nonce < known[id].event.nonce
  {
    assert EntryValid(verifies, known, id);
    var event := known[id].event;
    var i :| 0 <= i < |event.payload.relations|
        && event.payload.relations[i] == Relation(RelationKind.Supersedes, target);
    assert event.Links()[i] in event.Links();
  }

  /** Along a supersedes chain the author never changes and the nonce falls, so no chain returns to its start. */
  lemma {:induction false} ChainsDescend(verifies: Envelope -> bool, known: Known, path: seq<Id>, i: nat, j: nat)
    requires KnownSetValid(verifies, known) && Chain(known, path) && i < j < |path|
    ensures known[path[j]].event.actor == known[path[i]].event.actor
    ensures known[path[j]].event.nonce + (j - i) <= known[path[i]].event.nonce
    ensures path[i] != path[j]
    decreases j
  {
    SupersedingStepsBack(verifies, known, path[j - 1], path[j]);
    if i < j - 1 {
      ChainsDescend(verifies, known, path, i, j - 1);
    }
  }

  // ---- The repository's own events ----------------------------------------

  /** An id is a hash of the signed event, so verified envelopes with one id are one envelope. */
  ghost predicate HashBinds(svc: KnowledgeStore.Service) {
    forall a: Envelope, b: Envelope | svc.verifies(a) && svc.verifies(b) && a.hash == b.hash :: a == b
  }

  /** What an event needed of its targets when it was accepted, whether they are still retained or not. */
  ghost predicate HadItsTargets(svc: KnowledgeStore.Service, event: Event) {
    exists known: Known ::
      && (forall id | id in known :: svc.verifies(known[id]) && known[id].hash == id) && FitsItsTargets(event, known)
  }

  ghost predicate AllHadTheirTargets(svc: KnowledgeStore.Service, s: KnowledgeStore.State) {
    forall id | id in s.records :: HadItsTargets(svc, s.records[id].envelope.event)
  }

  lemma ApplyHadTheirTargets(svc: KnowledgeStore.Service, s: KnowledgeStore.State, op: KnowledgeStore.Op)
    requires KnowledgeStore.Inv(svc, s) && AllHadTheirTargets(svc, s)
    ensures AllHadTheirTargets(svc, KnowledgeStore.Apply(svc, s, op))
  {
    hide FitsItsTargets, CheckDependencies, HadItsTargets, KnowledgeStore.Inv;
    if op.Submit? {
      KnowledgeStore.AcceptedIff(svc, s, op.item, op.now);
      if KnowledgeStore.Apply(svc, s, op) != s {
        FitsRetained(svc, s, op.item.event);
      }
    }
  }

  lemma {:induction false} RunHadTheirTargets(
    svc: KnowledgeStore.Service, s: KnowledgeStore.State, ops: seq<KnowledgeStore.Op>)
    requires KnowledgeStore.Inv(svc, s) && AllHadTheirTargets(svc, s)
    ensures AllHadTheirTargets(svc, KnowledgeStore.Run(svc, s, ops))
    decreases |ops|
  {
    hide AllHadTheirTargets, KnowledgeStore.Apply, KnowledgeStore.Inv;
    if ops != [] {
      KnowledgeStore.ApplyKeepsInv(svc, s, ops[0]);
      ApplyHadTheirTargets(svc, s, ops[0]);
      RunHadTheirTargets(svc, KnowledgeStore.Apply(svc, s, ops[0]), ops[1..]);
    }
  }

  lemma FitsRetained(svc: KnowledgeStore.Service, s: KnowledgeStore.State, event: Event)
    requires KnowledgeStore.Inv(svc, s) && FitsItsTargets(event, KnowledgeStore.Envelopes(s))
    ensures HadItsTargets(svc, event)
  {
    hide FitsItsTargets;
    var known := KnowledgeStore.Envelopes(s);
    assert forall id | id in known :: svc.verifies(known[id]) && known[id].hash == id;
  }

  /**
   * In a repository after any run, pruning included, a retained retraction of a retained event is by its author, with
   * a later nonce, and so is a publication that supersedes one.
   */
  lemma RepositoryLinksFit(
    svc: KnowledgeStore.Service, ops: seq<KnowledgeStore.Op>, a: KnowledgeStore.Record, b: KnowledgeStore.Record)
    requires HashBinds(svc)
    requires var s := KnowledgeStore.Run(svc, KnowledgeStore.EMPTY, ops);
      && a.envelope.hash in s.records && s.records[a.envelope.hash] == a
      && b.envelope.hash in s.records && s.records[b.envelope.hash] == b
    ensures var event, target := a.envelope.event, b.envelope.event;
      && (event.payload == Retract(b.envelope.hash) || Supersedes(event, b.envelope.hash) ==>
            event.actor == target.actor && target.nonce < event.nonce && !target.payload.Retract?)
      && (Assesses(event, b.envelope.hash) ==> target.payload.Publish?)
      && (event.payload.Publish? ==>
            forall r | r in event.payload.relations && r.target == b.envelope.hash ::
              RelationFits(event, r.kind, target))
  {
    hide RelationFits;
    KnowledgeStore.RunKeepsInv(svc, KnowledgeStore.EMPTY, ops);
    RunHadTheirTargets(svc, KnowledgeStore.EMPTY, ops);
    var known: Known :| (forall id | id in known :: svc.verifies(known[id]) && known[id].hash == id)
                        && FitsItsTargets(a.envelope.event, known);
    var id := b.envelope.hash;
    if id in known {
      assert known[id] == b.envelope;
    }
    if Supersedes(a.envelope.event, id) {
      assert Relation(RelationKind.Supersedes, id) in a.envelope.event.payload.relations;
      RelationFitsIff(a.envelope.event, RelationKind.Supersedes, id, b.envelope.event);
    }
  }

  /** Whatever a repository accepted without pruning can be materialized, with no further checks failing. */
  lemma RepositoryIsAKnownSet(svc: KnowledgeStore.Service, ops: seq<KnowledgeStore.Op>)
    requires forall i | 0 <= i < |ops| :: !ops[i].Prune?
    ensures KnownSetValid(svc.verifies, KnowledgeStore.Envelopes(KnowledgeStore.Run(svc, KnowledgeStore.EMPTY, ops)))
  {
    var s := KnowledgeStore.Run(svc, KnowledgeStore.EMPTY, ops);
    KnowledgeStore.RunKeepsInv(svc, KnowledgeStore.EMPTY, ops);
    KnowledgeTraversal.RunStaysClosed(svc, KnowledgeStore.EMPTY, ops);
    forall id | id in KnowledgeStore.Envelopes(s)
      ensures EntryValid(svc.verifies, KnowledgeStore.Envelopes(s), id)
    {
      assert KnowledgeTraversal.TargetsBefore(s, s.records[id]);
    }
  }

  /** Without pruning, a retained retraction finds its target retained, of the same author and with a smaller nonce. */
  lemma UnprunedRetractions(svc: KnowledgeStore.Service, ops: seq<KnowledgeStore.Op>, id: Id, target: Id)
    requires forall i | 0 <= i < |ops| :: !ops[i].Prune?
    requires var known := KnowledgeStore.Envelopes(KnowledgeStore.Run(svc, KnowledgeStore.EMPTY, ops));
      id in known && known[id].event.payload == Retract(target)
    ensures var known := KnowledgeStore.Envelopes(KnowledgeStore.Run(svc, KnowledgeStore.EMPTY, ops));
      && target in known && !known[target].event.payload.Retract?
      && known[target].event.actor == known[id].event.actor && known[target].event.nonce < known[id].event.nonce
      && Views(known)[target].status == Retracted
  {
    RepositoryIsAKnownSet(svc, ops);
    var known := KnowledgeStore.Envelopes(KnowledgeStore.Run(svc, KnowledgeStore.EMPTY, ops));
    hide KnownSetValid, KnowledgeStore.Run;
    RetractionIsItsAuthors(svc.verifies, known, id, target);
    RetractedIff(svc.verifies, known, target);
  }
}
