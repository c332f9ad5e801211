/** The lifecycle view as it is reported: every list in ascending order, so equal sets give equal reports. */
module KnowledgeReport {
  import opened Common
  import opened KnowledgeEvents
  import opened KnowledgeLifecycle

  /** The order of strings by their characters, a proper prefix first. */
  predicate Before(a: Id, b: Id) {
    b != "" && (a == "" || a[0] < b[0] || (a[0] == b[0] && Before(a[1..], b[1..])))
  }

  lemma {:induction false} BeforeIsTotal(a: Id, b: Id)
    ensures !Before(a, a)
    ensures Before(a, b) || Before(b, a) || a == b
  {
    if a != "" {
      BeforeIsTotal(a[1..], if b == "" then "" else b[1..]);
      if b != "" && a[0] == b[0] && a[1..] == b[1..] {
        assert a == [a[0]] + a[1..] && b == [b[0]] + b[1..];
      }
    }
  }

  lemma {:induction false} BeforeIsTransitive(a: Id, b: Id, c: Id)
    requires Before(a, b) && Before(b, c)
    ensures Before(a, c)
  {
    if a != "" && a[0] == b[0] == c[0] {
      BeforeIsTransitive(a[1..], b[1..], c[1..]);
    }
  }

  /** One id comes before another where they first differ, or as its beginning. */
  lemma {:induction false} BeforeIsLexical(a: Id, b: Id)
    ensures Before(a, b) <==>
              exists k | 0 <= k <= |a| && k < |b| :: a[..k] == b[..k] && (k == |a| || a[k] < b[k])
  {
    if Before(a, b) {
      if a == "" || a[0] < b[0] {
        assert a[..0] == b[..0];
      } else {
        BeforeIsLexical(a[1..], b[1..]);
        var k :| 0 <= k <= |a[1..]| && k < |b[1..]| && a[1..][..k] == b[1..][..k]
            && (k == |a[1..]| || a[1..][k] < b[1..][k]);
        assert a[..k + 1] == [a[0]] + a[1..][..k] && b[..k + 1] == [b[0]] + b[1..][..k];
      }
    }
    if k :| 0 <= k <= |a| && k < |b| && a[..k] == b[..k] && (k == |a| || a[k] < b[k]) {
      if 0 < k {
        assert a[0] == a[..k][0] && b[0] == b[..k][0];
        assert a[1..][..k - 1] == a[..k][1..] && b[1..][..k - 1] == b[..k][1..];
        BeforeIsLexical(a[1..], b[1..]);
      }
    }
  }

  ghost predicate Ascending(ids: seq<Id>) {
    forall i, j | 0 <= i < j < |ids| :: Before(ids[i], ids[j])
  }

  /** The one list a set is reported as. */
  ghost predicate Lists(ids: seq<Id>, s: set<Id>) {
    Ascending(ids) && forall id :: id in ids <==> id in s
  }

  lemma FirstIsLeast(ids: seq<Id>, id: Id)
    requires Ascending(ids) && id in ids
    ensures id == ids[0] || Before(ids[0], id)
    ensures id in ids[1..] <==> id != ids[0]
  {
    var i :| 0 <= i < |ids| && ids[i] == id;
    if i > 0 {
      assert ids[1..][i - 1] == id;
    }
    BeforeIsTotal(id, id);
    if id in ids[1..] {
      var j :| 0 <= j < |ids[1..]| && ids[1..][j] == id;
      assert ids[j + 1] == id;
    }
  }

  lemma {:induction false} OneListOnly(a: seq<Id>, b: seq<Id>, s: set<Id>)
    requires Lists(a, s) && Lists(b, s)
    ensures a == b
  {
    hide Before;
    FirstIsListed(a, s);
    FirstIsListed(b, s);
    if a != [] {
      FirstIsLeast(b, a[0]);
      FirstIsLeast(a, b[0]);
      NeverBoth(a[0], b[0]);
      forall id
        ensures id in a[1..] <==> id in s - {a[0]}
        ensures id in b[1..] <==> id in s - {a[0]}
      {
        Rest(a, id);
        Rest(b, id);
      }
      OneListOnly(a[1..], b[1..], s - {a[0]});
      assert a == [a[0]] + a[1..] && b == [b[0]] + b[1..];
    }
  }

  lemma FirstIsListed(ids: seq<Id>, s: set<Id>)
    requires Lists(ids, s)
    ensures ids != [] ==> ids[0] in s && ids[0] in ids
  {
  }

  lemma NeverBoth(a: Id, b: Id)
    ensures !(Before(a, b) && Before(b, a))
  {
    BeforeIsTotal(a, a);
    if Before(a, b) && Before(b, a) {
      BeforeIsTransitive(a, b, a);
    }
  }

  lemma Rest(ids: seq<Id>, id: Id)
    requires Ascending(ids) && ids != []
    ensures id in ids[1..] <==> id in ids && id != ids[0]
  {
    if id in ids {
      FirstIsLeast(ids, id);
    }
  }

  /** The place of an id among ascending ones. */
  method Insert(ids: seq<Id>, id: Id) returns (more: seq<Id>)
    requires Ascending(ids) && id !in ids
    ensures Ascending(more) && forall other :: other in more <==> other in ids || other == id
  {
    hide Before;
    var i := 0;
    while i < |ids| && Before(ids[i], id)
      invariant 0 <= i <= |ids|
      invariant forall j | 0 <= j < i :: Before(ids[j], id)
    {
      i := i + 1;
    }
    more := ids[..i] + [id] + ids[i..];
    forall j | i <= j < |ids|
      ensures Before(id, ids[j])
    {
      BeforeIsTotal(id, ids[i]);
      if j > i {
        BeforeIsTransitive(id, ids[i], ids[j]);
      }
    }
    assert ids == ids[..i] + ids[i..];
    forall j, k | 0 <= j < k < |more|
      ensures Before(more[j], more[k])
    {
      assert j < i ==> more[j] == ids[j];
      assert j > i ==> more[j] == ids[j - 1];
      assert k < i ==> more[k] == ids[k];
      assert k > i ==> more[k] == ids[k - 1];
    }
  }

  method Sort(s: set<Id>) returns (ids: seq<Id>)
    ensures Lists(ids, s)
  {
    ids := [];
    var todo := s;
    while todo != {}
      invariant todo <= s && Lists(ids, s - todo)
      decreases todo
    {
      var id :| id in todo;
      ids := Insert(ids, id);
      todo := todo - {id};
    }
  }

  // ---- Reports ------------------------------------------------------------

  datatype Report =
    | PublicationReport(status: Status, activeAssessments: seq<Id>, assessments: seq<Id>, successors: seq<Id>)
    | AssessmentReport(status: Status)

  ghost predicate Reports(report: Report, view: View) {
    match view
    case PublicationView(status, active, assessments, successors) =>
      && report.PublicationReport? && report.status == status
      && Lists(report.activeAssessments, active) && Lists(report.assessments, assessments)
      && Lists(report.successors, successors)
    case AssessmentView(status) => report == AssessmentReport(status)
  }

  ghost predicate ReportsAll(reports: map<Id, Report>, views: map<Id, View>) {
    reports.Keys == views.Keys && forall id | id in reports :: Reports(reports[id], views[id])
  }

  /** Keeps the ids of an ascending list that are in a set. */
  method Filter(ids: seq<Id>, all: set<Id>, keep: set<Id>) returns (kept: seq<Id>)
    requires Lists(ids, all) && keep <= all
    ensures Lists(kept, keep)
  {
    hide Before;
    kept := [];
    for i := 0 to |ids|
      invariant Ascending(kept) && forall id :: id in kept <==> id in ids[..i] && id in keep
      invariant forall j, id | i <= j < |ids| && id in kept :: Before(id, ids[j])
    {
      assert ids[..i + 1] == ids[..i] + [ids[i]];
      if ids[i] in keep {
        assert forall j | 0 <= j < |kept| :: kept[j] in kept;
        kept := kept + [ids[i]];
      }
    }
    assert ids[..|ids|] == ids;
  }

  /** The materialized view with every list sorted. */
  method MaterializeReport(verifies: Envelope -> bool, known: Known) returns (r: Result<map<Id, Report>, Error>)
    ensures r.Ok? <==> KnownSetValid(verifies, known)
    ensures r.Ok? ==> ReportsAll(r.value, Views(known))
  {
    var views := Materialize(verifies, known);
    if views.Err? {
      return Err(views.error);
    }
    var reports: map<Id, Report> := map[];
    var todo := views.value.Keys;
    while todo != {}
      invariant todo <= views.value.Keys && reports.Keys == views.value.Keys - todo
      invariant forall id | id in reports :: Reports(reports[id], views.value[id])
      decreases todo
    {
      hide Lists;
      var id :| id in todo;
      match views.value[id] {
        case PublicationView(status, active, assessments, successors) =>
          var reported := Sort(assessments);
          assert active <= assessments by {
            ActiveIsReported(known, id);
          }
          var live := Filter(reported, assessments, active);
          var later := Sort(successors);
          reports := reports[id := PublicationReport(status, live, reported, later)];
        case AssessmentView(status) =>
          reports := reports[id := AssessmentReport(status)];
      }
      todo := todo - {id};
    }
    r := Ok(reports);
  }

  lemma ActiveIsReported(known: Known, id: Id)
    requires id in Views(known) && Views(known)[id].PublicationView?
    ensures Views(known)[id].activeAssessments <= Views(known)[id].assessments
  {
  }

  /** The report is a function of the set: no order of arrival or iteration shows in it. */
  lemma ReportIsDetermined(views: map<Id, View>, a: map<Id, Report>, b: map<Id, Report>)
    requires ReportsAll(a, views) && ReportsAll(b, views)
    ensures a == b
  {
    hide Lists;
    forall id | id in a
      ensures a[id] == b[id]
    {
      if views[id].PublicationView? {
        OneListOnly(a[id].activeAssessments, b[id].activeAssessments, views[id].activeAssessments);
        OneListOnly(a[id].assessments, b[id].assessments, views[id].assessments);
        OneListOnly(a[id].successors, b[id].successors, views[id].successors);
      }
    }
  }
}
