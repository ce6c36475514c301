/**
 * The breadcrumb trail of the dashboard layout (components/common/breadcrumb.tsx):
 * a Home crumb, then one crumb per segment of the pathname, each linking to the
 * path up to its segment and labelled from a fixed table or by capitalising
 * the segment. A trail of Home alone is not rendered.
 */
module Breadcrumbs {
  import opened Wrappers
  import opened Seqs
  import opened Text

  /** A crumb: its label (`title`) and its link. */
  datatype Crumb = Crumb(title: string, href: string)

  const HOME := Crumb("Home", "/")

  /** The labels of the known routes. */
  const LABELS: map<string, string> := map[
    "/dashboard" := "Dashboard",
    "/dashboard/admin" := "Admin Dashboard",
    "/dashboard/admin/users" := "Manage Users",
    "/dashboard/admin/hierarchy" := "Assign Hierarchy",
    "/dashboard/admin/peer-assignment" := "Assign Peers",
    "/dashboard/hr-development" := "HR Development",
    "/dashboard/hr-development/jobs" := "Jobs",
    "/dashboard/hr-development/job-matching" := "Job-Person Matching",
    "/dashboard/hr-development/competencies" := "Competencies",
    "/dashboard/hr-development/employee-competencies" := "Employee Competencies",
    "/dashboard/hr-development/resignation" := "Resignation Prediction",
    "/dashboard/hr-assessment" := "HR Assessment",
    "/dashboard/hr-assessment/assessments" := "Create Assessment",
    "/dashboard/hr-assessment/results" := "Assessment Results",
    "/dashboard/hr-assessment/summary" := "Summary Results",
    "/dashboard/employee" := "Employee Dashboard",
    "/dashboard/employee/person-matching" := "Person-Job Matching",
    "/dashboard/employee/assessment-results" := "Assessment Results",
    "/dashboard/employee/assessment" := "Assessment",
    "/dashboard/employee/riwayat" := "Riwayat",
    "/dashboard/user-management" := "User Management",
    "/dashboard/user-management/job-person-matches" := "Job-Person Matches",
    "/dashboard/user-management/person-job-matches" := "Person-Job Matches",
    "/dashboard/user-management/training-recommendations" := "Training Recommendations"
  ]

  /** The `filter(Boolean)` test on a piece of the path. */
  function NonEmpty(): string -> bool
  {
    (piece: string) => piece != ""
  }

  /** `pathname.split("/").filter(Boolean)`: the non-empty pieces between slashes. */
  function Segments(pathname: string): (r: seq<string>)
    ensures forall i :: 0 <= i < |r| ==> r[i] != "" && '/' !in r[i]
  {
    var pieces := Split(pathname, '/');
    forall i | 0 <= i < |Filter(pieces, NonEmpty())|
      ensures '/' !in Filter(pieces, NonEmpty())[i]
    {
      var x := Filter(pieces, NonEmpty())[i];
      var k :| 0 <= k < |pieces| && pieces[k] == x;
    }
    Filter(pieces, NonEmpty())
  }

  /** The path of the segments: a slash before each. */
  function Href(segments: seq<string>): string
  {
    if segments == [] then "" else "/" + segments[0] + Href(segments[1..])
  }

  /** `currentPath += "/" + segment`: one more segment extends the path by a slash and the segment. */
  lemma {:induction false} HrefAppend(segments: seq<string>, segment: string)
    ensures Href(segments + [segment]) == Href(segments) + "/" + segment
  {
    if segments == [] {
      assert [segment][1..] == [];
    } else {
      assert (segments + [segment])[1..] == segments[1..] + [segment];
      HrefAppend(segments[1..], segment);
    }
  }

  /** `breadcrumbMap[currentPath] || capitalised segment`; every label in the table is non-empty. */
  function Label(labels: map<string, string>, path: string, segment: string): string
  {
    if path in labels then labels[path] else Capitalize(segment)
  }

  /** The trail for the segments: Home, then a crumb per segment for the path up to it. */
  function Trail(labels: map<string, string>, segments: seq<string>): (r: seq<Crumb>)
    ensures |r| == |segments| + 1 && r[0] == HOME
  {
    if segments == [] then [HOME]
    else
      var n := |segments| - 1;
      var path := Href(segments);
      Trail(labels, segments[..n]) + [Crumb(Label(labels, path, segments[n]), path)]
  }

  /** One more segment adds one crumb, for the extended path. */
  lemma TrailStep(labels: map<string, string>, segments: seq<string>, segment: string)
    ensures var path := Href(segments) + "/" + segment;
            Trail(labels, segments + [segment]) == Trail(labels, segments) + [Crumb(Label(labels, path, segment), path)]
  {
    HrefAppend(segments, segment);
    assert (segments + [segment])[..|segments|] == segments;
  }

  /**
   * Crumb k links to the path of the first k segments, with that path's label
   * from the table or else the k-th segment capitalised.
   */
  lemma {:induction false} TrailShape(labels: map<string, string>, segments: seq<string>)
    ensures forall k :: 1 <= k <= |segments| ==>
              Trail(labels, segments)[k] == Crumb(Label(labels, Href(segments[..k]), segments[k - 1]), Href(segments[..k]))
  {
    if segments != [] {
      var n := |segments| - 1;
      TrailShape(labels, segments[..n]);
      forall k | 1 <= k <= n
        ensures segments[..n][..k] == segments[..k] && segments[..n][k - 1] == segments[k - 1]
      {
      }
      assert segments[..n + 1] == segments;
    }
  }

  /** Crumb k links to the path of the first k segments. */
  lemma {:induction false} TrailHrefs(labels: map<string, string>, segments: seq<string>)
    ensures forall k :: 1 <= k <= |segments| ==> Trail(labels, segments)[k].href == Href(segments[..k])
  {
    if segments != [] {
      var n := |segments| - 1;
      TrailHrefs(labels, segments[..n]);
      forall k | 1 <= k <= n
        ensures segments[..n][..k] == segments[..k]
      {
      }
      assert segments[..n + 1] == segments;
    }
  }

  /** Each crumb's link extends the one before it by a slash and its own segment. */
  lemma CrumbsExtendEachOther(labels: map<string, string>, segments: seq<string>, k: int)
    requires 1 <= k < |segments|
    ensures Trail(labels, segments)[k + 1].href == Trail(labels, segments)[k].href + "/" + segments[k]
  {
    assert Trail(labels, segments)[k + 1].href == Href(segments[..k + 1]) && Trail(labels, segments)[k].href == Href(segments[..k]) by {
      TrailHrefs(labels, segments);
    }
    assert segments[..k + 1] == segments[..k] + [segments[k]];
    HrefAppend(segments[..k], segments[k]);
  }

  /** What the component renders: nothing for a trail of Home alone. */
  function Rendered(labels: map<string, string>, pathname: string): Option<seq<Crumb>>
  {
    var trail := Trail(labels, Segments(pathname));
    if |trail| <= 1 then None else Some(trail)
  }

  /** The trail is rendered exactly when the pathname has a character other than a slash. */
  lemma RenderedIffContent(labels: map<string, string>, pathname: string)
    ensures Rendered(labels, pathname).Some? <==> exists i :: 0 <= i < |pathname| && pathname[i] != '/'
  {
    var pieces := Split(pathname, '/');
    SplitHasContent(pathname, '/');
    if exists k :: 0 <= k < |pieces| && pieces[k] != [] {
      var k :| 0 <= k < |pieces| && pieces[k] != [];
      FilterMembership(pieces, NonEmpty(), pieces[k]);
    }
  }

  /** Splitting a piece followed by the path of some segments gives the piece, then the segments. */
  lemma {:induction false} SplitHref(piece: string, segments: seq<string>)
    requires '/' !in piece
    requires forall i :: 0 <= i < |segments| ==> '/' !in segments[i]
    ensures Split(piece + Href(segments), '/') == [piece] + segments
    decreases segments
  {
    if segments == [] {
      assert piece + Href(segments) == piece;
      SplitWithoutSeparator(piece, '/');
    } else {
      var rest := segments[0] + Href(segments[1..]);
      assert piece + Href(segments) == piece + ['/'] + rest;
      SplitAfterPiece(piece, '/', rest);
      SplitHref(segments[0], segments[1..]);
      assert [segments[0]] + segments[1..] == segments;
    }
  }

  /** The segments of the path of non-empty, slash-free segments are those segments. */
  lemma SegmentsOfHref(segments: seq<string>)
    requires forall i :: 0 <= i < |segments| ==> segments[i] != "" && '/' !in segments[i]
    ensures Segments(Href(segments)) == segments
  {
    assert Split(Href(segments), '/') == [""] + segments by {
      SplitHref("", segments);
      assert "" + Href(segments) == Href(segments);
    }
    FilterConcat([""], segments, NonEmpty());
    FilterKeepsAll(segments, NonEmpty());
    assert Filter([""], NonEmpty()) == [];
  }

  /** The last crumb of a page's trail links to the page's own path. */
  lemma LastCrumbIsPage(labels: map<string, string>, segments: seq<string>)
    requires segments != []
    requires forall i :: 0 <= i < |segments| ==> segments[i] != "" && '/' !in segments[i]
    ensures Rendered(labels, Href(segments)) == Some(Trail(labels, segments))
    ensures Trail(labels, segments)[|segments|].href == Href(segments)
  {
    SegmentsOfHref(segments);
    assert Trail(labels, segments)[|segments|].href == Href(segments[..|segments|]) by {
      TrailHrefs(labels, segments);
    }
    assert segments[..|segments|] == segments;
  }

  /** The trail-building loop over the segments, accumulating `currentPath`. */
  method BuildBreadcrumbs(pathname: string) returns (crumbs: Option<seq<Crumb>>)
    ensures crumbs == Rendered(LABELS, pathname)
  {
    var segments := Segments(pathname);
    var trail := [HOME];
    var currentPath := "";
    for i := 0 to |segments|
      invariant currentPath == Href(segments[..i])
      invariant trail == Trail(LABELS, segments[..i])
    {
      assert segments[..i + 1] == segments[..i] + [segments[i]];
      TrailStep(LABELS, segments[..i], segments[i]);
      HrefAppend(segments[..i], segments[i]);
      currentPath := currentPath + "/" + segments[i];
      trail := trail + [Crumb(Label(LABELS, currentPath, segments[i]), currentPath)];
    }
    assert segments[..|segments|] == segments;
    if |trail| <= 1 {
      return None;
    }
    crumbs := Some(trail);
  }
}
