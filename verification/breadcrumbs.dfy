/** The breadcrumb trail: `createBreadcrumbs` turns a path into a home item
    followed by one item per path segment, each linking to the path up to
    it, and the trail component shows the last item as the current page. */
module Breadcrumbs {
  import opened Wrappers
  import opened Text

  /** A trail item (`name` is its `label`); `homeIcon` stands for the home
      icon the first item carries. */
  datatype BreadcrumbItem = BreadcrumbItem(name: string, href: Option<string>, current: bool, homeIcon: bool)

  const HomeHref := "/dashboard"
  const HomeLabel := "ホーム"

  /** `customLabels?.[key] || fallback`: a custom label counts when present
      and non-empty (no labels at all is the empty map). */
  function LabelFor(customLabels: map<string, string>, key: string, fallback: string): (r: string)
    ensures key in customLabels && customLabels[key] != "" ==> r == customLabels[key]
    ensures !(key in customLabels && customLabels[key] != "") ==> r == fallback
  {
    if key in customLabels && customLabels[key] != "" then customLabels[key] else fallback
  }

  /** `segment.charAt(0).toUpperCase() + segment.slice(1)`. */
  function Capitalize(segment: string): (r: string)
    ensures |r| == |segment|
    ensures segment != "" ==> r[0] == UpperChar(segment[0]) && r[1..] == segment[1..]
  {
    if segment == "" then "" else [UpperChar(segment[0])] + segment[1..]
  }

  /** `.filter(Boolean)` on strings: the non-empty ones, in order. */
  function NonEmpty(parts: seq<string>): (r: seq<string>)
    ensures forall x :: x in r <==> x in parts && x != ""
    ensures forall i :: 0 <= i < |r| ==> r[i] != "" && r[i] in parts
  {
    if parts == [] then []
    else (if parts[0] == "" then [] else [parts[0]]) + NonEmpty(parts[1..])
  }

  lemma {:induction false} NonEmptyConcat(a: seq<string>, b: seq<string>)
    ensures NonEmpty(a + b) == NonEmpty(a) + NonEmpty(b)
    decreases |a|
  {
    if a == [] {
      assert a + b == b;
    } else {
      assert (a + b)[1..] == a[1..] + b;
      NonEmptyConcat(a[1..], b);
    }
  }

  /** `path.split('/').filter(Boolean)`: the path's segments. */
  function Segments(path: string): seq<string> {
    NonEmpty(Split(path, '/'))
  }

  /** Every segment is a non-empty name without '/'. */
  lemma SegmentsAreNames(path: string)
    ensures forall i :: 0 <= i < |Segments(path)| ==> Segments(path)[i] != "" && '/' !in Segments(path)[i]
  {
  }

  /** The cumulative path of some segments: each one preceded by '/'. */
  function JoinPath(segments: seq<string>): string {
    if segments == [] then "" else JoinPath(segments[..|segments| - 1]) + "/" + segments[|segments| - 1]
  }

  function HomeItem(customLabels: map<string, string>): BreadcrumbItem {
    BreadcrumbItem(LabelFor(customLabels, "", HomeLabel), Some(HomeHref), false, true)
  }

  /** The item of segment `index`: linked to the path up to it unless it is
      the last, which is the current page. */
  function SegmentItem(customLabels: map<string, string>, segments: seq<string>, index: nat): BreadcrumbItem
    requires index < |segments|
  {
    var isLast := index == |segments| - 1;
    BreadcrumbItem(
      LabelFor(customLabels, segments[index], Capitalize(segments[index])),
      if isLast then None else Some(JoinPath(segments[..index + 1])),
      isLast,
      false)
  }

  /** The trail for a list of segments. */
  function Trail(customLabels: map<string, string>, segments: seq<string>): seq<BreadcrumbItem> {
    [HomeItem(customLabels)] + seq(|segments|, i requires 0 <= i < |segments| => SegmentItem(customLabels, segments, i))
  }

  /** `createBreadcrumbs`: the home item, then one item per segment, pushed
      in turn while the cumulative path grows. */
  method CreateBreadcrumbs(path: string, customLabels: map<string, string>) returns (breadcrumbs: seq<BreadcrumbItem>)
    ensures breadcrumbs == Trail(customLabels, Segments(path))
  {
    var segments := Segments(path);
    breadcrumbs := [HomeItem(customLabels)];
    var currentPath := "";
    var index := 0;
    while index < |segments|
      invariant 0 <= index <= |segments|
      invariant currentPath == JoinPath(segments[..index])
      invariant |breadcrumbs| == index + 1 && breadcrumbs[0] == HomeItem(customLabels)
      invariant forall i :: 1 <= i <= index ==> breadcrumbs[i] == SegmentItem(customLabels, segments, i - 1)
    {
      var segment := segments[index];
      StepItem(customLabels, segments, index, currentPath);
      currentPath := currentPath + "/" + segment;
      var isLast := index == |segments| - 1;
      var item := BreadcrumbItem(
        LabelFor(customLabels, segment, Capitalize(segment)),
        if isLast then None else Some(currentPath),
        isLast,
        false);
      breadcrumbs := Pushed(customLabels, segments, breadcrumbs, item);
      index := index + 1;
    }
    TrailByItems(customLabels, segments, breadcrumbs);
  }

  /** The next segment's item, built from the cumulative path so far. */
  lemma StepItem(customLabels: map<string, string>, segments: seq<string>, index: nat, currentPath: string)
    requires index < |segments| && currentPath == JoinPath(segments[..index])
    ensures JoinPath(segments[..index + 1]) == currentPath + "/" + segments[index]
    ensures var isLast := index == |segments| - 1;
      SegmentItem(customLabels, segments, index)
        == BreadcrumbItem(
             LabelFor(customLabels, segments[index], Capitalize(segments[index])),
             if isLast then None else Some(currentPath + "/" + segments[index]),
             isLast,
             false)
  {
    assert segments[..index + 1][..index] == segments[..index];
  }

  /** Pushing the item of the next segment onto the items so far. */
  function Pushed(customLabels: map<string, string>, segments: seq<string>, items: seq<BreadcrumbItem>, item: BreadcrumbItem): (r: seq<BreadcrumbItem>)
    requires 1 <= |items| <= |segments|
    requires forall i :: 1 <= i < |items| ==> items[i] == SegmentItem(customLabels, segments, i - 1)
    requires item == SegmentItem(customLabels, segments, |items| - 1)
    ensures |r| == |items| + 1 && r[0] == items[0]
    ensures forall i :: 1 <= i < |r| ==> r[i] == SegmentItem(customLabels, segments, i - 1)
  {
    items + [item]
  }

  /** A home item followed by each segment's item is the trail. */
  lemma TrailByItems(customLabels: map<string, string>, segments: seq<string>, items: seq<BreadcrumbItem>)
    requires |items| == |segments| + 1 && items[0] == HomeItem(customLabels)
    requires forall i :: 1 <= i <= |segments| ==> items[i] == SegmentItem(customLabels, segments, i - 1)
    ensures items == Trail(customLabels, segments)
  {
  }

  /** What the trail holds: one more item than there are segments; the home
      item first; then per segment its custom or capitalised label, a link to
      the cumulative path for all but the last, and the current flag on the
      last alone. */
  lemma TrailShape(customLabels: map<string, string>, segments: seq<string>, i: nat)
    requires 1 <= i <= |segments|
    ensures var t := Trail(customLabels, segments);
      && |t| == |segments| + 1
      && t[0].name == LabelFor(customLabels, "", HomeLabel) && t[0].href == Some(HomeHref) && !t[0].current
      && t[i].name == LabelFor(customLabels, segments[i - 1], Capitalize(segments[i - 1]))
      && (t[i].current <==> i == |t| - 1)
      && (t[i].href.None? <==> i == |t| - 1)
      && (i < |t| - 1 ==> t[i].href == Some(JoinPath(segments[..i])))
  {
    var t := Trail(customLabels, segments);
    assert t[i] == SegmentItem(customLabels, segments, i - 1);
  }

  /** Each link extends the one before it by a slash and the next segment. */
  lemma HrefsNest(customLabels: map<string, string>, segments: seq<string>, i: nat)
    requires 1 <= i && i + 1 < |segments|
    ensures var t := Trail(customLabels, segments);
      t[i + 1].href == Some(t[i].href.value + "/" + segments[i])
  {
    assert segments[..i + 1][..i] == segments[..i];
  }

  /** `a/b` has the segments of `a` followed by those of `b`. */
  lemma SegmentsAround(a: string, b: string)
    ensures Segments(a + "/" + b) == Segments(a) + Segments(b)
  {
    SplitConcat(a, b, '/');
    NonEmptyConcat(Split(a, '/'), Split(b, '/'));
  }

  lemma NoSegments()
    ensures Segments("") == []
  {
    assert Split("", '/') == [""];
  }

  /** A leading slash changes no segment. */
  lemma LeadingSlash(path: string)
    ensures Segments("/" + path) == Segments(path)
  {
    NoSegments();
    SegmentsAround("", path);
    assert "" + "/" + path == "/" + path;
  }

  /** A trailing slash changes no segment. */
  lemma TrailingSlash(path: string)
    ensures Segments(path + "/") == Segments(path)
  {
    NoSegments();
    SegmentsAround(path, "");
    assert path + "/" + "" == path + "/";
  }

  /** A doubled slash changes no segment. */
  lemma DoubledSlash(a: string, b: string)
    ensures Segments(a + "//" + b) == Segments(a + "/" + b)
  {
    SegmentsAround(a, "/" + b);
    assert a + "/" + ("/" + b) == a + "//" + b;
    LeadingSlash(b);
    SegmentsAround(a, b);
  }

  /** A link splits back into the segments it was built from. */
  lemma {:induction false} JoinPathRoundTrip(segments: seq<string>)
    requires forall i :: 0 <= i < |segments| ==> segments[i] != "" && '/' !in segments[i]
    ensures Segments(JoinPath(segments)) == segments
    decreases |segments|
  {
    if segments == [] {
      assert Split("", '/') == [""];
    } else {
      var init, last := segments[..|segments| - 1], segments[|segments| - 1];
      JoinPathRoundTrip(init);
      assert JoinPath(segments) == JoinPath(init) + "/" + last;
      SegmentsAround(JoinPath(init), last);
      assert Split(last, '/') == [last];
      assert NonEmpty([last]) == [last] + NonEmpty([]);
      assert segments == init + [last];
    }
  }

  /** The link of a segment item leads to the path of the segments up to it,
      however the path was written. */
  lemma HrefIsPrefixPath(customLabels: map<string, string>, path: string, i: nat)
    requires i + 1 < |Segments(path)|
    ensures var t := Trail(customLabels, Segments(path));
      t[i + 1].href.Some? && Segments(t[i + 1].href.value) == Segments(path)[..i + 1]
  {
    var segments := Segments(path);
    var prefix := segments[..i + 1];
    SegmentsAreNames(path);
    forall k | 0 <= k < |prefix| ensures prefix[k] != "" && '/' !in prefix[k] {
      assert prefix[k] == segments[k];
    }
    JoinPathRoundTrip(prefix);
    TrailShape(customLabels, segments, i + 1);
  }

  /** The rendering rule: an item is shown as the current page (text, not a
      link) when it says so or is the last one. */
  predicate IsShownCurrent(items: seq<BreadcrumbItem>, index: nat)
    requires index < |items|
  {
    items[index].current || index == |items| - 1
  }

  /** On a trail built from a path exactly the last item is shown as current;
      a path without segments shows the home item as current. */
  lemma ShownCurrentIsLast(customLabels: map<string, string>, path: string, index: nat)
    requires index < |Trail(customLabels, Segments(path))|
    ensures IsShownCurrent(Trail(customLabels, Segments(path)), index)
      <==> index == |Segments(path)|
  {
  }
}
