/** The breadcrumb trail above every page: one crumb per non-empty path
    segment, the section names for known sections, a "ticket details"
    crumb for anything that looks like an identifier, and links on every
    crumb but the last. */
module Breadcrumbs {
  import opened Types
  import opened Seqs
  import opened Text
  import opened Rbac
  import Sidebar

  /** What a crumb shows: a section name, the detail-page title, the
      segment itself, or the member a segment such as `constructor` finds
      on `Object.prototype` when it is looked up in the label table. */
  datatype Label =
    | SectionLabel(section: Resource)
    | TicketDetailsLabel
    | RawLabel(text: string)
    | InheritedMember(key: string)

  /** A crumb; one without a path is plain text rather than a link. */
  datatype Crumb = Crumb(caption: Label, path: Option<string>)

  /** What the bar renders: on the root only the dashboard title, elsewhere
      the home link followed by the crumbs. */
  datatype Bar = DashboardOnly | Trail(crumbs: seq<Crumb>)

  /** `pathname.split('/').filter(Boolean)`. */
  function Segments(pathname: string): (segs: seq<string>)
    ensures forall i :: 0 <= i < |segs| ==> segs[i] != "" && '/' !in segs[i]
  {
    Filter(Split(pathname, '/'), (s: string) => s != "")
  }

  /** The segments that have a section name of their own. Each of them
      matches the identifier pattern, which is why the identifier test
      also has to look the segment up. */
  function SectionOf(segment: string): (r: Option<Resource>)
    ensures r.Some? ==> r.value != Dashboard
    ensures r.Some? ==> MatchesIdPattern(segment)
  {
    if segment == "tickets" then Some(Tickets)
    else if segment == "users" then Some(Users)
    else if segment == "settings" then Some(Settings)
    else None
  }

  /** The keys a plain object inherits from `Object.prototype`. Looking one
      up in the label table yields a function (an object for `__proto__`):
      a truthy value that is not a section name. */
  const InheritedKeys: set<string> := {
    "constructor", "hasOwnProperty", "isPrototypeOf", "propertyIsEnumerable",
    "toLocaleString", "toString", "valueOf", "__proto__",
    "__defineGetter__", "__defineSetter__", "__lookupGetter__", "__lookupSetter__"
  }

  /** `pathLabels[segment]` when it is truthy. */
  function PathLabel(segment: string): Option<Label> {
    if SectionOf(segment).Some? then Some(SectionLabel(SectionOf(segment).value))
    else if segment in InheritedKeys then Some(InheritedMember(segment))
    else None
  }

  predicate IsIdChar(c: char) {
    'a' <= c <= 'z' || 'A' <= c <= 'Z' || '0' <= c <= '9' || c == '-'
  }

  /** `/^[a-zA-Z0-9-]+$/`. */
  predicate MatchesIdPattern(segment: string) {
    && |segment| > 0
    && (forall i :: 0 <= i < |segment| ==> IsIdChar(segment[i]))
  }

  /** `isId`: the pattern matches and the label table has nothing truthy
      for the segment. */
  function IsId(segment: string): (b: bool)
    ensures b ==> segment != "" && '/' !in segment
    ensures SectionOf(segment).Some? || segment in InheritedKeys ==> !b
  {
    MatchesIdPattern(segment) && PathLabel(segment).None?
  }

  /** `pathLabels[segment] || segment`. */
  function Caption(segment: string): Label {
    if PathLabel(segment).Some? then PathLabel(segment).value else RawLabel(segment)
  }

  /** The link target of the crumb for `segs[..k]`: `/` before each segment. */
  function PathOf(segs: seq<string>): (r: string)
    ensures |r| >= |segs|
    ensures |segs| > 0 ==> r[0] == '/'
  {
    if |segs| == 0 then "" else PathOf(segs[..|segs| - 1]) + "/" + segs[|segs| - 1]
  }

  /** The reference crumb for segment `i`: identifiers become an unlinked
      "ticket details" crumb, anything else its looked-up label or itself,
      linked unless it is the last. */
  function CrumbAt(segs: seq<string>, i: nat): (c: Crumb)
    requires i < |segs|
    ensures c.caption == TicketDetailsLabel <==> IsId(segs[i])
    ensures c.path.Some? ==> c.path.value == PathOf(segs[..i + 1])
  {
    if IsId(segs[i]) then Crumb(TicketDetailsLabel, None)
    else Crumb(Caption(segs[i]), if i == |segs| - 1 then None else Some(PathOf(segs[..i + 1])))
  }

  /** `buildBreadcrumbs`: walk the segments, extending the current path by
      one segment per step. */
  method BuildBreadcrumbs(pathname: string) returns (items: seq<Crumb>)
    ensures |items| == |Segments(pathname)|
    ensures forall i :: 0 <= i < |items| ==> items[i] == CrumbAt(Segments(pathname), i)
  {
    var paths := Segments(pathname);
    items := [];
    var currentPath := "";
    var index := 0;
    while index < |paths|
      invariant 0 <= index <= |paths|
      invariant currentPath == PathOf(paths[..index])
      invariant |items| == index
      invariant forall i :: 0 <= i < index ==> items[i] == CrumbAt(paths, i)
    {
      var segment := paths[index];
      PathOfStep(paths, index);
      currentPath := currentPath + "/" + segment;
      var isLast := index == |paths| - 1;
      var found := PathLabel(segment);
      var item;
      if MatchesIdPattern(segment) && found.None? {
        item := Crumb(TicketDetailsLabel, None);
      } else {
        var caption := if found.Some? then found.value else RawLabel(segment);
        item := Crumb(caption, if isLast then None else Some(currentPath));
      }
      assert item == CrumbAt(paths, index);
      ExtendCrumbs(items, paths, item);
      items := items + [item];
      index := index + 1;
    }
  }

  /** The path for one more segment extends the current one. */
  lemma PathOfStep(paths: seq<string>, index: nat)
    requires index < |paths|
    ensures PathOf(paths[..index + 1]) == PathOf(paths[..index]) + "/" + paths[index]
  {
    assert paths[..index + 1][..index] == paths[..index];
  }

  /** Appending the reference crumb for the next segment keeps the crumbs
      equal to the reference. */
  lemma ExtendCrumbs(items: seq<Crumb>, paths: seq<string>, item: Crumb)
    requires |items| < |paths|
    requires forall i :: 0 <= i < |items| ==> items[i] == CrumbAt(paths, i)
    requires item == CrumbAt(paths, |items|)
    ensures forall i :: 0 <= i < |items| + 1 ==> (items + [item])[i] == CrumbAt(paths, i)
  {
  }

  /** The whole bar: the root is special-cased. */
  method Render(pathname: string) returns (bar: Bar)
    ensures pathname == "/" <==> bar.DashboardOnly?
    ensures bar.Trail? ==> |bar.crumbs| == |Segments(pathname)|
    ensures bar.Trail? ==> forall i :: 0 <= i < |bar.crumbs| ==> bar.crumbs[i] == CrumbAt(Segments(pathname), i)
  {
    var items := BuildBreadcrumbs(pathname);
    if pathname == "/" {
      bar := DashboardOnly;
    } else {
      bar := Trail(items);
    }
  }

  // -------------------------------------------------------------- properties

  /** The last crumb is never a link, and neither is a detail crumb. */
  lemma UnlinkedCrumbs(segs: seq<string>, i: nat)
    requires i < |segs|
    ensures i == |segs| - 1 ==> CrumbAt(segs, i).path.None?
    ensures IsId(segs[i]) ==> CrumbAt(segs, i) == Crumb(TicketDetailsLabel, None)
    ensures CrumbAt(segs, i).path.Some? <==> i < |segs| - 1 && !IsId(segs[i])
  {
  }

  /** Joining one more segment onto a non-empty list. */
  lemma {:induction false} JoinSnoc(parts: seq<string>, x: string, sep: char)
    requires |parts| >= 1
    ensures Join(parts + [x], sep) == Join(parts, sep) + [sep] + x
  {
    if |parts| == 1 {
      assert (parts + [x])[1..] == [x];
    } else {
      JoinSnoc(parts[1..], x, sep);
      assert (parts + [x])[1..] == parts[1..] + [x];
    }
  }

  /** The accumulated path is a slash before each segment. */
  lemma {:induction false} PathOfIsJoin(segs: seq<string>)
    requires |segs| >= 1
    ensures PathOf(segs) == "/" + Join(segs, '/')
  {
    if |segs| > 1 {
      var init := segs[..|segs| - 1];
      PathOfIsJoin(init);
      JoinSnoc(init, segs[|segs| - 1], '/');
      assert init + [segs[|segs| - 1]] == segs;
    }
  }

  /** The path of the first `k` segments is a prefix of the path of all of
      them. */
  lemma {:induction false} PathOfPrefix(segs: seq<string>, k: nat)
    requires k <= |segs|
    ensures StartsWith(PathOf(segs), PathOf(segs[..k]))
    decreases |segs|
  {
    if k < |segs| {
      var init := segs[..|segs| - 1];
      PathOfPrefix(init, k);
      assert init[..k] == segs[..k];
    } else {
      assert segs[..k] == segs;
    }
  }

  /** A location in normal form, `/a/b/c` with non-empty segments free of
      slashes, has exactly those segments. */
  lemma NormalLocationSegments(segs: seq<string>)
    requires |segs| >= 1
    requires forall i :: 0 <= i < |segs| ==> segs[i] != "" && '/' !in segs[i]
    ensures Segments(PathOf(segs)) == segs
  {
    var all := [""] + segs;
    RootedJoin(segs);
    forall i | 0 <= i < |all| ensures '/' !in all[i] {
      if i > 0 {
        assert all[i] == segs[i - 1];
      }
    }
    SplitJoin(all, '/');
    DropLeadingEmpty(segs);
  }

  /** The path is the join of the segments behind an empty first piece. */
  lemma RootedJoin(segs: seq<string>)
    requires |segs| >= 1
    ensures Join([""] + segs, '/') == PathOf(segs)
  {
    PathOfIsJoin(segs);
    assert ([""] + segs)[1..] == segs;
  }

  /** Dropping empty pieces removes the leading one and keeps the rest. */
  lemma DropLeadingEmpty(segs: seq<string>)
    requires forall i :: 0 <= i < |segs| ==> segs[i] != ""
    ensures Filter([""] + segs, (s: string) => s != "") == segs
  {
    var p := (s: string) => s != "";
    FilterAll(segs, p);
    FilterAppend([""], segs, p);
    assert [""][1..] == [];
  }

  /** Every link of a trail points to an ancestor of the location. */
  lemma LinksAreAncestors(segs: seq<string>)
    ensures forall i :: 0 <= i < |segs| && CrumbAt(segs, i).path.Some? ==>
              StartsWith(PathOf(segs), CrumbAt(segs, i).path.value)
  {
    forall i | 0 <= i < |segs| && CrumbAt(segs, i).path.Some?
      ensures StartsWith(PathOf(segs), CrumbAt(segs, i).path.value)
    {
      PathOfPrefix(segs, i + 1);
    }
  }

  /** The root has no segments; the bar shows only the dashboard title. */
  lemma RootHasNoCrumbs()
    ensures Segments("/") == []
  {
    assert Split("/", '/') == ["", ""] by {
      assert "/"[1..] == "";
    }
  }

  /** A ticket page, `/tickets/<id>`, reads "Tickets › Ticket details" with
      the section linked. So does the creation form, `/tickets/new`, since
      `new` looks like an identifier. */
  lemma TicketPageTrail(id: string)
    requires IsId(id)
    ensures var segs := ["tickets", id];
      && Segments(PathOf(segs)) == segs
      && CrumbAt(segs, 0) == Crumb(SectionLabel(Tickets), Some("/tickets"))
      && CrumbAt(segs, 1) == Crumb(TicketDetailsLabel, None)
  {
    var segs := ["tickets", id];
    NormalLocationSegments(segs);
    assert segs[..1] == ["tickets"];
    assert PathOf(["tickets"]) == "/tickets" by {
      assert ["tickets"][..0] == [];
    }
  }

  lemma NewIsAnId()
    ensures IsId("new")
  {
  }

  /** `/constructor/5`: `constructor` matches the identifier pattern, but
      the label table yields the inherited constructor for it, so it is not
      taken for an identifier. Its crumb links to `/constructor` and carries
      that member as its label; the `5` after it reads "ticket details". */
  lemma ConstructorTrail()
    ensures var segs := ["constructor", "5"];
      && Segments(PathOf(segs)) == segs
      && CrumbAt(segs, 0) == Crumb(InheritedMember("constructor"), Some("/constructor"))
      && CrumbAt(segs, 1) == Crumb(TicketDetailsLabel, None)
  {
    var segs := ["constructor", "5"];
    assert IsIdChar("5"[0]);
    NormalLocationSegments(segs);
    assert segs[..1] == ["constructor"];
    assert PathOf(["constructor"]) == "/constructor" by {
      assert ["constructor"][..0] == [];
    }
  }

  /** Every section name is the path of a sidebar entry without its slash,
      and every sidebar entry but the root has its section name. */
  lemma SectionsAreNavEntries(segment: string)
    ensures SectionOf(segment).Some? ==>
      exists i :: 1 <= i < |Sidebar.NavItems| && Sidebar.NavItems[i].path == "/" + segment
                  && Sidebar.NavItems[i].resource == SectionOf(segment).value
    ensures forall i :: 1 <= i < |Sidebar.NavItems| ==>
      SectionOf(Sidebar.NavItems[i].path[1..]) == Some(Sidebar.NavItems[i].resource)
  {
    var n := Sidebar.NavItems;
    assert n[1].path[1..] == "tickets" && n[2].path[1..] == "users" && n[3].path[1..] == "settings";
    if segment == "tickets" {
      assert n[1].path == "/" + segment;
    } else if segment == "users" {
      assert n[2].path == "/" + segment;
    } else if segment == "settings" {
      assert n[3].path == "/" + segment;
    }
  }
}
