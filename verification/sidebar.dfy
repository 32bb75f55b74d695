/** The application sidebar: the navigation entries a role may see, which
    entry is highlighted for the current location, and the initials shown
    in the user's avatar. */
module Sidebar {
  import opened Types
  import opened Seqs
  import opened Text
  import opened Paging
  import opened Rbac

  /** A navigation entry; the icon is left out. */
  datatype NavItem = NavItem(labelKey: string, path: string, resource: Resource)

  const NavItems: seq<NavItem> := [
    NavItem("nav.dashboard", "/", Dashboard),
    NavItem("nav.tickets", "/tickets", Tickets),
    NavItem("nav.users", "/users", Users),
    NavItem("nav.settings", "/settings", Settings)
  ]

  // ---------------------------------------------------------- visibility

  /** The entries whose resource the role may view, in menu order. */
  function VisibleItems(role: Option<Role>): (r: seq<NavItem>)
    ensures IsSubsequence(r, NavItems)
    ensures forall i :: 0 <= i < |r| ==> CanAccess(role, r[i].resource, View)
    ensures forall i :: 0 <= i < |NavItems| && CanAccess(role, NavItems[i].resource, View) ==> NavItems[i] in r
  {
    Filter(NavItems, (item: NavItem) => CanAccess(role, item.resource, View))
  }

  /** Administrators and staff see every entry. */
  lemma AdminAndStaffSeeAll(role: Role)
    requires role == Admin || role == Staff
    ensures VisibleItems(Some(role)) == NavItems
  {
    CanAccessMatchesReference(role, Dashboard, View);
    CanAccessMatchesReference(role, Tickets, View);
    CanAccessMatchesReference(role, Users, View);
    CanAccessMatchesReference(role, Settings, View);
    FilterAll(NavItems, (item: NavItem) => CanAccess(Some(role), item.resource, View));
  }

  /** Viewers see everything but the user list. */
  lemma ViewerSkipsUsers()
    ensures VisibleItems(Some(Viewer)) == [NavItems[0], NavItems[1], NavItems[3]]
  {
    var p := (item: NavItem) => CanAccess(Some(Viewer), item.resource, View);
    var n := NavItems;
    ViewerViews();
    assert p(n[0]) && p(n[1]) && !p(n[2]) && p(n[3]);
    assert n[3..][1..] == [];
    var d := Filter(n[3..], p);
    assert d == [n[3]];
    assert n[2..][1..] == n[3..];
    var c := Filter(n[2..], p);
    assert c == d;
    assert n[1..][1..] == n[2..];
    var b := Filter(n[1..], p);
    assert b == [n[1]] + c;
    assert Filter(n, p) == [n[0]] + b;
  }

  /** The viewer's view grants, section by section. */
  lemma ViewerViews()
    ensures CanAccess(Some(Viewer), Dashboard, View) && CanAccess(Some(Viewer), Tickets, View)
    ensures !CanAccess(Some(Viewer), Users, View) && CanAccess(Some(Viewer), Settings, View)
  {
    CanAccessMatchesReference(Viewer, Dashboard, View);
    CanAccessMatchesReference(Viewer, Tickets, View);
    CanAccessMatchesReference(Viewer, Users, View);
    CanAccessMatchesReference(Viewer, Settings, View);
  }

  /** Without a role no entry is visible. */
  lemma NoRoleSeesNothing()
    ensures VisibleItems(None) == []
  {
    var p := (item: NavItem) => CanAccess(None, item.resource, View);
    assert forall i :: 0 <= i < |NavItems| ==> !p(NavItems[i]);
    assert |Filter(NavItems, p)| == 0;
  }

  // ------------------------------------------------------------- highlight

  /** The root entry is highlighted only on the root itself; the others on
      every location that starts with their path. */
  function IsActive(path: string, pathname: string): (b: bool)
    ensures path == "/" ==> (b <==> pathname == "/")
    ensures path != "/" ==> (b <==> |path| <= |pathname| && pathname[..|path|] == path)
  {
    if path == "/" then pathname == "/" else StartsWith(pathname, path)
  }

  /** The entry a location can highlight: the root on "/", otherwise the
      entry whose path shares the location's second character. */
  function ActiveIndex(pathname: string): nat {
    if pathname == "/" then 0
    else if |pathname| >= 2 && pathname[1] == 't' then 1
    else if |pathname| >= 2 && pathname[1] == 'u' then 2
    else 3
  }

  lemma ActiveIsUnique(k: nat, pathname: string)
    requires k < |NavItems|
    requires IsActive(NavItems[k].path, pathname)
    ensures k == ActiveIndex(pathname)
  {
    if k != 0 {
      assert pathname[1] == NavItems[k].path[1];
    }
  }

  /** No location highlights two entries. */
  lemma AtMostOneActive(pathname: string, i: nat, j: nat)
    requires i < j < |NavItems|
    ensures !(IsActive(NavItems[i].path, pathname) && IsActive(NavItems[j].path, pathname))
  {
    if IsActive(NavItems[i].path, pathname) && IsActive(NavItems[j].path, pathname) {
      ActiveIsUnique(i, pathname);
      ActiveIsUnique(j, pathname);
    }
  }

  /** Away from the root, highlighting is a plain prefix test with no
      segment boundary: `/ticketsX` highlights the tickets entry too. */
  lemma PrefixWithoutBoundary(path: string, pathname: string)
    requires path != "/"
    ensures IsActive(path, pathname) <==> |path| <= |pathname| && pathname[..|path|] == path
    ensures IsActive("/tickets", "/ticketsX")
    ensures IsActive("/", pathname) <==> pathname == "/"
  {
    assert "/ticketsX"[..8] == "/tickets";
  }

  /** A ticket's detail page highlights the tickets entry. */
  lemma DetailPageHighlightsSection(rest: string)
    ensures IsActive("/tickets", "/tickets" + rest)
    ensures !IsActive("/", "/tickets" + rest)
  {
    assert ("/tickets" + rest)[..8] == "/tickets";
  }

  // -------------------------------------------------------------- initials

  /** `n[0]` of every word, joined: an empty word contributes nothing,
      since `join` prints `undefined` as the empty string. */
  function FirstChars(words: seq<string>): (r: string)
    ensures |r| <= |words|
  {
    if |words| == 0 then []
    else (if words[0] == "" then [] else [words[0][0]]) + FirstChars(words[1..])
  }

  /** The reference: the characters that begin a run of non-spaces.
      `atStart` says whether the previous character was a space (or there
      was none). */
  function WordStarts(s: string, atStart: bool): string {
    if |s| == 0 then []
    else if s[0] == ' ' then WordStarts(s[1..], true)
    else (if atStart then [s[0]] else []) + WordStarts(s[1..], false)
  }

  /** `name.split(' ').map(n => n[0]).join('').toUpperCase().slice(0, 2)`. */
  function GetInitials(name: string): (r: string)
    ensures |r| <= 2
  {
    Slice(UpperCase(FirstChars(Split(name, ' '))), 0, 2)
  }

  /** Splitting on spaces and taking each piece's first character picks
      exactly the characters that start a word. */
  lemma {:induction false} FirstCharsAreWordStarts(s: string)
    ensures FirstChars(Split(s, ' ')) == WordStarts(s, true)
    ensures FirstChars(Split(s, ' ')[1..]) == WordStarts(s, false)
  {
    if |s| > 0 {
      var rest := Split(s[1..], ' ');
      FirstCharsAreWordStarts(s[1..]);
      var parts := Split(s, ' ');
      if s[0] == ' ' {
        assert parts == [""] + rest;
        assert parts[1..] == rest;
      } else {
        assert parts == [[s[0]] + rest[0]] + rest[1..];
        assert parts[1..] == rest[1..];
      }
    }
  }

  /** The initials are the upper-cased first letters of the first two
      words. */
  lemma InitialsFromWords(name: string)
    ensures var w := WordStarts(name, true);
      && |GetInitials(name)| == Min(2, |w|)
      && forall i :: 0 <= i < |GetInitials(name)| ==> GetInitials(name)[i] == ToUpperChar(w[i])
  {
    FirstCharsAreWordStarts(name);
  }

  /** A two-word name gives the upper-cased first letters of its words. */
  lemma TwoWordInitials(first: string, last: string)
    requires |first| > 0 && |last| > 0
    requires ' ' !in first && ' ' !in last
    ensures GetInitials(first + " " + last) == [ToUpperChar(first[0]), ToUpperChar(last[0])]
  {
    var name := first + " " + last;
    assert Join([first, last], ' ') == name by {
      assert [first, last][1..] == [last];
    }
    SplitJoin([first, last], ' ');
    assert [first, last][1..] == [last];
    assert FirstChars([first, last]) == [first[0], last[0]];
  }
}
