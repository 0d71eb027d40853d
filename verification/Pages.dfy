/**
 The page tree: lookup by path, permissions, and the redirect from a section to its first
 accessible page, which walks the tree by looking each child up again by its path.
 */
module Pages {
  import opened Basics

  datatype Permission = Public | Authenticated | AdminOnly | SuperAdminOnly
  datatype Role = Anonymous | User | Admin | SuperAdmin
  datatype Page = Page(path: string, permission: Permission, showInNav: bool, children: seq<Page>)

  function Rank(role: Role): nat {
    match role
    case Anonymous => 0
    case User => 1
    case Admin => 2
    case SuperAdmin => 3
  }

  predicate HasPermission(page: Page, role: Role) {
    match page.permission
    case Public => true
    case Authenticated => !role.Anonymous?
    case AdminOnly => role.Admin? || role.SuperAdmin?
    case SuperAdminOnly => role.SuperAdmin?
  }

  /** What a permission asks for, on the same scale as the roles. */
  function Level(permission: Permission): nat {
    match permission
    case Public => 0
    case Authenticated => 1
    case AdminOnly => 2
    case SuperAdminOnly => 3
  }

  /** A page is open to a role exactly if the role ranks at least as high as the page asks. */
  lemma PermissionIsLevel(page: Page, role: Role)
    ensures HasPermission(page, role) <==> Level(page.permission) <= Rank(role)
  {
  }

  // ---------------------------------------------------------------- lookup

  /** All pages in preorder. */
  function AllPages(pages: seq<Page>): (all: seq<Page>)
    decreases pages
  {
    if pages == [] then [] else [pages[0]] + AllPages(pages[0].children) + AllPages(pages[1..])
  }

  /** One pass of the loop: what is collected and what is left make up the whole. */
  lemma OnePageMore(pages: seq<Page>, i: nat, result: seq<Page>, whole: seq<Page>)
    requires i < |pages| && result + AllPages(pages[i..]) == whole
    ensures result + [pages[i]] + AllPages(pages[i].children) + AllPages(pages[i + 1..]) == whole
  {
    var head, below, rest := [pages[i]], AllPages(pages[i].children), AllPages(pages[i + 1..]);
    assert pages[i..][0] == pages[i] && pages[i..][1..] == pages[i + 1..];
    assert AllPages(pages[i..]) == head + below + rest;
    Regroup(result, head, below, rest);
  }

  lemma Regroup<T>(a: seq<T>, b: seq<T>, c: seq<T>, d: seq<T>)
    ensures a + b + c + d == a + (b + c + d)
  {
  }

  /** `get_all_pages`: append each page, then its subtree. */
  method GetAllPages(pages: seq<Page>) returns (result: seq<Page>)
    ensures result == AllPages(pages)
    decreases pages
  {
    result := [];
    for i := 0 to |pages|
      invariant result + AllPages(pages[i..]) == AllPages(pages)
    {
      OnePageMore(pages, i, result, AllPages(pages));
      result := result + [pages[i]];
      if pages[i].children != [] {
        var below := GetAllPages(pages[i].children);
        result := result + below;
      }
    }
  }

  /** `search` inside `get_page_by_path`: the page itself, then its subtree, then its later siblings. */
  function Search(pages: seq<Page>, target: string): (r: Option<Page>)
    decreases pages
  {
    if pages == [] then None
    else if pages[0].path == target then Some(pages[0])
    else
      var below := Search(pages[0].children, target);
      if below.Some? then below else Search(pages[1..], target)
  }

  function FirstWithPath(pages: seq<Page>, target: string): (r: Option<Page>) {
    if pages == [] then None
    else if pages[0].path == target then Some(pages[0])
    else FirstWithPath(pages[1..], target)
  }

  lemma {:induction false} FirstWithPathConcat(a: seq<Page>, b: seq<Page>, target: string)
    ensures FirstWithPath(a + b, target) == if FirstWithPath(a, target).Some?
            then FirstWithPath(a, target) else FirstWithPath(b, target)
    decreases |a|
  {
    if a == [] {
      assert a + b == b;
    } else {
      assert (a + b)[1..] == a[1..] + b;
      FirstWithPathConcat(a[1..], b, target);
    }
  }

  /** The recursive search finds exactly what a scan of the flattened tree would find first. */
  lemma {:induction false} SearchIsScan(pages: seq<Page>, target: string)
    ensures Search(pages, target) == FirstWithPath(AllPages(pages), target)
    decreases pages
  {
    if pages != [] {
      var below, after := AllPages(pages[0].children), AllPages(pages[1..]);
      SearchIsScan(pages[0].children, target);
      SearchIsScan(pages[1..], target);
      FirstWithPathConcat(below, after, target);
      assert AllPages(pages) == [pages[0]] + (below + after);
      assert ([pages[0]] + (below + after))[1..] == below + after;
    }
  }

  /** Every page of the tree has a path of its own, and none is empty. */
  predicate DistinctPaths(pages: seq<Page>) {
    var all := AllPages(pages);
    && (forall i, j :: 0 <= i < j < |all| ==> all[i].path != all[j].path)
    && (forall page :: page in all ==> page.path != "")
  }

  lemma {:induction false} ScanFindsPage(all: seq<Page>, i: nat)
    requires i < |all| && forall j :: 0 <= j < i ==> all[j].path != all[i].path
    ensures FirstWithPath(all, all[i].path) == Some(all[i])
    decreases |all|
  {
    if i > 0 {
      assert all[1..][i - 1] == all[i];
      assert forall j :: 0 <= j < i - 1 ==> all[1..][j] == all[j + 1];
      ScanFindsPage(all[1..], i - 1);
    }
  }

  /** With distinct paths, looking a page of the tree up by its path gives that page back. */
  lemma LookupFindsItself(pages: seq<Page>, page: Page)
    requires DistinctPaths(pages) && page in AllPages(pages)
    ensures Search(pages, page.path) == Some(page)
  {
    var all := AllPages(pages);
    var i :| 0 <= i < |all| && all[i] == page;
    ScanFindsPage(all, i);
    SearchIsScan(pages, page.path);
  }

  lemma {:induction false} ScanFindsMember(all: seq<Page>, target: string)
    requires FirstWithPath(all, target).Some?
    ensures FirstWithPath(all, target).value in all && FirstWithPath(all, target).value.path == target
    decreases |all|
  {
    if all[0].path != target {
      ScanFindsMember(all[1..], target);
    }
  }

  lemma SearchFindsMember(pages: seq<Page>, target: string)
    requires Search(pages, target).Some?
    ensures Search(pages, target).value in AllPages(pages) && Search(pages, target).value.path == target
  {
  }

  lemma {:induction false} TopIsInAll(pages: seq<Page>, page: Page)
    requires page in pages
    ensures page in AllPages(pages)
    decreases |pages|
  {
    if page != pages[0] {
      TopIsInAll(pages[1..], page);
    }
  }

  /** The children of a page of the tree are pages of the tree. */
  lemma {:induction false} ChildrenAreInAll(pages: seq<Page>, page: Page, child: Page)
    requires page in AllPages(pages) && child in page.children
    ensures child in AllPages(pages)
    decreases pages
  {
    if page == pages[0] {
      TopIsInAll(page.children, child);
    } else if page in AllPages(pages[0].children) {
      ChildrenAreInAll(pages[0].children, page, child);
    } else {
      ChildrenAreInAll(pages[1..], page, child);
    }
  }

  predicate HasPageAccess(pages: seq<Page>, path: string, role: Role) {
    var page := Search(pages, path);
    page.Some? && HasPermission(page.value, role)
  }

  /** A path is open exactly if some page has it and the first one that does is open; an unknown path is closed. */
  lemma AccessIff(pages: seq<Page>, path: string, role: Role)
    ensures (forall page :: page in AllPages(pages) ==> page.path != path) ==> !HasPageAccess(pages, path, role)
    ensures DistinctPaths(pages) ==>
              (HasPageAccess(pages, path, role) <==>
               exists page :: page in AllPages(pages) && page.path == path && Level(page.permission) <= Rank(role))
  {
    if Search(pages, path).Some? {
      SearchFindsMember(pages, path);
      PermissionIsLevel(Search(pages, path).value, role);
    }
    if DistinctPaths(pages) {
      forall page | page in AllPages(pages) && page.path == path
        ensures Search(pages, path) == Some(page)
      {
        LookupFindsItself(pages, page);
      }
    }
  }

  // ---------------------------------------------------------------- first accessible child

  function Size(page: Page): (n: nat)
    ensures n == 1 + TotalSize(page.children)
    decreases page
  {
    1 + TotalSize(page.children)
  }

  function TotalSize(pages: seq<Page>): nat
    decreases pages
  {
    if pages == [] then 0 else Size(pages[0]) + TotalSize(pages[1..])
  }

  predicate Navigable(page: Page, role: Role) {
    page.showInNav && HasPermission(page, role)
  }

  predicate AnyNavigable(pages: seq<Page>, role: Role) {
    exists i :: 0 <= i < |pages| && Navigable(pages[i], role)
  }

  /** Some page of a list is shown and open to the role. */
  lemma NavigableIff(pages: seq<Page>, role: Role)
    ensures AnyNavigable(pages, role) <==>
            exists page :: page in pages && page.showInNav && Level(page.permission) <= Rank(role)
  {
    if page :| page in pages && page.showInNav && Level(page.permission) <= Rank(role) {
      var i :| 0 <= i < |pages| && pages[i] == page;
      assert Navigable(pages[i], role);
    }
  }

  /** The size of the page a path leads to: what shrinks from one call to the next. */
  function Reach(pages: seq<Page>, path: string): nat {
    var page := Search(pages, path);
    if page.Some? then Size(page.value) else 0
  }

  /** `get_first_accessible_child`, with its path lookup at every level. */
  function FirstAccessibleChild(pages: seq<Page>, path: string, role: Role): (r: Option<string>)
    requires DistinctPaths(pages)
    decreases Reach(pages, path), 0
  {
    var page := Search(pages, path);
    if page.None? || page.value.children == [] then None
    else
      SearchFindsMember(pages, path);
      assert forall child :: child in page.value.children ==> child in AllPages(pages) by {
        forall child | child in page.value.children
          ensures child in AllPages(pages)
        {
          ChildrenAreInAll(pages, page.value, child);
        }
      }
      FirstAmong(pages, page.value.children, role)
  }

  /** The loop over the children: the "shouldn't happen" branch moves on to the next child. */
  function FirstAmong(pages: seq<Page>, kids: seq<Page>, role: Role): (r: Option<string>)
    requires DistinctPaths(pages) && forall kid :: kid in kids ==> kid in AllPages(pages)
    decreases TotalSize(kids), 1
  {
    if kids == [] then None
    else if Navigable(kids[0], role) then
      if kids[0].children != [] && AnyNavigable(kids[0].children, role) then
        LookupFindsItself(pages, kids[0]);
        var nested := FirstAccessibleChild(pages, kids[0].path, role);
        if nested.Some? && nested.value != "" then nested else FirstAmong(pages, kids[1..], role)
      else Some(kids[0].path)
    else FirstAmong(pages, kids[1..], role)
  }

  /** Always take the first visible permitted page, and stop where none lies below it. */
  function Descend(kids: seq<Page>, role: Role): (r: Option<Page>)
    ensures r.Some? <==> AnyNavigable(kids, role)
    ensures r.Some? ==> Navigable(r.value, role) && !AnyNavigable(r.value.children, role)
    decreases kids
  {
    if kids == [] then None
    else if Navigable(kids[0], role) then
      if AnyNavigable(kids[0].children, role) then Descend(kids[0].children, role) else Some(kids[0])
    else
      assert forall i :: 0 <= i < |kids[1..]| ==> kids[1..][i] == kids[i + 1];
      Descend(kids[1..], role)
  }

  lemma {:induction false} DescendStaysInTree(pages: seq<Page>, kids: seq<Page>, role: Role)
    requires forall kid :: kid in kids ==> kid in AllPages(pages)
    requires Descend(kids, role).Some?
    ensures Descend(kids, role).value in AllPages(pages)
    decreases kids
  {
    if Navigable(kids[0], role) {
      if AnyNavigable(kids[0].children, role) {
        forall child | child in kids[0].children
          ensures child in AllPages(pages)
        {
          ChildrenAreInAll(pages, kids[0], child);
        }
        DescendStaysInTree(pages, kids[0].children, role);
      }
    } else {
      DescendStaysInTree(pages, kids[1..], role);
    }
  }

  /** The path-driven recursion is the plain descent. */
  lemma {:induction false} FirstAmongIsDescend(pages: seq<Page>, kids: seq<Page>, role: Role)
    requires DistinctPaths(pages) && forall kid :: kid in kids ==> kid in AllPages(pages)
    ensures FirstAmong(pages, kids, role) == if Descend(kids, role).Some?
            then Some(Descend(kids, role).value.path) else None
    decreases kids
  {
    if kids != [] {
      if Navigable(kids[0], role) && AnyNavigable(kids[0].children, role) {
        LookupFindsItself(pages, kids[0]);
        forall child | child in kids[0].children
          ensures child in AllPages(pages)
        {
          ChildrenAreInAll(pages, kids[0], child);
        }
        FirstAmongIsDescend(pages, kids[0].children, role);
        DescendStaysInTree(pages, kids[0].children, role);
        assert FirstAccessibleChild(pages, kids[0].path, role) == FirstAmong(pages, kids[0].children, role);
      } else if !Navigable(kids[0], role) {
        FirstAmongIsDescend(pages, kids[1..], role);
      }
    }
  }

  /** The "shouldn't happen" branch: for no page of the tree does the nested call come back empty. */
  lemma FallbackNeverTaken(pages: seq<Page>, kid: Page, role: Role)
    requires DistinctPaths(pages) && kid in AllPages(pages) && AnyNavigable(kid.children, role)
    ensures var nested := FirstAccessibleChild(pages, kid.path, role);
            nested.Some? && nested.value != ""
  {
    LookupFindsItself(pages, kid);
    forall child | child in kid.children
      ensures child in AllPages(pages)
    {
      ChildrenAreInAll(pages, kid, child);
    }
    FirstAmongIsDescend(pages, kid.children, role);
    DescendStaysInTree(pages, kid.children, role);
  }

  /**
   On any tree with distinct paths the redirect target is the end of the plain descent from the
   page's children; it exists exactly when some child is visible and permitted.
   */
  lemma FirstAccessibleIsDescend(pages: seq<Page>, path: string, role: Role)
    requires DistinctPaths(pages)
    ensures var page, r := Search(pages, path), FirstAccessibleChild(pages, path, role);
            && (r.Some? <==> page.Some? && exists child :: child in page.value.children && child.showInNav &&
                                             Level(child.permission) <= Rank(role))
            && (r.Some? ==> r.value == Descend(page.value.children, role).value.path)
  {
    var page := Search(pages, path);
    if page.Some? {
      SearchFindsMember(pages, path);
      forall child | child in page.value.children
        ensures child in AllPages(pages)
      {
        ChildrenAreInAll(pages, page.value, child);
      }
      FirstAmongIsDescend(pages, page.value.children, role);
      NavigableIff(page.value.children, role);
    }
  }

  /** The target is a page the same role may open, and it is not a section that would redirect again. */
  lemma TargetIsAccessible(pages: seq<Page>, path: string, role: Role)
    requires DistinctPaths(pages) && FirstAccessibleChild(pages, path, role).Some?
    ensures HasPageAccess(pages, FirstAccessibleChild(pages, path, role).value, role)
    ensures FirstAccessibleChild(pages, FirstAccessibleChild(pages, path, role).value, role) == None
  {
    FirstAccessibleIsDescend(pages, path, role);
    SearchFindsMember(pages, path);
    var page := Search(pages, path).value;
    forall child | child in page.children
      ensures child in AllPages(pages)
    {
      ChildrenAreInAll(pages, page, child);
    }
    var target := Descend(page.children, role).value;
    DescendStaysInTree(pages, page.children, role);
    LookupFindsItself(pages, target);
    FirstAccessibleIsDescend(pages, target.path, role);
  }

  /** A higher role never loses its redirect. */
  lemma HigherRoleKeepsTarget(pages: seq<Page>, path: string, role: Role, higher: Role)
    requires DistinctPaths(pages) && Rank(role) <= Rank(higher)
    requires FirstAccessibleChild(pages, path, role).Some?
    ensures FirstAccessibleChild(pages, path, higher).Some?
  {
    FirstAccessibleIsDescend(pages, path, role);
    FirstAccessibleIsDescend(pages, path, higher);
    var child :| child in Search(pages, path).value.children && child.showInNav &&
                 Level(child.permission) <= Rank(role);
    assert Level(child.permission) <= Rank(higher);
  }
}
