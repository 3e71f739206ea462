// The application's navigation: which primary entries are shown for the
// user's component-visibility settings, and which entry is highlighted for
// the current location.
//
// Icons, keywords and labels of the entries are presentation only and are
// not modelled; the add-on entries come from a runtime registry and are a
// parameter.

module AppNavigation {
  import opened Wrappers
  import opened Strings

  datatype NavLink = NavLink(title: string, href: string)

  datatype Navigation = Navigation(primary: seq<NavLink>, secondary: seq<NavLink>, addons: seq<NavLink>)

  /** `ComponentVisibilitySettings`: both flags are optional. */
  datatype VisibilitySettings = VisibilitySettings(insuranceVisible: Option<bool>, mpfVisible: Option<bool>)

  const StaticPrimary: seq<NavLink> := [
    NavLink("Dashboard", "/dashboard"),
    NavLink("Insights", "/insights"),
    NavLink("Activities", "/activities"),
    NavLink("Insurance", "/insurance"),
    NavLink("MPF", "/mpf")
  ]

  const StaticSecondary: seq<NavLink> := [NavLink("Settings", "/settings")]

  const InsuranceRoot: string := "/insurance"
  const MpfRoot: string := "/mpf"

  /** `value.length > 1 && value.endsWith("/")`: drop that one slash. */
  function StripTrailingSlash(value: string): (r: string)
    ensures |value| > 1 && value[|value| - 1] == '/' ==> r + "/" == value
    ensures !(|value| > 1 && value[|value| - 1] == '/') ==> r == value
  {
    if |value| > 1 && EndsWith(value, "/") then value[..|value| - 1] else value
  }

  /**
   * `normalizePath`: an empty path is the root, a path without a leading
   * slash gets one (and keeps any trailing slash), and a path with one
   * loses a single trailing slash.
   */
  function NormalizePath(value: string): (r: string)
    ensures StartsWith(r, "/")
    ensures value == [] ==> r == "/"
    ensures value != [] && value[0] != '/' ==> r == "/" + value
    ensures value != [] && value[0] == '/' ==> r == StripTrailingSlash(value)
  {
    if value == [] then "/"
    else if !StartsWith(value, "/") then "/" + value
    else StripTrailingSlash(value)
  }

  /** The path with a leading slash, before any trailing one is dropped. */
  function Rooted(value: string): string {
    if value != [] && value[0] == '/' then value else "/" + value
  }

  /** Normalization is not idempotent: a relative path keeps its trailing slash until normalized again. */
  lemma NormalizePathNotIdempotent()
    ensures NormalizePath("a/") == "/a/"
    ensures NormalizePath(NormalizePath("a/")) == "/a"
  {
    assert NormalizePath("a/") == "/a/";
    assert "/a/"[..2] == "/a";
  }

  /** The route lies at `root` or below it. */
  predicate IsRouteUnder(pathname: string, root: string) {
    var normalized := NormalizePath(pathname);
    normalized == root || StartsWith(normalized, root + "/")
  }

  /** `isInsuranceRoute`. */
  predicate IsInsuranceRoute(pathname: string) {
    IsRouteUnder(pathname, InsuranceRoot)
  }

  /** `isMpfRoute`. */
  predicate IsMpfRoute(pathname: string) {
    IsRouteUnder(pathname, MpfRoot)
  }

  /**
   * A non-empty path is under `root` iff, with a leading slash supplied,
   * it is `root` itself or starts with `root + "/"`; a trailing slash makes
   * no difference.
   */
  lemma RouteUnderMeaning(pathname: string, root: string)
    requires StartsWith(root, "/") && |root| > 1 && root[|root| - 1] != '/'
    requires pathname != []
    ensures IsRouteUnder(pathname, root)
            <==> Rooted(pathname) == root || StartsWith(Rooted(pathname), root + "/")
  {
    var q := Rooted(pathname);
    var n := NormalizePath(pathname);
    if pathname[0] == '/' && |pathname| > 1 && pathname[|pathname| - 1] == '/' {
      assert q == n + "/";
      if n == root {
        assert StartsWith(q, root + "/");
      }
      if StartsWith(n, root + "/") {
        assert q[..|root| + 1] == n[..|root| + 1];
      }
      if StartsWith(q, root + "/") {
        assert n == q[..|q| - 1];
        if |q| == |root| + 1 {
          assert q == root + "/";
          assert (root + "/")[..|root|] == root;
          assert n == root;
        } else {
          assert n[..|root| + 1] == q[..|root| + 1];
        }
      }
    } else {
      assert n == q;
    }
  }

  /** The empty path is the root, which is neither an insurance nor an MPF route. */
  lemma EmptyPathIsNoComponentRoute()
    ensures !IsInsuranceRoute("") && !IsMpfRoute("")
  {
    assert !StartsWith("/", InsuranceRoot + "/");
    assert !StartsWith("/", MpfRoot + "/");
  }

  /** A path cannot be both an insurance route and an MPF route. */
  lemma RoutesAreDisjoint(pathname: string)
    ensures !(IsInsuranceRoute(pathname) && IsMpfRoute(pathname))
  {
    var n := NormalizePath(pathname);
    if IsInsuranceRoute(pathname) {
      assert n[1] == 'i' by {
        if n != InsuranceRoot {
          assert n[..11] == InsuranceRoot + "/";
          assert n[1] == (InsuranceRoot + "/")[1];
        }
      }
      if IsMpfRoute(pathname) {
        assert n[1] == 'm' by {
          if n != MpfRoot {
            assert n[..5] == MpfRoot + "/";
            assert n[1] == (MpfRoot + "/")[1];
          }
        }
      }
    }
  }

  /** `/insurance-x` only shares the prefix of `/insurance`. */
  lemma InsurancePrefixSibling()
    ensures !IsInsuranceRoute("/insurance-x")
  {
    RouteUnderMeaning("/insurance-x", InsuranceRoot);
    assert "/insurance-x"[..11] != InsuranceRoot + "/" by {
      assert "/insurance-x"[10] != (InsuranceRoot + "/")[10];
    }
  }

  /** The literal `"/" + "insurance/"` is the insurance root with its trailing slash. */
  lemma RootedInsuranceLiteral()
    ensures "/" + "insurance/" == InsuranceRoot + "/"
  {
  }

  /** `insurance/`, rooted, is the insurance root with a trailing slash. */
  lemma RelativeInsuranceRoot()
    ensures IsInsuranceRoute("insurance/")
  {
    RouteUnderMeaning("insurance/", InsuranceRoot);
    assert "insurance/"[0] == 'i';
    assert Rooted("insurance/") == "/" + "insurance/";
    RootedInsuranceLiteral();
  }

  /** `/insurance/policy/` lies below the insurance root. */
  lemma InsurancePolicyBelowRoot()
    ensures IsInsuranceRoute("/insurance/policy/")
  {
    RouteUnderMeaning("/insurance/policy/", InsuranceRoot);
    assert "/insurance/policy/"[..11] == InsuranceRoot + "/";
  }

  /** A sibling that merely shares the prefix is not a route below it. */
  lemma SiblingIsNoInsuranceRoute()
    ensures !IsInsuranceRoute("/insurance-x")
    ensures IsInsuranceRoute("insurance/")
    ensures IsInsuranceRoute("/insurance/policy/")
  {
    InsurancePrefixSibling();
    RelativeInsuranceRoot();
    InsurancePolicyBelowRoot();
  }


  /** `isComponentRouteEnabled`: `settings?.insuranceVisible ?? true`, then `settings?.mpfVisible ?? true`. */
  predicate IsComponentRouteEnabled(pathname: string, settings: Option<VisibilitySettings>) {
    if IsInsuranceRoute(pathname) then
      settings.None? || settings.value.insuranceVisible.None? || settings.value.insuranceVisible.value
    else if IsMpfRoute(pathname) then
      settings.None? || settings.value.mpfVisible.None? || settings.value.mpfVisible.value
    else true
  }

  /**
   * A route is hidden only when the settings explicitly switch off the
   * component it belongs to; missing settings or flags leave it shown.
   */
  lemma HiddenOnlyWhenSwitchedOff(pathname: string, settings: Option<VisibilitySettings>)
    ensures !IsComponentRouteEnabled(pathname, settings)
            <==> settings.Some?
                 && ((IsInsuranceRoute(pathname) && settings.value.insuranceVisible == Some(false))
                     || (IsMpfRoute(pathname) && settings.value.mpfVisible == Some(false)))
  {
    RoutesAreDisjoint(pathname);
  }

  /** `items.filter((item) => isComponentRouteEnabled(item.href, settings))`. */
  function FilterEnabled(items: seq<NavLink>, settings: Option<VisibilitySettings>): (r: seq<NavLink>)
    ensures |r| <= |items|
  {
    if items == [] then []
    else
      var rest := FilterEnabled(items[1..], settings);
      if IsComponentRouteEnabled(items[0].href, settings) then [items[0]] + rest else rest
  }

  /** An entry is kept iff it was listed and its route is enabled. */
  lemma {:induction false} FilterEnabledMembers(items: seq<NavLink>, settings: Option<VisibilitySettings>, item: NavLink)
    ensures item in FilterEnabled(items, settings)
            <==> item in items && IsComponentRouteEnabled(item.href, settings)
  {
    if items != [] {
      FilterEnabledMembers(items[1..], settings, item);
      assert items == [items[0]] + items[1..];
    }
  }

  /** Filtering keeps the order: the filter of a concatenation is the concatenation of the filters. */
  lemma {:induction false} FilterEnabledAppend(a: seq<NavLink>, b: seq<NavLink>, settings: Option<VisibilitySettings>)
    ensures FilterEnabled(a + b, settings) == FilterEnabled(a, settings) + FilterEnabled(b, settings)
  {
    if a == [] {
      assert a + b == b;
    } else {
      assert (a + b)[1..] == a[1..] + b;
      FilterEnabledAppend(a[1..], b, settings);
    }
  }

  /** When every listed route is enabled nothing is dropped. */
  lemma {:induction false} FilterAllEnabled(items: seq<NavLink>, settings: Option<VisibilitySettings>)
    requires forall i :: 0 <= i < |items| ==> IsComponentRouteEnabled(items[i].href, settings)
    ensures FilterEnabled(items, settings) == items
  {
    if items != [] {
      FilterAllEnabled(items[1..], settings);
    }
  }

  /**
   * The navigation `useNavigation` builds: the static primary entries
   * filtered by the settings, the secondary entries unfiltered, and the
   * add-on entries as registered.
   */
  function UseNavigation(settings: Option<VisibilitySettings>, addons: seq<NavLink>): (r: Navigation)
    ensures r.secondary == StaticSecondary && r.addons == addons
    ensures forall item :: item in r.primary ==> item in StaticPrimary
  {
    var primary := FilterEnabled(StaticPrimary, settings);
    assert forall item :: item in primary ==> item in StaticPrimary by {
      forall item | item in primary ensures item in StaticPrimary {
        FilterEnabledMembers(StaticPrimary, settings, item);
      }
    }
    Navigation(primary, StaticSecondary, addons)
  }

  /** Only the Insurance entry answers to the insurance flag, and only the MPF entry to the MPF flag. */
  lemma StaticRoutes()
    ensures IsInsuranceRoute(StaticPrimary[3].href) && !IsMpfRoute(StaticPrimary[3].href)
    ensures IsMpfRoute(StaticPrimary[4].href) && !IsInsuranceRoute(StaticPrimary[4].href)
    ensures forall i :: 0 <= i < 3 ==> !IsInsuranceRoute(StaticPrimary[i].href) && !IsMpfRoute(StaticPrimary[i].href)
  {
    forall i | 0 <= i < 3
      ensures !IsInsuranceRoute(StaticPrimary[i].href) && !IsMpfRoute(StaticPrimary[i].href)
    {
      OtherStaticRoute(StaticPrimary[i].href);
    }
    assert StaticPrimary[3].href == "/insurance" && StaticPrimary[4].href == "/mpf";
    RoutesAreDisjoint("/insurance");
    RoutesAreDisjoint("/mpf");
  }

  lemma OtherStaticRoute(href: string)
    requires href == "/dashboard" || href == "/insights" || href == "/activities"
    ensures !IsInsuranceRoute(href) && !IsMpfRoute(href)
  {
    NotUnderAt(href, MpfRoot, 1);
    if href == "/insights" {
      NotUnderAt(href, InsuranceRoot, 4);
    } else {
      NotUnderAt(href, InsuranceRoot, 1);
    }
  }

  /** An absolute path that differs from `root` at position `k` is not under it. */
  lemma NotUnderAt(href: string, root: string, k: nat)
    requires StartsWith(root, "/") && |root| > 1 && root[|root| - 1] != '/'
    requires href != [] && href[0] == '/'
    requires k < |href| && k < |root| && href[k] != root[k]
    ensures !IsRouteUnder(href, root)
  {
    RouteUnderMeaning(href, root);
  }

  /** With no settings, or both flags unset or true, every primary entry is shown in order. */
  lemma DefaultNavigationShowsAll(settings: Option<VisibilitySettings>)
    requires settings.Some? ==> settings.value.insuranceVisible != Some(false) && settings.value.mpfVisible != Some(false)
    ensures UseNavigation(settings, []).primary == StaticPrimary
  {
    forall i | 0 <= i < |StaticPrimary|
      ensures IsComponentRouteEnabled(StaticPrimary[i].href, settings)
    {
      HiddenOnlyWhenSwitchedOff(StaticPrimary[i].href, settings);
    }
    FilterAllEnabled(StaticPrimary, settings);
  }

  /** Switching the insurance component off removes exactly the Insurance entry. */
  lemma HidingInsuranceDropsItsEntry(settings: Option<VisibilitySettings>)
    requires settings.Some? && settings.value.insuranceVisible == Some(false)
    requires settings.value.mpfVisible != Some(false)
    ensures UseNavigation(settings, []).primary == StaticPrimary[..3] + StaticPrimary[4..]
  {
    StaticRoutes();
    forall i | 0 <= i < |StaticPrimary|
      ensures IsComponentRouteEnabled(StaticPrimary[i].href, settings) <==> i != 3
    {
      HiddenOnlyWhenSwitchedOff(StaticPrimary[i].href, settings);
    }
    FilterDropsOne(StaticPrimary, settings, 3);
  }

  /** A disabled entry alone filters to nothing. */
  lemma FilterDisabledEntry(item: NavLink, settings: Option<VisibilitySettings>)
    requires !IsComponentRouteEnabled(item.href, settings)
    ensures FilterEnabled([item], settings) == []
  {
    assert [item][1..] == [];
  }

  /** Filtering a list in which only entry `k` is disabled removes exactly that entry. */
  lemma FilterDropsOne(items: seq<NavLink>, settings: Option<VisibilitySettings>, k: nat)
    requires k < |items| && !IsComponentRouteEnabled(items[k].href, settings)
    requires forall i :: 0 <= i < |items| && i != k ==> IsComponentRouteEnabled(items[i].href, settings)
    ensures FilterEnabled(items, settings) == items[..k] + items[k + 1..]
  {
    var before, after := items[..k], items[k + 1..];
    assert items == before + [items[k]] + after;
    assert forall i :: 0 <= i < |before| ==> before[i] == items[i];
    assert forall i :: 0 <= i < |after| ==> after[i] == items[k + 1 + i];
    FilterDropsBetween(before, items[k], after, settings);
  }

  /** A disabled entry between two runs of enabled entries is the only one filtered out. */
  lemma FilterDropsBetween(before: seq<NavLink>, item: NavLink, after: seq<NavLink>, settings: Option<VisibilitySettings>)
    requires !IsComponentRouteEnabled(item.href, settings)
    requires forall i :: 0 <= i < |before| ==> IsComponentRouteEnabled(before[i].href, settings)
    requires forall i :: 0 <= i < |after| ==> IsComponentRouteEnabled(after[i].href, settings)
    ensures FilterEnabled(before + [item] + after, settings) == before + after
  {
    FilterEnabledAppend(before + [item], after, settings);
    FilterEnabledAppend(before, [item], settings);
    FilterDisabledEntry(item, settings);
    FilterAllEnabled(before, settings);
    FilterAllEnabled(after, settings);
    assert FilterEnabled(before + [item], settings) == before + [];
    assert before + [] == before;
  }

  // ---------------------------------------------------------------------
  // isPathActive
  // ---------------------------------------------------------------------

  /** The href as `isPathActive` compares it: a leading slash supplied, one trailing slash dropped. */
  function ActiveHref(href: string): string {
    StripTrailingSlash(if StartsWith(href, "/") then href else "/" + href)
  }

  /**
   * `isPathActive`: an empty href is never active; the root href is active
   * only at the root; any other href is active at itself and below it. The
   * path gets no leading slash, only one trailing slash dropped.
   */
  function IsPathActive(pathname: string, href: string): (r: bool)
    ensures href == [] ==> !r
    ensures href != [] && ActiveHref(href) == "/" ==> (r <==> StripTrailingSlash(pathname) == "/")
    ensures href != [] && ActiveHref(href) != "/" ==>
              (r <==> StripTrailingSlash(pathname) == ActiveHref(href)
                      || StartsWith(StripTrailingSlash(pathname), ActiveHref(href) + "/"))
  {
    if href == [] then false
    else
      var normalizedHref := ActiveHref(href);
      var normalizedPath := StripTrailingSlash(pathname);
      if normalizedHref == "/" then normalizedPath == "/"
      else normalizedPath == normalizedHref || StartsWith(normalizedPath, normalizedHref + "/")
  }

  /** An absolute href is active at its own path. */
  lemma PathActiveAtItself(href: string)
    requires href != [] && href[0] == '/'
    ensures IsPathActive(href, href)
  {
    assert StartsWith(href, "/");
  }

  /** A non-root href is active at every path below it, with or without a trailing slash. */
  lemma PathActiveBelow(href: string, rest: string)
    requires href != [] && ActiveHref(href) != "/"
    ensures IsPathActive(ActiveHref(href) + "/" + rest, href)
  {
    var h := ActiveHref(href);
    var p := h + "/" + rest;
    var n := StripTrailingSlash(p);
    if rest == [] {
      assert p == h + "/";
      assert n == h;
    } else if p[|p| - 1] == '/' {
      assert n == h + "/" + rest[..|rest| - 1];
      assert n[..|h| + 1] == h + "/";
    } else {
      assert n[..|h| + 1] == h + "/";
    }
  }

  /** A relative path never matches an href: the path, unlike the href, gets no leading slash. */
  lemma RelativePathNeverActive(pathname: string, href: string)
    requires pathname != [] && pathname[0] != '/'
    requires href != []
    ensures !IsPathActive(pathname, href)
  {
    var n := StripTrailingSlash(pathname);
    var h := ActiveHref(href);
    assert n[0] == pathname[0];
    assert h[0] == '/';
  }

  /** The root href is active only at the root, and a prefix sibling is not below an href. */
  lemma PathActiveExamples()
    ensures IsPathActive("/", "/") && !IsPathActive("/dashboard", "/")
    ensures !IsPathActive("/insurance-x", "/insurance")
    ensures IsPathActive("/insurance/", "insurance")
  {
    assert ActiveHref("/") == "/";
    assert ActiveHref("/insurance") == "/insurance";
    assert "/insurance-x"[10] != ("/insurance" + "/")[10];
    assert ActiveHref("insurance") == "/insurance";
    assert StripTrailingSlash("/insurance/") == "/insurance";
  }
}
