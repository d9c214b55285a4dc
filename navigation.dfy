/** The "active link" rule shared by the admin sidebar and the crew navigation:
    an item is highlighted on its own page and on every page below it. */
module Navigation {

  datatype NavItem = NavItem(name: string, href: string)

  /** `pathname === item.href || pathname.startsWith(`${item.href}/`)` */
  predicate IsActive(pathname: string, href: string) {
    pathname == href || href + "/" <= pathname
  }

  /** The rule in terms of path segments: the pathname is the href, or extends
      it with a '/' right after it. */
  lemma ActiveIff(pathname: string, href: string)
    ensures IsActive(pathname, href) <==>
      pathname == href || (|pathname| > |href| && pathname[..|href|] == href && pathname[|href|] == '/')
  {
    if |pathname| > |href| && pathname[..|href|] == href && pathname[|href|] == '/' {
      assert pathname[..|href| + 1] == href + "/";
    }
  }

  /** Every page below an item activates it. */
  lemma ChildActive(href: string, rest: string)
    ensures IsActive(href + "/" + rest, href)
  {
    assert (href + "/" + rest)[..|href| + 1] == href + "/";
  }

  /** A pathname that merely continues the href's last segment does not. */
  lemma PartialSegmentInactive(pathname: string, href: string)
    requires |pathname| > |href| && pathname[..|href|] == href && pathname[|href|] != '/'
    ensures !IsActive(pathname, href)
  {
    ActiveIff(pathname, href);
  }

  /** The names of the items highlighted on `pathname`, in menu order. */
  function ActiveNames(items: seq<NavItem>, pathname: string): (r: seq<string>)
    ensures |r| <= |items|
    ensures forall n :: n in r <==> exists i :: 0 <= i < |items| && items[i].name == n && IsActive(pathname, items[i].href)
  {
    if items == [] then []
    else
      var rest := ActiveNames(items[1..], pathname);
      assert forall i :: 1 <= i < |items| ==> items[i] == items[1..][i - 1];
      if IsActive(pathname, items[0].href) then [items[0].name] + rest else rest
  }
}

/** The admin sidebar's menu. */
module AdminSidebar {
  import opened Navigation

  const Menu: seq<NavItem> := [
    NavItem("Dashboard", "/admin"),
    NavItem("M\U{00FC}\U{015F}teriler", "/admin/clients"),
    NavItem("Tekneler", "/admin/vessels"),
    NavItem("\U{0130}\U{015F}ler", "/admin/jobs"),
    NavItem("Raporlar", "/admin/reports"),
    NavItem("Ayarlar", "/admin/settings")
  ]

  /** On any page under /admin/, "Dashboard" is highlighted together with the
      item of that section. */
  lemma DashboardAlwaysActive(rest: string)
    ensures "Dashboard" in ActiveNames(Menu, "/admin/" + rest)
  {
    ChildActive("/admin", rest);
    assert "/admin" + "/" + rest == "/admin/" + rest;
    assert Menu[0].name == "Dashboard";
  }

  lemma TwoItemsActiveOnJobs()
    ensures ActiveNames(Menu, "/admin/jobs") == ["Dashboard", "\U{0130}\U{015F}ler"]
  {
    var p := "/admin/jobs";
    ChildActive("/admin", "jobs");
    assert "/admin" + "/" + "jobs" == p;
    assert !IsActive(p, Menu[1].href) && !IsActive(p, Menu[2].href);
    assert !IsActive(p, Menu[4].href) && !IsActive(p, Menu[5].href);
    assert ActiveNames(Menu[4..], p) == [];
    assert Menu[3..][1..] == Menu[4..];
  }

  /** "/adminx" shares a prefix with "/admin" but highlights nothing. */
  lemma NothingActiveOnAdminX()
    ensures ActiveNames(Menu, "/adminx") == []
  {
    PartialSegmentInactive("/adminx", "/admin");
  }
}

/** The crew navigation's menu. */
module CrewNavigation {
  import opened Navigation

  const Menu: seq<NavItem> := [
    NavItem("\U{0130}\U{015F}lerim", "/crew"),
    NavItem("Profil", "/crew/profile")
  ]

  lemma BothActiveOnProfile()
    ensures ActiveNames(Menu, "/crew/profile") == [Menu[0].name, Menu[1].name]
  {
    ChildActive("/crew", "profile");
    assert "/crew" + "/" + "profile" == "/crew/profile";
  }
}
