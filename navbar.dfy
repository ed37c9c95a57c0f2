/**
 The side navigation bar: a fixed table of three items rendered as links, in
 order. The item whose path equals the current pathname exactly is active:
 it shows the light variant of its icon and the highlight classes; every
 other item shows the dark variant and no highlight.
 */
module Navbar {

  datatype NavItem = NavItem(path: string, title: string, icon: string)

  /** The `navItems` table. */
  const NavItems: seq<NavItem> := [
    NavItem("/", "Home", "home"),
    NavItem("/about", "About", "file"),
    NavItem("/account", "My Account", "account")
  ]

  /** The classes every link carries, up to and including the line break and indentation
      of the template string that precedes the conditional part. */
  const BaseClass: string := "flex text-[2vw] p-2\n                "

  const HighlightClass: string := "bg-[#603F37] rounded-xl text-white"

  const IconSize: nat := 30

  datatype NavIcon = NavIcon(src: string, alt: string, width: nat, height: nat)

  /** One rendered `<Link>` with its icon and its text. */
  datatype NavLink = NavLink(key: string, href: string, className: string, icon: NavIcon, text: string)

  predicate IsActive(pathname: string, item: NavItem)
  {
    pathname == item.path
  }

  /** `renderNavItems` applied to one item: keyed and linked by its path, labelled by its title,
      and showing the light icon and the highlight classes exactly when the pathname equals its path. */
  function RenderNavItem(pathname: string, item: NavItem): (link: NavLink)
    ensures && link.key == item.path && link.href == item.path
            && link.text == item.title && link.icon.alt == item.title
            && link.icon.width == IconSize && link.icon.height == IconSize
    ensures IsActive(pathname, item) ==>
      link.icon.src == "/" + item.icon + "-light.svg" && link.className == BaseClass + HighlightClass
    ensures !IsActive(pathname, item) ==>
      link.icon.src == "/" + item.icon + "-dark.svg" && link.className == BaseClass
  {
    var active := IsActive(pathname, item);
    var imageSrc := "/" + item.icon + "-" + (if active then "light" else "dark") + ".svg";
    NavLink(item.path, item.path, BaseClass + (if active then HighlightClass else ""),
            NavIcon(imageSrc, item.title, IconSize, IconSize), item.title)
  }

  /** `navItems.map(renderNavItems)`. */
  function RenderNavItems(pathname: string, items: seq<NavItem>): (links: seq<NavLink>)
    ensures |links| == |items|
    ensures forall k :: 0 <= k < |items| ==> links[k] == RenderNavItem(pathname, items[k])
  {
    if items == [] then [] else [RenderNavItem(pathname, items[0])] + RenderNavItems(pathname, items[1..])
  }

  /** The icon tells the state apart: the light icon is shown exactly when the item is active. */
  lemma {:induction false} LightIconIffActive(pathname: string, item: NavItem)
    ensures RenderNavItem(pathname, item).icon.src == "/" + item.icon + "-light.svg" <==> IsActive(pathname, item)
  {
    var light := "/" + item.icon + "-light.svg";
    var dark := "/" + item.icon + "-dark.svg";
    var n := |"/" + item.icon + "-"|;
    assert light[n] == 'l' && dark[n] == 'd';
  }

  /** The highlight classes likewise appear exactly on the active item. */
  lemma HighlightIffActive(pathname: string, item: NavItem)
    ensures RenderNavItem(pathname, item).className == BaseClass + HighlightClass <==> IsActive(pathname, item)
  {
    assert |BaseClass + HighlightClass| != |BaseClass + ""|;
  }

  predicate DistinctPaths(items: seq<NavItem>)
  {
    forall i, j :: 0 <= i < j < |items| ==> items[i].path != items[j].path
  }

  /** With distinct paths no pathname activates two items. */
  lemma AtMostOneActive(pathname: string, items: seq<NavItem>, i: nat, j: nat)
    requires DistinctPaths(items)
    requires i < |items| && j < |items|
    requires IsActive(pathname, items[i]) && IsActive(pathname, items[j])
    ensures i == j
  {
  }

  /** The index of the active item, if a pathname has one. The component never looks this up:
      it is a way of stating which item, if any, a pathname activates. */
  function ActiveIndex(pathname: string, items: seq<NavItem>): (r: int)
    ensures -1 <= r < |items|
    ensures r >= 0 ==> IsActive(pathname, items[r])
    ensures r < 0 <==> forall k :: 0 <= k < |items| ==> !IsActive(pathname, items[k])
  {
    if items == [] then -1
    else if IsActive(pathname, items[0]) then 0
    else
      var rest := ActiveIndex(pathname, items[1..]);
      if rest < 0 then -1 else rest + 1
  }

  /** The table's three items in their fixed order, with distinct paths. */
  lemma NavItemsTable()
    ensures |NavItems| == 3
    ensures NavItems[0].path == "/" && NavItems[0].title == "Home" && NavItems[0].icon == "home"
    ensures NavItems[1].path == "/about" && NavItems[1].title == "About" && NavItems[1].icon == "file"
    ensures NavItems[2].path == "/account" && NavItems[2].title == "My Account" && NavItems[2].icon == "account"
    ensures DistinctPaths(NavItems)
  {
    assert "/" != "/about" && "/" != "/account";
    assert "/about"[2] != "/account"[2];
  }

  /** For every pathname the bar shows one link per item, in table order, and at most one is highlighted. */
  lemma NavbarRendering(pathname: string)
    ensures var links := RenderNavItems(pathname, NavItems);
      && |links| == 3
      && links[0].href == "/" && links[1].href == "/about" && links[2].href == "/account"
      && forall i, j :: 0 <= i < j < 3 ==>
           !(links[i].className == BaseClass + HighlightClass && links[j].className == BaseClass + HighlightClass)
  {
    NavItemsTable();
    var links := RenderNavItems(pathname, NavItems);
    forall i, j | 0 <= i < j < 3
      ensures !(links[i].className == BaseClass + HighlightClass && links[j].className == BaseClass + HighlightClass)
    {
      HighlightIffActive(pathname, NavItems[i]);
      HighlightIffActive(pathname, NavItems[j]);
    }
  }

  /** A nested page such as the new-listing form under the account page activates no item. */
  lemma NestedPathActivatesNone()
    ensures ActiveIndex("/account/new_listing", NavItems) == -1
  {
    assert "/account/new_listing" != "/account";
    assert "/account/new_listing" != "/about";
    assert "/account/new_listing" != "/";
  }
}
