/** The CRM navigation bar: which entry is highlighted for the current
    pathname, and the button variant it gets. */
module CrmNavigation {
  import opened Text

  datatype NavItem = NavItem(title: string, href: string)

  /** `CRMNavigationItems`. */
  const HomeHref := "/dashboard/crm"
  const Items: seq<NavItem> := [
    NavItem("Home", HomeHref),
    NavItem("Leads", "/dashboard/crm/leads"),
    NavItem("Contact", "/dashboard/crm/contact")
  ]

  datatype Variant = Secondary | Ghost

  /** One rendered navigation button. */
  datatype NavButton = NavButton(title: string, target: string, variant: Variant, className: string)

  /** `isActive`: the home entry only on its own page, any other entry on
      every page under its href. */
  predicate IsActive(item: NavItem, pathname: string) {
    if item.href == HomeHref then pathname == item.href else StartsWith(pathname, item.href)
  }

  function ButtonFor(item: NavItem, pathname: string): (b: NavButton)
    ensures b.variant == Secondary <==> IsActive(item, pathname)
    ensures b.title == item.title && b.target == item.href
  {
    var active := IsActive(item, pathname);
    NavButton(item.title, item.href,
              if active then Secondary else Ghost,
              "cursor-pointer " + if active then "bg-muted text-primary" else "text-muted-foreground")
  }

  /** `CRMNavigationItems.map(...)`. */
  function Buttons(pathname: string): (bs: seq<NavButton>)
    ensures |bs| == |Items|
    ensures forall i :: 0 <= i < |Items| ==> bs[i] == ButtonFor(Items[i], pathname)
  {
    seq(|Items|, i requires 0 <= i < |Items| => ButtonFor(Items[i], pathname))
  }

  /** The home entry is active only on the exact home pathname. */
  lemma HomeActiveIff(pathname: string)
    ensures IsActive(Items[0], pathname) <==> pathname == "/dashboard/crm"
  {
  }

  /** Every other entry is active exactly on pathnames starting with its href,
      including pages below it. */
  lemma OtherActiveIff(i: nat, pathname: string)
    requires 0 < i < |Items|
    ensures IsActive(Items[i], pathname) <==> StartsWith(pathname, Items[i].href)
  {
  }

  /** With these three entries at most one is active for any pathname: home
      needs the exact pathname, which starts with neither other href, and the
      other two hrefs part at their sixteenth character. */
  lemma AtMostOneActive(pathname: string, i: nat, j: nat)
    requires i < |Items| && j < |Items|
    requires IsActive(Items[i], pathname) && IsActive(Items[j], pathname)
    ensures i == j
  {
    var leads, contact := Items[1].href, Items[2].href;
    assert leads[15] == 'l' && contact[15] == 'c';
    assert |leads| > |HomeHref| && |contact| > |HomeHref|;
  }

  /** Among the rendered buttons, at most one has the `secondary` variant. */
  lemma AtMostOneHighlighted(pathname: string, i: nat, j: nat)
    requires i < |Items| && j < |Items|
    requires Buttons(pathname)[i].variant == Secondary && Buttons(pathname)[j].variant == Secondary
    ensures i == j
  {
    AtMostOneActive(pathname, i, j);
  }
}
