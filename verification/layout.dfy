/** The page shell: which page a URL path belongs to, and which side menu
    that page shows. */
module Layout {
  import opened Wrappers
  import Strings
  import Catalog

  datatype PageKind = Inventory | Reports | Employees | Kitchen | Customer | Menu

  /** The keyword that selects each page; the menu page is the fallback and has none. */
  function Keyword(k: PageKind): string
    requires k != Menu
  {
    match k
    case Inventory => "inventory"
    case Reports => "reports"
    case Employees => "employees"
    case Kitchen => "kitchen"
    case Customer => "customer"
  }

  /** Position of each page in the keyword test order; the fallback is last. */
  function Rank(k: PageKind): nat {
    match k
    case Inventory => 0
    case Reports => 1
    case Employees => 2
    case Kitchen => 3
    case Customer => 4
    case Menu => 5
  }

  /** The path's page: the first keyword, in the order inventory, reports,
      employees, kitchen, customer, that occurs anywhere in the path; the menu
      page when none does. */
  function ClassifyPath(path: string): (k: PageKind)
    ensures k != Menu ==> Strings.Contains(path, Keyword(k))
    ensures forall e: PageKind :: e != Menu && Rank(e) < Rank(k) ==> !Strings.Contains(path, Keyword(e))
  {
    if Strings.Contains(path, "inventory") then Inventory
    else if Strings.Contains(path, "reports") then Reports
    else if Strings.Contains(path, "employees") then Employees
    else if Strings.Contains(path, "kitchen") then Kitchen
    else if Strings.Contains(path, "customer") then Customer
    else Menu
  }

  /** A path is classified as the menu exactly when it contains no keyword. */
  lemma MenuIffNoKeyword(path: string)
    ensures ClassifyPath(path) == Menu <==> forall e: PageKind :: e != Menu ==> !Strings.Contains(path, Keyword(e))
  {
    var k := ClassifyPath(path);
    if k != Menu {
      assert Strings.Contains(path, Keyword(k));
    }
  }

  /** A keyword anywhere in the path selects its page or an earlier one. */
  lemma KeywordBoundsRank(path: string, e: PageKind)
    requires e != Menu && Strings.Contains(path, Keyword(e))
    ensures Rank(ClassifyPath(path)) <= Rank(e)
  {
  }

  /** The keyword is matched anywhere in the path, not as a whole segment. */
  lemma SubstringMatch(path: string, k: PageKind, j: int)
    requires k != Menu && Strings.OccursAt(path, Keyword(k), j)
    ensures Rank(ClassifyPath(path)) <= Rank(k)
  {
    Strings.ContainsIff(path, Keyword(k));
  }

  lemma KitchenViewIsKitchen()
    ensures ClassifyPath("/kitchenview") == Kitchen
  {
    var path := "/kitchenview";
    assert path[1..8] == "kitchen";
    KitchenWithoutEarlierLetters(path, 1);
  }

  /** A path holding "kitchen" but no 'o', 'r' or 'm' is the kitchen page:
      each earlier keyword needs one of those letters. */
  lemma KitchenWithoutEarlierLetters(path: string, j: int)
    requires Strings.OccursAt(path, "kitchen", j)
    requires forall i :: 0 <= i < |path| ==> path[i] != 'o' && path[i] != 'r' && path[i] != 'm'
    ensures ClassifyPath(path) == Kitchen
  {
    SubstringMatch(path, Kitchen, j);
    assert Keyword(Inventory)[6] == 'o';
    NoKeyword(path, Inventory, 6);
    assert Keyword(Reports)[0] == 'r';
    NoKeyword(path, Reports, 0);
    assert Keyword(Employees)[1] == 'm';
    NoKeyword(path, Employees, 1);
  }

  /** A keyword with a letter the path lacks cannot occur in it. */
  lemma NoKeyword(path: string, k: PageKind, i: nat)
    requires k != Menu && i < |Keyword(k)|
    requires forall j :: 0 <= j < |path| ==> path[j] != Keyword(k)[i]
    ensures !Strings.Contains(path, Keyword(k))
  {
    var kw := Keyword(k);
    Strings.ContainsIff(path, kw);
    forall j ensures !Strings.OccursAt(path, kw, j) {
      if 0 <= j && j + |kw| <= |path| {
        assert path[j..j + |kw|][i] == path[j + i];
      }
    }
  }

  /** Earlier keywords win: a path mentioning both reports and customer
      is the reports page unless it also mentions inventory. */
  lemma ReportsBeatsCustomer(path: string)
    requires Strings.Contains(path, "reports") && Strings.Contains(path, "customer")
    requires !Strings.Contains(path, "inventory")
    ensures ClassifyPath(path) == Reports
  {
  }

  /** What the side column shows. */
  datatype SideMenu = LoyaltyMenu(customer: Catalog.Customer) | Empty | NavMenu(page: PageKind)

  /** The customer page shows the signed-in customer's loyalty menu, or
      nothing; every other page shows the navigation menu for itself. */
  function SideMenuFor(page: PageKind, customer: Option<Catalog.Customer>): (m: SideMenu)
    ensures m.LoyaltyMenu? <==> page == Customer && customer.Some?
    ensures m.LoyaltyMenu? ==> m.customer == customer.value
    ensures m.Empty? <==> page == Customer && customer.None?
    ensures m.NavMenu? ==> m.page == page && page != Customer
  {
    if page == Customer then
      match customer
      case Some(c) => LoyaltyMenu(c)
      case None => Empty
    else NavMenu(page)
  }
}
