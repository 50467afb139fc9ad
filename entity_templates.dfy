/** The fixed catalogue of entity templates: each template names an entity
    variant and a display category, and the categories have a fixed order. */
module Templates {
  import opened Wrappers
  import Entities

  /** The display category of a template. */
  datatype EntityCategory = Debt | Expense | Income | Investment

  /** The string value of each `EntityCategory` member. */
  function CategoryName(c: EntityCategory): string {
    match c
    case Debt => "debt"
    case Expense => "expense"
    case Income => "income"
    case Investment => "investment"
  }

  /** `ENTITY_CATEGORY_SORT_ORDER`. */
  const SortOrder: seq<EntityCategory> := [Income, Investment, Debt, Expense]

  /** A template; its icon is presentation only and not part of the model. */
  datatype EntityTemplate = EntityTemplate(key: string, name: string, category: EntityCategory,
                                           entityType: Entities.EntityType)

  /** `ENTITY_TEMPLATES`, in table order. */
  const Catalogue: seq<EntityTemplate> := [
    EntityTemplate("auto-loan", "Auto Loan", Debt, Entities.Debt),
    EntityTemplate("credit-card", "Credit Card", Debt, Entities.Debt),
    EntityTemplate("mortgage", "Mortgage", Debt, Entities.Debt),
    EntityTemplate("student-loan", "Student Loan", Debt, Entities.Debt),
    EntityTemplate("bills", "Bills", Expense, Entities.Expense),
    EntityTemplate("medical", "Medical", Expense, Entities.Expense),
    EntityTemplate("spending", "Spending", Expense, Entities.Expense),
    EntityTemplate("vacation", "Vacation", Expense, Entities.Expense),
    EntityTemplate("job", "Job", Income, Entities.Income),
    EntityTemplate("social-security", "Social Security", Income, Entities.Income),
    EntityTemplate("windfall", "Windfall", Income, Entities.Income),
    EntityTemplate("brokerage", "Brokerage Account", Investment, Entities.Account),
    EntityTemplate("checking", "Checking Account", Investment, Entities.Account),
    EntityTemplate("etf", "ETF", Investment, Entities.Holding),
    EntityTemplate("house", "House", Investment, Entities.Possession),
    EntityTemplate("mutual-fund", "Mutual Fund", Investment, Entities.Holding),
    EntityTemplate("savings", "Savings", Investment, Entities.Account),
    EntityTemplate("stock", "Stock", Investment, Entities.Holding),
    EntityTemplate("valuable", "Valuable", Investment, Entities.Possession),
    EntityTemplate("vehicle", "Vehicle", Investment, Entities.Possession)
  ]

  /** The category each entity variant is catalogued under. */
  function CategoryOf(t: Entities.EntityType): EntityCategory {
    match t
    case Debt => Debt
    case Expense => Expense
    case Income => Income
    case _ => Investment
  }

  /** The first template of `ts` whose key is `key`. */
  function FindByKey(ts: seq<EntityTemplate>, key: string): (r: Option<EntityTemplate>)
    ensures r.None? <==> forall i :: 0 <= i < |ts| ==> ts[i].key != key
    ensures r.Some? ==> exists i :: 0 <= i < |ts| && ts[i] == r.value && r.value.key == key &&
                                    forall j :: 0 <= j < i ==> ts[j].key != key
  {
    if ts == [] then None
    else if ts[0].key == key then Some(ts[0])
    else
      var r := FindByKey(ts[1..], key);
      assert forall j :: 1 <= j < |ts| ==> ts[j] == ts[1..][j - 1];
      r
  }

  /** `getEntityTemplate(key)`. */
  function GetEntityTemplate(key: string): (r: Option<EntityTemplate>)
    ensures r.None? <==> forall i :: 0 <= i < |Catalogue| ==> Catalogue[i].key != key
    ensures r.Some? ==> r.value in Catalogue && r.value.key == key
  {
    FindByKey(Catalogue, key)
  }

  /** The templates of `ts` whose variant is `t`, in order. */
  function FilterByType(ts: seq<EntityTemplate>, t: Entities.EntityType): (r: seq<EntityTemplate>)
    ensures forall x :: x in r <==> x in ts && x.entityType == t
    ensures |r| <= |ts|
  {
    if ts == [] then []
    else
      var rest := FilterByType(ts[..|ts| - 1], t);
      assert forall x :: x in ts <==> x in ts[..|ts| - 1] || x == ts[|ts| - 1];
      if ts[|ts| - 1].entityType == t then rest + [ts[|ts| - 1]] else rest
  }

  /** `getTemplatesForEntityType(entityType)`. */
  function GetTemplatesForEntityType(t: Entities.EntityType): (r: seq<EntityTemplate>)
    ensures forall x :: x in r <==> x in Catalogue && x.entityType == t
  {
    FilterByType(Catalogue, t)
  }

  /** Filtering keeps the relative order: the result of a filter of `ts ++ [x]`
      extends the filter of `ts`. */
  lemma FilterByTypeAppend(ts: seq<EntityTemplate>, x: EntityTemplate, t: Entities.EntityType)
    ensures FilterByType(ts + [x], t) == FilterByType(ts, t) + (if x.entityType == t then [x] else [])
  {
    assert (ts + [x])[..|ts|] == ts;
  }

  /** No two templates share a key, so a key names one template. */
  lemma KeysDistinct()
    ensures forall i, j :: 0 <= i < j < |Catalogue| ==> Catalogue[i].key != Catalogue[j].key
  {
  }

  /** Looking up a template's own key gives that template back. */
  lemma LookupOwnKey(i: int)
    requires 0 <= i < |Catalogue|
    ensures GetEntityTemplate(Catalogue[i].key) == Some(Catalogue[i])
  {
    KeysDistinct();
    var r := GetEntityTemplate(Catalogue[i].key);
    var k :| 0 <= k < |Catalogue| && Catalogue[k] == r.value && r.value.key == Catalogue[i].key &&
             forall j :: 0 <= j < k ==> Catalogue[j].key != Catalogue[i].key;
    assert k == i;
  }

  /** The key the fallback entity carries names no template. */
  lemma FallbackKeyHasNoTemplate()
    ensures GetEntityTemplate("fallback").None?
  {
    assert forall i :: 0 <= i < |Catalogue| ==> Catalogue[i].key[0] != 'f';
  }

  /** Every template's category is the one its variant is catalogued under. */
  lemma CategoryFollowsType()
    ensures forall i :: 0 <= i < |Catalogue| ==> Catalogue[i].category == CategoryOf(Catalogue[i].entityType)
  {
  }

  /** Every category has its place in the sort order, exactly once. */
  lemma SortOrderComplete(c: EntityCategory)
    ensures c in SortOrder
    ensures forall i, j :: 0 <= i < j < |SortOrder| ==> SortOrder[i] != SortOrder[j]
  {
  }
}
