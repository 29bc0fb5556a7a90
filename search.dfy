/** The validation and query-building half of `searchProducts`: the sort-field
    whitelist, the sort-direction check, and the conjunction of optional filters
    built one criterion at a time. */
module Search {
  import opened Wrappers
  import opened Text
  import opened Catalog

  // ---------------------------------------------------------------------------
  // sort field and direction

  /** `isValidSortByField`: exact, case-sensitive comparison against five names. */
  predicate IsValidSortByField(sortBy: string) {
    sortBy == "name" || sortBy == "price" || sortBy == "brand"
    || sortBy == "categoryName" || sortBy == "createdAt"
  }

  /** The document fields a search may be sorted by. */
  datatype SortField = Name | Price | Brand | CategoryName | CreatedAt

  datatype Direction = Asc | Desc

  /** The requested order; the store always breaks ties by ascending id. */
  datatype SortSpec = SortSpec(field: SortField, direction: Direction)

  /** The document field name a sort field stands for. */
  function FieldName(f: SortField): string {
    match f
    case Name => "name"
    case Price => "price"
    case Brand => "brand"
    case CategoryName => "categoryName"
    case CreatedAt => "createdAt"
  }

  /** The sort field a request names, as `Sort.by(..., sortBy)` resolves it. */
  function SortFieldOf(sortBy: string): (r: Option<SortField>)
    ensures r.Some? ==> FieldName(r.value) == sortBy
  {
    if sortBy == "name" then Some(Name)
    else if sortBy == "price" then Some(Price)
    else if sortBy == "brand" then Some(Brand)
    else if sortBy == "categoryName" then Some(CategoryName)
    else if sortBy == "createdAt" then Some(CreatedAt)
    else None
  }

  /** The whitelist accepts exactly the names that resolve to a sort field, and
      resolving a field's own name gives that field back. */
  lemma SortFieldWhitelist(sortBy: string, f: SortField)
    ensures IsValidSortByField(sortBy) <==> SortFieldOf(sortBy).Some?
    ensures SortFieldOf(FieldName(f)) == Some(f)
  {
  }

  /** `sortDirection.equalsIgnoreCase("asc") || sortDirection.equalsIgnoreCase("desc")`. */
  predicate IsValidDirection(d: string) {
    EqualsIgnoreCase(d, "asc") || EqualsIgnoreCase(d, "desc")
  }

  /** `Sort.Direction.fromString` on a direction that passed the check. */
  function DirectionOf(d: string): (r: Direction)
    requires IsValidDirection(d)
    ensures r == Desc <==> ToLower(d) == "desc"
    ensures r == Asc <==> ToLower(d) == "asc"
  {
    if EqualsIgnoreCase(d, "desc") then Desc else Asc
  }

  /** The direction check ignores letter case: it accepts `d` exactly when it
      accepts the lower-cased `d`, and the lower-cased `d` is then "asc" or "desc". */
  lemma {:induction false} DirectionCaseInsensitive(d: string)
    ensures IsValidDirection(d) <==> IsValidDirection(ToLower(d))
    ensures IsValidDirection(d) <==> ToLower(d) == "asc" || ToLower(d) == "desc"
  {
    ToLowerIdempotent(d);
    assert ToLower("asc") == "asc";
    assert ToLower("desc") == "desc";
  }

  /** Upper- and mixed-case spellings pass; other words do not. */
  lemma DirectionExamples()
    ensures IsValidDirection("DESC") && DirectionOf("DESC") == Desc
    ensures IsValidDirection("Asc") && DirectionOf("Asc") == Asc
    ensures !IsValidDirection("ascending") && !IsValidDirection("")
  {
    DirectionCaseInsensitive("DESC");
    DirectionCaseInsensitive("Asc");
    DirectionCaseInsensitive("ascending");
    DirectionCaseInsensitive("");
    forall i | 0 <= i < 4 ensures LowerChar("DESC"[i]) == "desc"[i] {
    }
    forall i | 0 <= i < 3 ensures LowerChar("Asc"[i]) == "asc"[i] {
    }
    LowerAll("DESC", "desc");
    LowerAll("Asc", "asc");
  }

  /** The BAD_REQUEST message for an unknown sort field. It lists four options,
      although the check also accepts "createdAt". */
  function InvalidSortByMessage(sortBy: string): string {
    "Invalid sortBy value: " + sortBy + ". " + "Available sorting options: name, price, brand, categoryName"
  }

  const InvalidDirectionMessage: string := "Direction must only be 'asc' or 'desc'"

  // ---------------------------------------------------------------------------
  // the filters

  /** The search parameters after the comma-separated lists have been split. */
  datatype SearchQuery = SearchQuery(
    keyword: Option<string>,
    categories: seq<string>,
    minPrice: Option<real>,
    maxPrice: Option<real>,
    boardSizes: seq<string>,
    brands: seq<string>)

  /** The keyword part: a case-insensitive match on name, brand, category name or
      description, or an exact tag. */
  predicate KeywordHit(keyword: string, p: Product) {
    || ContainsIgnoreCase(p.name, keyword)
    || ContainsIgnoreCase(p.brand, keyword)
    || ContainsIgnoreCase(p.categoryName, keyword)
    || ContainsIgnoreCase(p.description, keyword)
    || keyword in p.tags
  }

  predicate KeywordActive(q: SearchQuery) {
    q.keyword.Some? && q.keyword.value != ""
  }

  /** The query `searchProducts` builds from its raw parameters: each comma-separated
      list is split and its empty segments dropped. */
  function QueryOf(keyword: Option<string>, category: string, minPrice: Option<real>,
                   maxPrice: Option<real>, boardSize: string, brand: string): (q: SearchQuery)
    ensures forall i :: 0 <= i < |q.categories| ==> q.categories[i] != ""
    ensures forall i :: 0 <= i < |q.boardSizes| ==> q.boardSizes[i] != ""
    ensures forall i :: 0 <= i < |q.brands| ==> q.brands[i] != ""
  {
    SearchQuery(keyword, SplitNonEmpty(category), minPrice, maxPrice, SplitNonEmpty(boardSize), SplitNonEmpty(brand))
  }

  /** Reference meaning of a search: a product matches when it passes every
      filter that is switched on; an absent or empty parameter switches its
      filter off, and price bounds are inclusive. */
  predicate Matches(q: SearchQuery, p: Product) {
    && (KeywordActive(q) ==> KeywordHit(q.keyword.value, p))
    && (q.categories != [] ==> p.categoryName in q.categories)
    && (q.minPrice.Some? ==> p.price >= q.minPrice.value)
    && (q.maxPrice.Some? ==> p.price <= q.maxPrice.value)
    && (q.boardSizes != [] ==> p.boardSize in q.boardSizes)
    && (q.brands != [] ==> p.brand in q.brands)
  }

  /** Some filter is switched on. */
  predicate HasActiveFilter(q: SearchQuery) {
    KeywordActive(q) || q.categories != [] || q.minPrice.Some? || q.maxPrice.Some?
    || q.boardSizes != [] || q.brands != []
  }

  /** With no filter switched on, every product matches. */
  lemma NoFilterMatchesAll(q: SearchQuery, p: Product)
    requires !HasActiveFilter(q)
    ensures Matches(q, p)
  {
  }

  /** One entry of `criteriaList`. */
  datatype Criterion =
    | KeywordAnyField(keyword: string)
    | CategoryIn(categories: seq<string>)
    | PriceAtLeast(min: real)
    | PriceAtMost(max: real)
    | BoardSizeIn(boardSizes: seq<string>)
    | BrandIn(brands: seq<string>)

  /** What the store tests for one criterion. */
  predicate Holds(c: Criterion, p: Product) {
    match c
    case KeywordAnyField(k) => KeywordHit(k, p)
    case CategoryIn(vs) => p.categoryName in vs
    case PriceAtLeast(lo) => p.price >= lo
    case PriceAtMost(hi) => p.price <= hi
    case BoardSizeIn(vs) => p.boardSize in vs
    case BrandIn(vs) => p.brand in vs
  }

  /** `matchCriteria`: an empty `new Criteria()` or `andOperator` over the list. */
  datatype Criteria = MatchAll | AllOf(parts: seq<Criterion>)

  predicate Satisfies(m: Criteria, p: Product) {
    match m
    case MatchAll => true
    case AllOf(parts) => AllHold(parts, p)
  }

  /** Every criterion in the list holds. */
  predicate AllHold(cs: seq<Criterion>, p: Product) {
    forall i :: 0 <= i < |cs| ==> Holds(cs[i], p)
  }

  lemma AllHoldAppend(cs: seq<Criterion>, c: Criterion, p: Product)
    ensures AllHold(cs + [c], p) <==> AllHold(cs, p) && Holds(c, p)
  {
    assert forall i :: 0 <= i < |cs| ==> (cs + [c])[i] == cs[i];
    assert (cs + [c])[|cs|] == c;
  }

  /** Builds `criteriaList` by successive appends and combines it. The result
      selects exactly the products `Matches` accepts, and it is the match-all
      criteria exactly when no filter is switched on. */
  method BuildCriteria(q: SearchQuery) returns (m: Criteria)
    ensures forall p :: Satisfies(m, p) <==> Matches(q, p)
    ensures m.MatchAll? <==> !HasActiveFilter(q)
  {
    var criteriaList: seq<Criterion> := [];
    if KeywordActive(q) {
      criteriaList := criteriaList + [KeywordAnyField(q.keyword.value)];
    }
    ghost var l1 := criteriaList;
    if q.categories != [] {
      criteriaList := criteriaList + [CategoryIn(q.categories)];
    }
    ghost var l2 := criteriaList;
    if q.minPrice.Some? {
      criteriaList := criteriaList + [PriceAtLeast(q.minPrice.value)];
    }
    ghost var l3 := criteriaList;
    if q.maxPrice.Some? {
      criteriaList := criteriaList + [PriceAtMost(q.maxPrice.value)];
    }
    ghost var l4 := criteriaList;
    if q.boardSizes != [] {
      criteriaList := criteriaList + [BoardSizeIn(q.boardSizes)];
    }
    ghost var l5 := criteriaList;
    if q.brands != [] {
      criteriaList := criteriaList + [BrandIn(q.brands)];
    }
    forall p ensures AllHold(criteriaList, p) <==> Matches(q, p) {
      if KeywordActive(q) { AllHoldAppend([], KeywordAnyField(q.keyword.value), p); }
      if q.categories != [] { AllHoldAppend(l1, CategoryIn(q.categories), p); }
      if q.minPrice.Some? { AllHoldAppend(l2, PriceAtLeast(q.minPrice.value), p); }
      if q.maxPrice.Some? { AllHoldAppend(l3, PriceAtMost(q.maxPrice.value), p); }
      if q.boardSizes != [] { AllHoldAppend(l4, BoardSizeIn(q.boardSizes), p); }
      if q.brands != [] { AllHoldAppend(l5, BrandIn(q.brands), p); }
    }
    m := MatchAll;
    if criteriaList != [] {
      m := AllOf(criteriaList);
    }
  }
}
