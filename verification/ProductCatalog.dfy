/** The catalog page: it merges the product list with the stock index into
    catalog items, shows the in-stock items first, and narrows them by search
    term, category or availability, a window of 24 items at a time. */
module ProductCatalog {
  import opened Seqs
  import opened Text
  import opened Stock
  import opened Products
  import Sidebar

  /** The number of items the window grows by, and its size after every search or filter. */
  const PageSize: nat := 24

  /** The catalog item built from one product. */
  function NormalizeProduct(p: RawProduct, index: StockMap): (item: CatalogItem) {
    CatalogItem(
      id := p.skuPadre,
      name := p.nombrePadre,
      description := p.descripcion,
      categorias := p.categorias,
      imageUrl := FirstImage(p.imagenesPadre),
      tipo := FirstVariantTipo(p.hijos),
      stock := StockOf(index, p.skuPadre))
  }

  /** `productsData.map(...)`: one item per product, in the same order. */
  function Normalize(products: seq<RawProduct>, index: StockMap): (items: seq<CatalogItem>)
    ensures |items| == |products|
    ensures forall i :: 0 <= i < |products| ==> items[i] == NormalizeProduct(products[i], index)
    decreases |products|
  {
    if products == [] then []
    else [NormalizeProduct(products[0], index)] + Normalize(products[1..], index)
  }

  /** What the listing shows of the i-th product. */
  lemma NormalizedItem(products: seq<RawProduct>, stocks: seq<StockEntry>, i: int)
    requires 0 <= i < |products|
    ensures var item := Normalize(products, StockIndex(stocks))[i];
      && item.id == products[i].skuPadre
      && item.categorias == products[i].categorias
      && (products[i].imagenesPadre != [] ==> item.imageUrl == Some(products[i].imagenesPadre[0]))
      && (products[i].imagenesPadre == [] ==> item.imageUrl == None)
      && (products[i].hijos.None? || products[i].hijos.value == [] ==> item.tipo == "")
      && (products[i].hijos.Some? && products[i].hijos.value != [] ==>
            item.tipo == OrElse(products[i].hijos.value[0].tipo, ""))
      && ((forall j :: 0 <= j < |stocks| ==> stocks[j].material != products[i].skuPadre) ==> item.stock == 0)
  {
    StockOfEntries(stocks, products[i].skuPadre);
  }

  /** An item's stock is the quantity of the last stock entry for its code; a negative one is kept. */
  lemma NormalizedStock(products: seq<RawProduct>, stocks: seq<StockEntry>, i: int, j: int)
    requires 0 <= i < |products| && 0 <= j < |stocks|
    requires stocks[j].material == products[i].skuPadre
    requires forall k :: j < k < |stocks| ==> stocks[k].material != products[i].skuPadre
    ensures Normalize(products, StockIndex(stocks))[i].stock == stocks[j].stock
  {
    StockOfEntries(stocks, products[i].skuPadre);
  }

  predicate HasStock(item: CatalogItem) { item.stock > 0 }

  /** `products.filter(product => product.stock > 0)`: the initial view and the cleared search. */
  function InStock(items: seq<CatalogItem>): (r: seq<CatalogItem>)
    ensures forall x :: x in r <==> x in items && x.stock > 0
    ensures forall x :: multiset(r)[x] == (if x.stock > 0 then multiset(items)[x] else 0)
    ensures IsSubsequence(r, items)
  {
    FilterIsSubsequence(items, HasStock);
    Filter(items, HasStock)
  }

  /** Showing the in-stock items again changes nothing. */
  lemma InStockIdempotent(items: seq<CatalogItem>)
    ensures InStock(InStock(items)) == InStock(items)
  {
    FilterIdempotent(items, HasStock);
  }

  /** The item's lower-cased name or description contains the lower-cased term. */
  predicate MatchesTerm(item: CatalogItem, term: string) {
    Includes(Lower(item.name), Lower(term)) || Includes(Lower(item.description), Lower(term))
  }

  function TermPredicate(term: string): CatalogItem -> bool {
    item => MatchesTerm(item, term)
  }

  function SearchPredicate(term: string): CatalogItem -> bool {
    (item: CatalogItem) => MatchesTerm(item, term) && item.stock > 0
  }

  /** The list `handleSearch` stores: the in-stock items for an empty term, otherwise the
      in-stock items whose name or description contains the term, ignoring case. */
  function SearchResult(items: seq<CatalogItem>, term: string): (r: seq<CatalogItem>)
    ensures forall x :: x in r <==> x in items && x.stock > 0 && (term == "" || MatchesTerm(x, term))
    ensures forall x :: multiset(r)[x] == (if x.stock > 0 && (term == "" || MatchesTerm(x, term)) then multiset(items)[x] else 0)
    ensures IsSubsequence(r, items)
  {
    if term == "" then InStock(items)
    else
      FilterIsSubsequence(items, SearchPredicate(term));
      Filter(items, SearchPredicate(term))
  }

  /** A search narrows the in-stock view: it keeps those in-stock items that match, in order. */
  lemma SearchWithinDefaultView(items: seq<CatalogItem>, term: string)
    requires term != ""
    ensures SearchResult(items, term) == Filter(InStock(items), TermPredicate(term))
  {
    FilterConjunction(items, TermPredicate(term), HasStock, SearchPredicate(term));
  }

  /** Terms that lower-case alike give the same result. */
  lemma SearchIgnoresCase(items: seq<CatalogItem>, term1: string, term2: string)
    requires Lower(term1) == Lower(term2)
    ensures SearchResult(items, term1) == SearchResult(items, term2)
  {
    if term1 != "" {
      assert |term2| == |Lower(term2)| == |term1|;
      FilterCongruent(items, SearchPredicate(term1), SearchPredicate(term2));
    }
  }

  /** A term and its upper-cased form find the same items. */
  lemma SearchUpperCase(items: seq<CatalogItem>, term: string)
    ensures SearchResult(items, Upper(term)) == SearchResult(items, term)
  {
    LowerOfUpper(term);
    SearchIgnoresCase(items, Upper(term), term);
  }

  /** The availability choice of the sidebar: `disponible`, `agotado`, or anything else for all. */
  predicate MatchesAvailability(item: CatalogItem, value: string) {
    if value == "disponible" then item.stock > 0
    else if value == "agotado" then item.stock == 0
    else true
  }

  function CategoryPredicate(value: string): CatalogItem -> bool {
    (item: CatalogItem) => item.categorias == Some(value) && item.stock > 0
  }

  function InCategory(value: string): CatalogItem -> bool {
    (item: CatalogItem) => item.categorias == Some(value)
  }

  function AvailabilityPredicate(value: string): CatalogItem -> bool {
    item => MatchesAvailability(item, value)
  }

  /** Whether the filter of `handleFilterChange` keeps an item. */
  predicate KeptByFilter(filterType: string, value: string, item: CatalogItem) {
    if filterType == "categorias" then item.categorias == Some(value) && item.stock > 0
    else if filterType == "existencia" then MatchesAvailability(item, value)
    else true
  }

  /** The list `handleFilterChange` stores. */
  function FilterResult(items: seq<CatalogItem>, filterType: string, value: string): (r: seq<CatalogItem>)
    ensures forall x :: x in r <==> x in items && KeptByFilter(filterType, value, x)
    ensures forall x :: multiset(r)[x] == (if KeptByFilter(filterType, value, x) then multiset(items)[x] else 0)
    ensures IsSubsequence(r, items)
  {
    if filterType == "categorias" then
      FilterIsSubsequence(items, CategoryPredicate(value));
      Filter(items, CategoryPredicate(value))
    else if filterType == "existencia" then
      FilterIsSubsequence(items, AvailabilityPredicate(value));
      Filter(items, AvailabilityPredicate(value))
    else
      SubsequenceReflexive(items);
      items
  }

  /** A category filter narrows the in-stock view to that category, in order. */
  lemma CategoryWithinDefaultView(items: seq<CatalogItem>, value: string)
    ensures FilterResult(items, "categorias", value) == Filter(InStock(items), InCategory(value))
  {
    FilterConjunction(items, InCategory(value), HasStock, CategoryPredicate(value));
  }

  /** An availability value other than the two known ones, or an unknown filter type, keeps every item. */
  lemma UnknownFilterKeepsAll(items: seq<CatalogItem>, filterType: string, value: string)
    requires filterType != "categorias"
    requires filterType != "existencia" || (value != "disponible" && value != "agotado")
    ensures FilterResult(items, filterType, value) == items
  {
    if filterType == "existencia" {
      FilterKeepsAll(items, AvailabilityPredicate(value));
    }
  }

  predicate NonNegativeStock(item: CatalogItem) { item.stock >= 0 }

  /** `disponible` and `agotado` split the items with non-negative stock between them;
      an item with negative stock is in neither. */
  lemma AvailabilityPartition(items: seq<CatalogItem>)
    ensures var available := FilterResult(items, "existencia", "disponible");
      var soldOut := FilterResult(items, "existencia", "agotado");
      && (forall x :: !(x in available && x in soldOut))
      && (forall x :: x in items && x.stock >= 0 ==> x in available || x in soldOut)
      && (forall x :: x in items && x.stock < 0 ==> x !in available && x !in soldOut)
      && |available| + |soldOut| == |Filter(items, NonNegativeStock)|
  {
    FilterDisjointCount(items, AvailabilityPredicate("disponible"), AvailabilityPredicate("agotado"), NonNegativeStock);
  }

  /** The state of the catalog page: all items, the current selection and the window size. */
  class CatalogView {
    var products: seq<CatalogItem>
    var filtered: seq<CatalogItem>
    var visible: nat

    /** The selection is always drawn from the items, and the window is a positive multiple of the page size. */
    ghost predicate Valid()
      reads this
    {
      IsSubsequence(filtered, products) && visible >= PageSize && visible % PageSize == 0
    }

    constructor ()
      ensures Valid()
      ensures products == [] && filtered == [] && visible == PageSize
    {
      products, filtered, visible := [], [], PageSize;
    }

    /** `loadData` once both lists have arrived: index the stock, normalize the
        products and select those in stock. The window is left as it is. */
    method Load(productsData: seq<RawProduct>, stocksData: seq<StockEntry>)
      requires Valid()
      modifies this
      ensures Valid()
      ensures products == Normalize(productsData, StockIndex(stocksData))
      ensures filtered == InStock(products)
      ensures visible == old(visible)
    {
      var stocksMap := BuildStockIndex(stocksData);
      products := Normalize(productsData, stocksMap);
      filtered := InStock(products);
    }

    /** `handleSearch` */
    method Search(term: string)
      requires Valid()
      modifies this
      ensures Valid()
      ensures products == old(products)
      ensures filtered == SearchResult(products, term)
      ensures visible == PageSize
    {
      filtered := SearchResult(products, term);
      visible := PageSize;
    }

    /** The sidebar's search form: its term goes to `handleSearch` unchanged. */
    method SubmitSearch(bar: Sidebar.SidebarState)
      requires Valid()
      modifies this
      ensures Valid()
      ensures products == old(products)
      ensures filtered == SearchResult(products, bar.searchTerm)
      ensures visible == PageSize
    {
      var term := bar.Submit();
      Search(term);
    }

    /** `handleFilterChange` */
    method FilterChange(filterType: string, value: string)
      requires Valid()
      modifies this
      ensures Valid()
      ensures products == old(products)
      ensures filtered == FilterResult(products, filterType, value)
      ensures visible == PageSize
    {
      filtered := FilterResult(products, filterType, value);
      visible := PageSize;
    }

    /** `loadMoreProducts`: the window grows by one page and what was shown stays shown. */
    method LoadMore()
      requires Valid()
      modifies this
      ensures Valid()
      ensures products == old(products) && filtered == old(filtered)
      ensures visible == old(visible) + PageSize
      ensures old(Displayed()) <= Displayed()
    {
      visible := visible + PageSize;
    }

    /** `filteredProducts.slice(0, visibleProducts)` */
    function Displayed(): (shown: seq<CatalogItem>)
      reads this
      ensures |shown| == Min(visible, |filtered|)
      ensures shown <= filtered
    {
      filtered[..Min(visible, |filtered|)]
    }

    /** The "load more" button is offered exactly when some selected items are not shown. */
    predicate CanLoadMore()
      reads this
      ensures CanLoadMore() <==> |Displayed()| < |filtered|
    {
      |filtered| > visible
    }
  }

  /** Two mugs, with stock recorded only for the first. */
  lemma MugsExample()
    ensures var a1 := RawProduct("A1", "Taza 1", "", Some("Mugs"), ["a.jpg"],
                                 Some([RawVariant("A1-V1", None, None, Some("11oz"), None)]),
                                 None, None, None, None);
      var a2 := RawProduct("A2", "Taza 2", "", Some("Mugs"), ["b.jpg"], Some([]), None, None, None, None);
      var items := Normalize([a1, a2], StockIndex([StockEntry("A1", 5)]));
      && items == [CatalogItem("A1", "Taza 1", "", Some("Mugs"), Some("a.jpg"), "11oz", 5),
                   CatalogItem("A2", "Taza 2", "", Some("Mugs"), Some("b.jpg"), "", 0)]
      && InStock(items) == [items[0]]
  {
    var a1 := RawProduct("A1", "Taza 1", "", Some("Mugs"), ["a.jpg"],
                         Some([RawVariant("A1-V1", None, None, Some("11oz"), None)]),
                         None, None, None, None);
    var a2 := RawProduct("A2", "Taza 2", "", Some("Mugs"), ["b.jpg"], Some([]), None, None, None, None);
    var items := Normalize([a1, a2], StockIndex([StockEntry("A1", 5)]));
    assert items[1].stock == 0;
    assert [items[0], items[1]][1..] == [items[1]];
    assert Filter([items[1]], HasStock) == [];
  }
}
