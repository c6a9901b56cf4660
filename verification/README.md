# Promotional-products catalog: model of the listing, detail and sidebar logic

The catalog front end fetches two lists from a remote service: the products and the stock records. Each product has a parent SKU (`skuPadre`), a name, a description, a category, images, variants (`hijos`) and packaging data. Each stock record is a (`Material`, `Stock`) pair.

This project models what the front end does with those two lists once they have arrived:

- **Stock index** (`Stock`). The stock records are folded into a map from material code to quantity; a later record overwrites an earlier one. A missing or zero quantity reads as 0 (`|| 0`).
- **Catalog page** (`ProductCatalog`). Products are normalized into catalog items. The page then keeps a small state (`CatalogView`): all items, the current selection, and the size of the display window.
  - The selection starts as the items in stock.
  - A search keeps the in-stock items whose lower-cased name or description contains the lower-cased term.
  - A category filter keeps the in-stock items of that category.
  - An availability filter keeps the items with stock > 0 for `disponible` and with stock == 0 for `agotado`; any other value, such as the sidebar's "Todos" (the empty string), keeps every item, whatever its stock.
  - Every search or filter resets the window to 24 items; "Load more" widens it by 24. The page shows the first items of the selection up to the window size.
- **Detail page** (`ProductDetail`, `DetailLabels`). The page is a pure projection: find the product by SKU, then build:
  - the image gallery;
  - one colour and stock row per variant, with the colour resolved as explicit hex, then a name table, then white;
  - the details block with its camel-case keys turned into labels;
  - up to six related products from the same category.
- **Sidebar** (`Sidebar`). It lists the distinct non-empty categories in first-occurrence order, toggles which of its sections is unfolded, and hands the typed search term to the catalog.
- Generic sequence facts (`Seqs`) and the string operations the components use (`Text`) sit underneath.

## Model

| member | source | states |
|---|---|---|
| Stock.StockIndex | src/components/Product/ProductCatalog.jsx:22-25 | a code is in the index exactly when some stock record carries it |
| Stock.LastEntryWins | src/components/Product/ProductCatalog.jsx:22-25 | the last record for a code decides its quantity (the fold is last-write-wins) |
| Stock.BuildStockIndex | src/components/Product/ProductCatalog.jsx:22-25 | the accumulator loop yields the same map as the fold |
| Stock.StockOf | src/components/Product/ProductCatalog.jsx:34 | the `or 0` lookup is the indexed quantity with 0 for a missing key; negative quantities pass through |
| Stock.StockOfEntries | src/components/Product/ProductDetail.jsx:33-36 | a code's stock is its last record's quantity, or 0 when no record has that code |
| Products.OrElse | src/components/Product/ProductDetail.jsx:54 | the `or` default gives the string when present and non-empty, otherwise the fallback |
| Products.FirstImage | src/components/Product/ProductCatalog.jsx:32 | the first image when there is one, `undefined` (None) for an empty list |
| Products.FirstVariantTipo | src/components/Product/ProductCatalog.jsx:33 | the first variant's type when it is present and non-empty, "" otherwise (no variant list, an empty one, or a falsy type) |
| ProductCatalog.Normalize | src/components/Product/ProductCatalog.jsx:27-35 | one item per product, same length and order |
| ProductCatalog.NormalizedItem | src/components/Product/ProductCatalog.jsx:27-35 | item i carries product i's SKU and category, its first image, the first variant's type with "" as default, and stock 0 when no record has its SKU |
| ProductCatalog.NormalizedStock | src/components/Product/ProductCatalog.jsx:34 | item i's stock is the quantity of the last record for its SKU, unclamped |
| ProductCatalog.InStock | src/components/Product/ProductCatalog.jsx:39-40 | the initial selection holds exactly the items with stock > 0, every copy of each, in their original order |
| ProductCatalog.InStockIdempotent | src/components/Product/ProductCatalog.jsx:55 | re-applying the in-stock filter changes nothing |
| ProductCatalog.SearchResult | src/components/Product/ProductCatalog.jsx:52-64 | the empty term gives the in-stock view; any other term keeps exactly the in-stock items whose name or description contains it, ignoring case; every copy is kept, in order |
| ProductCatalog.SearchWithinDefaultView | src/components/Product/ProductCatalog.jsx:58-62 | a non-empty search equals filtering the in-stock view by the term |
| ProductCatalog.SearchIgnoresCase | src/components/Product/ProductCatalog.jsx:59-60 | terms that lower-case alike give equal results |
| ProductCatalog.SearchUpperCase | src/components/Product/ProductCatalog.jsx:59-60 | a term and its upper-cased form give equal results |
| ProductCatalog.FilterResult | src/components/Product/ProductCatalog.jsx:68-86 | category keeps equal category with stock > 0; `disponible` keeps stock > 0, `agotado` stock == 0, any other value or filter type keeps all; every kept copy stays, in order |
| ProductCatalog.CategoryWithinDefaultView | src/components/Product/ProductCatalog.jsx:71-74 | a category filter equals filtering the in-stock view by category |
| ProductCatalog.UnknownFilterKeepsAll | src/components/Product/ProductCatalog.jsx:75-84 | an unknown filter type or availability value returns every item unchanged |
| ProductCatalog.AvailabilityPartition | src/components/Product/ProductCatalog.jsx:76-83 | `disponible` and `agotado` are disjoint, cover the items with non-negative stock, exclude negative stock, and their sizes add up |
| ProductCatalog.CatalogView.constructor | src/components/Product/ProductCatalog.jsx:7-11 | empty lists and a window of 24 |
| ProductCatalog.CatalogView.Load | src/components/Product/ProductCatalog.jsx:13-40 | the items are the normalized products under the stock index, and the selection is the in-stock items |
| ProductCatalog.CatalogView.Search | src/components/Product/ProductCatalog.jsx:52-66 | the selection becomes the search result, the items are kept, and the window is reset to 24 |
| ProductCatalog.CatalogView.SubmitSearch | src/components/Product/ProductCatalog.jsx:117-118 | submitting the sidebar runs the search on the sidebar's current term |
| ProductCatalog.CatalogView.FilterChange | src/components/Product/ProductCatalog.jsx:68-88 | the selection becomes the filter result, the items are kept, and the window is reset to 24 |
| ProductCatalog.CatalogView.LoadMore | src/components/Product/ProductCatalog.jsx:90-92 | the window grows by exactly 24, the lists are untouched, and what was shown stays a prefix of what is shown |
| ProductCatalog.CatalogView.Displayed | src/components/Product/ProductCatalog.jsx:112 | the shown items are the prefix of the selection of length min(window, selection size) |
| ProductCatalog.CatalogView.CanLoadMore | src/components/Product/ProductCatalog.jsx:152 | "load more" is offered exactly when some selected items are not shown |
| ProductCatalog.MugsExample | src/components/Product/ProductCatalog.jsx:22-40 | two mugs, one with stock 5 and one without a record, normalize to the expected items, and only the first is in stock |
| ProductDetail.FindBySku | src/components/Product/ProductDetail.jsx:38 | no result exactly when no product has the SKU; otherwise the first product that has it |
| ProductDetail.FirstVariantImages | src/components/Product/ProductDetail.jsx:46 | the first variant's images; none when there is no variant or it has no image list |
| ProductDetail.ResolveHex | src/components/Product/ProductDetail.jsx:57 | the colour is never empty: an explicit hex wins; otherwise the table colour under the lower-cased name when that key exists, and `#ffffff` when there is no name or no such key |
| ProductDetail.ResolveHexLowerCaseKey | src/components/Product/ProductDetail.jsx:12-22 | a colour name whose lower-case form is a lower-case key resolves to that key's colour |
| ProductDetail.UpperCaseKeysUnreachable | src/components/Product/ProductDetail.jsx:19-21 | without an explicit hex, the `BEIGE` and `MORADO` colours are never produced |
| ProductDetail.ColorNameExamples | src/components/Product/ProductDetail.jsx:12-22 | "beige" and "Morado" fall through to `#ffffff`; "ROJO" with an empty hex resolves to red |
| ProductDetail.ColorRowOf | src/components/Product/ProductDetail.jsx:53-57 | the name is the colour or "Sin color", the stock is the variant's indexed quantity or 0, and the swatch is the resolved hex |
| ProductDetail.ColorRows | src/components/Product/ProductDetail.jsx:52-58 | one row per variant, in variant order |
| ProductDetail.BuildDetail | src/components/Product/ProductDetail.jsx:40-70 | the detail exists exactly when the variant list and the packaging exist; it carries the product's SKU, name, description and category, the parent images followed by the first variant's images, the first variant's type, the stock, one colour row per variant and the details block of that product and packaging |
| ProductDetail.Candidates | src/components/Product/ProductDetail.jsx:72-77 | exactly the products of the same category with another SKU, every copy kept, in order |
| ProductDetail.RelatedProducts | src/components/Product/ProductDetail.jsx:72-85 | the first min(6, n) candidates, summarised in order; none has the current SKU and each comes from a product of the same category |
| ProductDetail.ProjectDetail | src/components/Product/ProductDetail.jsx:38-92 | the product is shown exactly when it is found and has variants and packaging, otherwise the not-found view; the shown product is the detail built from the first match, and the related list is drawn from that match's category and never holds the product itself |
| ProductDetail.UncoloredVariantExample | src/components/Product/ProductDetail.jsx:53-57 | a variant without colour or stock record gives ("Sin color", 0, `#ffffff`) |
| ProductDetail.MedidasProductoLabel | src/components/Product/ProductDetail.jsx:150-153 | `medidasProducto` is labelled "Medidas Producto" |
| ProductDetail.MakeDetails | src/components/Product/ProductDetail.jsx:59-69 | the details block carries the product's text fields; both print fields are missing without a printing block; each weight is its number and the unit after one space, with `undefined` for a missing part; the pieces per box come from the packaging |
| ProductDetail.WeightsShareUnit | src/components/Product/ProductDetail.jsx:66-67 | gross and net weight both end in a space and the same unit |
| ProductDetail.Interpolate | src/components/Product/ProductDetail.jsx:66-67 | a template literal prints a present value as it is and a missing one as `undefined` |
| ProductDetail.DetailRowsInOrder | src/components/Product/ProductDetail.jsx:59-69 | the rows come in the order the details object was written, from the description to the pieces per box |
| ProductDetail.DetailRows | src/components/Product/ProductDetail.jsx:147-153 | one row per key of the details object, each with its key's label and the value stored under that key |
| DetailLabels.FormatLabel | src/components/Product/ProductDetail.jsx:150-153 | a label is empty exactly when the key is, and starts with the key's upper-cased first character |
| DetailLabels.CamelCaseLabel | src/components/Product/ProductDetail.jsx:150-153 | for a camel-case key without spaces, the label is the capitalised first letter plus the rest with a space before each capital, and removing those spaces recovers the key |
| DetailLabels.TwoWordLabel | src/components/Product/ProductDetail.jsx:150-153 | a two-word camel-case key gets its first letter capitalised and exactly one space between the words |
| Text.IncludesIff | src/components/Product/ProductCatalog.jsx:59-60 | `includes` holds exactly when the term occurs at some position |
| Text.LowerOfUpper | src/components/Product/ProductCatalog.jsx:59-60 | lower-casing after upper-casing equals lower-casing |
| Text.Trim | src/components/Product/ProductDetail.jsx:153 | the result is a slice that neither starts nor ends with white space, and everything cut off on either side is white space |
| Text.SpaceBeforeCapitalsRoundTrip | src/components/Product/ProductDetail.jsx:153 | removing the inserted spaces gives back the input |
| Text.CapitalsFollowSpace | src/components/Product/ProductDetail.jsx:153 | every capital in the result stands right after a space |
| Text.SpaceBeforeCapitalsAppend | src/components/Product/ProductDetail.jsx:153 | the replacement distributes over concatenation |
| Sidebar.TruthyValues | src/components/Product/Sidebar.jsx:9 | `.filter(Boolean)` keeps exactly the present, non-empty categories |
| Sidebar.TruthyValuesFilter | src/components/Product/Sidebar.jsx:9 | the truthy categories come out exactly as a filter keeps them: every copy, in their original order |
| Sidebar.TruthyDistinctFacts | src/components/Product/Sidebar.jsx:9 | de-duplicating and then dropping falsy entries leaves distinct entries in first-occurrence order |
| Sidebar.UniqueCategories | src/components/Product/Sidebar.jsx:9 | no duplicates; a string is listed exactly when it is a non-empty category of some product; order of first occurrence |
| Seqs.Distinct | src/components/Product/Sidebar.jsx:9 | spreading a Set keeps every element once |
| Seqs.DistinctFirstOccurrenceOrder | src/components/Product/Sidebar.jsx:9 | the Set keeps insertion order, which is first-occurrence order |
| Sidebar.Toggled | src/components/Product/Sidebar.jsx:17 | toggling the open section closes it; toggling any other section opens that one |
| Sidebar.ToggleTwice | src/components/Product/Sidebar.jsx:16-18 | toggling a section twice from closed (or from itself) restores the state |
| Sidebar.SidebarState.constructor | src/components/Product/Sidebar.jsx:5-6 | an empty search term and no open section |
| Sidebar.SidebarState.SetSearchTerm | src/components/Product/Sidebar.jsx:30 | the typed text becomes the search term |
| Sidebar.SidebarState.ToggleSection | src/components/Product/Sidebar.jsx:16-18 | the open section becomes the toggled one and the search term is kept |
| Sidebar.SidebarState.Submit | src/components/Product/Sidebar.jsx:11-14 | the term handed to the search is the current search term, unchanged |

## Left out

- Fetching (`src/services/api.js`), its credentials, status checks and envelope unwrapping: the fetched lists are method and function inputs instead.
- Routing (`src/App.jsx`): route table and redirect, with no logic.
- `Promise.all`, the asynchronous `loadData`, the `loading` and `error` flags and console logging. The model takes the two lists as already arrived. A failed fetch, which leaves the catalog empty and shows an error, is not modelled.
- JSX rendering, CSS, `selectedImage` clicks, the image `onError` placeholder, and `toLocaleString` formatting of quantities: presentation only.
- Text.Lower: `toLowerCase` and `toUpperCase` are modelled on ASCII letters only. Other characters are kept as they are, so Unicode case mapping is not captured.
- Stock.StockIndex: the index is a map over strings, so JavaScript's coercion of non-string `Material` keys and its inherited object keys (such as `constructor`) are not captured.
- Products.FirstImage: `imagenesPadre` is assumed to be a list. A product without it, which makes the source throw, is not modelled.
- ProductCatalog.SearchResult: name and description are assumed to be strings. A missing one, on which `toLowerCase` would throw during a search, is not modelled.
- ProductDetail.MakeDetails: numeric packaging values are carried as their text. A missing one prints as `undefined`, as template literals do.
- ProductCatalog.SearchResult: only the empty string clears the search. A term of blanks is an ordinary term, searched as is.
- ProductCatalog.CatalogView.LoadMore: the window never shrinks under "load more", but a search or filter resets it to 24, so the model does not claim that it never decreases overall.
- ProductDetail.ResolveHex: the colour table is a map over strings, so a name that lower-cases to an inherited object key (such as "Constructor") does not pick up the inherited value as the source would; it falls through to `#ffffff`.
