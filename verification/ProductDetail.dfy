/** The detail page of one product: it looks the product up by its parent SKU
    and projects it, with the stock index, into the gallery, the colour and
    stock table, the labelled details block and up to six related products. */
module ProductDetail {
  import opened Seqs
  import opened Text
  import opened Stock
  import opened Products
  import opened DetailLabels

  /** `colorHexMap`, keys exactly as written: two of them are upper-case. */
  const ColorHexTable: map<string, string> := map[
    "blanco" := "#ffffff",
    "rojo" := "#ff0000",
    "azul" := "#0000ff",
    "negro" := "#000000",
    "amarillo" := "#ffff00",
    "verde" := "#008000",
    "BEIGE" := "#f5f5dc",
    "naranja" := "#ffa500",
    "MORADO" := "#800080"
  ]

  const DefaultHex: string := "#ffffff"
  const NoColorLabel: string := "Sin color"
  const MaxRelated: nat := 6

  /** One row of the colour and stock table. */
  datatype ColorRow = ColorRow(nombre: string, stock: int, colorHex: string)

  /** The details block, its entries in the order they are listed. */
  datatype Details = Details(
    descripcion: string,
    categoria: Option<string>,
    material: Option<string>,
    medidasProducto: Option<string>,
    tecnicaImpresion: Option<string>,
    areaImpresion: Option<string>,
    pesoBruto: string,
    pesoNeto: string,
    piezasPorCaja: Option<string>)

  datatype Detail = Detail(
    id: string,
    name: string,
    images: seq<string>,
    description: string,
    category: Option<string>,
    tipo: string,
    stock: int,
    colors: seq<ColorRow>,
    details: Details)

  datatype RelatedItem = RelatedItem(id: string, name: string, imageUrl: Option<string>, tipo: string, stock: int)

  /** What the page shows once loading is over: the not-found message, or the product and its related items. */
  datatype DetailView = NotFound | Found(product: Detail, related: seq<RelatedItem>)

  /** `products.find(p => p.skuPadre === id)` */
  function FindBySku(products: seq<RawProduct>, id: string): (r: Option<RawProduct>)
    ensures r.None? <==> forall i :: 0 <= i < |products| ==> products[i].skuPadre != id
    ensures r.Some? ==> exists i :: 0 <= i < |products| && products[i] == r.value && r.value.skuPadre == id
                                    && forall j :: 0 <= j < i ==> products[j].skuPadre != id
    decreases |products|
  {
    if products == [] then None
    else if products[0].skuPadre == id then Some(products[0])
    else
      var r := FindBySku(products[1..], id);
      assert r.Some? ==> forall i :: 0 <= i < |products| - 1 && products[1..][i] == r.value && r.value.skuPadre == id
                                    && (forall j :: 0 <= j < i ==> products[1..][j].skuPadre != id)
                                    ==> products[i + 1] == r.value && forall j :: 0 <= j < i + 1 ==> products[j].skuPadre != id;
      r
  }

  /** `hijos[0]?.imagenesHijo || []` for a product whose variant list exists. */
  function FirstVariantImages(variants: seq<RawVariant>): (images: seq<string>)
    ensures variants == [] ==> images == []
    ensures variants != [] && variants[0].imagenesHijo.Some? ==> images == variants[0].imagenesHijo.value
    ensures variants != [] && variants[0].imagenesHijo.None? ==> images == []
  {
    if variants == [] then []
    else match variants[0].imagenesHijo
      case Some(imgs) => imgs
      case None => []
  }

  /** `hijo.colorHex || colorHexMap[hijo.color?.toLowerCase()] || "#ffffff"` */
  function ResolveHex(v: RawVariant): (hex: string)
    ensures hex != ""
    ensures IsTruthy(v.colorHex) ==> hex == v.colorHex.value
    // a consequence of the two clauses below, kept as the summary callers use
    ensures !IsTruthy(v.colorHex) ==> hex == DefaultHex || hex in ColorHexTable.Values
    ensures !IsTruthy(v.colorHex) && v.color.Some? && Lower(v.color.value) in ColorHexTable ==>
              hex == ColorHexTable[Lower(v.color.value)]
    ensures !IsTruthy(v.colorHex) && (v.color.None? || Lower(v.color.value) !in ColorHexTable) ==>
              hex == DefaultHex
  {
    if IsTruthy(v.colorHex) then v.colorHex.value
    else match v.color
      case Some(c) =>
        var key := Lower(c);
        if key in ColorHexTable then ColorHexTable[key] else DefaultHex
      case None => DefaultHex
  }

  /** A named colour with no explicit hex is found case-insensitively under a lower-case key. */
  lemma ResolveHexLowerCaseKey(v: RawVariant, key: string)
    requires !IsTruthy(v.colorHex)
    requires key in ColorHexTable && Lower(key) == key
    requires v.color.Some? && Lower(v.color.value) == key
    ensures ResolveHex(v) == ColorHexTable[key]
  {
  }

  /** The upper-case keys `BEIGE` and `MORADO` can never be looked up, so their colours never appear
      unless given as an explicit hex. */
  lemma UpperCaseKeysUnreachable(v: RawVariant)
    requires !IsTruthy(v.colorHex)
    ensures ResolveHex(v) != "#f5f5dc" && ResolveHex(v) != "#800080"
  {
    if v.color.Some? {
      var key := Lower(v.color.value);
      if key == "BEIGE" || key == "MORADO" {
        LowerHasNoUpper(v.color.value, 0);
        assert false;
      }
    }
  }

  /** "beige", "Morado" and "ROJO" without an explicit hex. */
  lemma ColorNameExamples(sku: string)
    ensures ResolveHex(RawVariant(sku, Some("beige"), None, None, None)) == DefaultHex
    ensures ResolveHex(RawVariant(sku, Some("Morado"), None, None, None)) == DefaultHex
    ensures ResolveHex(RawVariant(sku, Some("ROJO"), Some(""), None, None)) == "#ff0000"
  {
    assert Lower("beige") == "beige";
    assert Lower("Morado") == "morado";
    assert Lower("ROJO") == "rojo";
  }

  /** The row of the colour table for one variant. */
  function ColorRowOf(v: RawVariant, index: StockMap): (row: ColorRow)
    ensures row.nombre == (if IsTruthy(v.color) then v.color.value else NoColorLabel)
    ensures row.stock == (if v.skuHijo in index then index[v.skuHijo] else 0)
    ensures row.colorHex == ResolveHex(v)
  {
    ColorRow(OrElse(v.color, NoColorLabel), StockOf(index, v.skuHijo), ResolveHex(v))
  }

  /** `hijos.map(...)`: one row per variant, in variant order. */
  function ColorRows(variants: seq<RawVariant>, index: StockMap): (rows: seq<ColorRow>)
    ensures |rows| == |variants|
    ensures forall i :: 0 <= i < |variants| ==> rows[i] == ColorRowOf(variants[i], index)
    decreases |variants|
  {
    if variants == [] then []
    else [ColorRowOf(variants[0], index)] + ColorRows(variants[1..], index)
  }

  /** A template literal `${x}`: a missing value prints as `undefined`. */
  function Interpolate(x: Option<string>): (text: string)
    ensures x.Some? ==> text == x.value
    ensures x.None? ==> text == "undefined"
  {
    match x
    case Some(s) => s
    case None => "undefined"
  }

  /** The `details` object: the product's own text fields, the print fields when there is a
      printing block, and the weights written with their unit. */
  function MakeDetails(p: RawProduct, pkg: Package): (d: Details)
    ensures d.descripcion == p.descripcion && d.categoria == p.categorias
    ensures d.material == p.material && d.medidasProducto == p.medidas
    ensures p.impresion.None? ==> d.tecnicaImpresion == None && d.areaImpresion == None
    ensures p.impresion.Some? ==> d.tecnicaImpresion == p.impresion.value.tecnicaImpresion
                                  && d.areaImpresion == p.impresion.value.areaImpresion
    ensures d.pesoBruto == Interpolate(pkg.pesoBruto) + " " + Interpolate(pkg.unidadPeso)
    ensures d.pesoNeto == Interpolate(pkg.pesoNeto) + " " + Interpolate(pkg.unidadPeso)
    ensures d.piezasPorCaja == pkg.piezasCaja
  {
    Details(
      descripcion := p.descripcion,
      categoria := p.categorias,
      material := p.material,
      medidasProducto := p.medidas,
      tecnicaImpresion := if p.impresion.Some? then p.impresion.value.tecnicaImpresion else None,
      areaImpresion := if p.impresion.Some? then p.impresion.value.areaImpresion else None,
      pesoBruto := Interpolate(pkg.pesoBruto) + " " + Interpolate(pkg.unidadPeso),
      pesoNeto := Interpolate(pkg.pesoNeto) + " " + Interpolate(pkg.unidadPeso),
      piezasPorCaja := pkg.piezasCaja)
  }

  /** Both weights end in the same unit, after a single space. */
  lemma WeightsShareUnit(p: RawProduct, pkg: Package)
    ensures var d := MakeDetails(p, pkg);
      var unit := " " + Interpolate(pkg.unidadPeso);
      && |unit| <= |d.pesoBruto| && |unit| <= |d.pesoNeto|
      && d.pesoBruto[|d.pesoBruto| - |unit|..] == unit
      && d.pesoNeto[|d.pesoNeto| - |unit|..] == unit
  {
    var d := MakeDetails(p, pkg);
    var unit := " " + Interpolate(pkg.unidadPeso);
    assert d.pesoBruto == Interpolate(pkg.pesoBruto) + unit;
    assert d.pesoNeto == Interpolate(pkg.pesoNeto) + unit;
  }

  /** The object handed to `setProduct`. Building it fails, as the source's property accesses
      throw, when the product has no variant list or no packaging block. */
  function BuildDetail(p: RawProduct, index: StockMap): (r: Option<Detail>)
    ensures r.Some? <==> p.hijos.Some? && p.paquete.Some?
    ensures r.Some? ==> var d := r.value;
      && d.id == p.skuPadre
      && d.name == p.nombrePadre
      && d.description == p.descripcion
      && d.category == p.categorias
      && d.details == MakeDetails(p, p.paquete.value)
      && d.images == p.imagenesPadre + FirstVariantImages(p.hijos.value)
      && |d.images| == |p.imagenesPadre| + |FirstVariantImages(p.hijos.value)|  // follows from the line above
      && d.tipo == FirstVariantTipo(p.hijos)
      && d.stock == (if p.skuPadre in index then index[p.skuPadre] else 0)
      && |d.colors| == |p.hijos.value|
      && (forall i :: 0 <= i < |d.colors| ==> d.colors[i] == ColorRowOf(p.hijos.value[i], index))
  {
    match (p.hijos, p.paquete)
    case (Some(variants), Some(pkg)) =>
      Some(Detail(
        id := p.skuPadre,
        name := p.nombrePadre,
        images := p.imagenesPadre + FirstVariantImages(variants),
        description := p.descripcion,
        category := p.categorias,
        tipo := FirstVariantTipo(p.hijos),
        stock := StockOf(index, p.skuPadre),
        colors := ColorRows(variants, index),
        details := MakeDetails(p, pkg)))
    case _ => None
  }

  /** The lightweight entry of a related product. */
  function Summary(q: RawProduct, index: StockMap): (entry: RelatedItem) {
    RelatedItem(q.skuPadre, q.nombrePadre, FirstImage(q.imagenesPadre), FirstVariantTipo(q.hijos), StockOf(index, q.skuPadre))
  }

  function RelatedPredicate(category: Option<string>, id: string): RawProduct -> bool {
    (q: RawProduct) => q.categorias == category && q.skuPadre != id
  }

  /** The products of the same category other than `id`, in source order. */
  function Candidates(products: seq<RawProduct>, category: Option<string>, id: string): (c: seq<RawProduct>)
    ensures forall q :: q in c <==> q in products && q.categorias == category && q.skuPadre != id
    ensures forall q :: multiset(c)[q] == (if q.categorias == category && q.skuPadre != id then multiset(products)[q] else 0)
    ensures IsSubsequence(c, products)
  {
    FilterIsSubsequence(products, RelatedPredicate(category, id));
    Filter(products, RelatedPredicate(category, id))
  }

  /** `.filter(...).slice(0, 6).map(...)`: the first six candidates, summarised. */
  function RelatedProducts(products: seq<RawProduct>, category: Option<string>, id: string, index: StockMap)
    : (r: seq<RelatedItem>)
    ensures var c := Candidates(products, category, id);
      && |r| == Min(MaxRelated, |c|)
      && forall i :: 0 <= i < |r| ==> r[i] == Summary(c[i], index)
    ensures forall i :: 0 <= i < |r| ==> r[i].id != id
    ensures forall i :: 0 <= i < |r| ==> exists q :: q in products && q.categorias == category && q.skuPadre == r[i].id
  {
    var c := Candidates(products, category, id);
    var shown := c[..Min(MaxRelated, |c|)];
    assert forall i :: 0 <= i < |shown| ==> shown[i] in c;
    seq(|shown|, i requires 0 <= i < |shown| => Summary(shown[i], index))
  }

  /** The detail page once both lists have arrived. */
  function ProjectDetail(id: string, products: seq<RawProduct>, stocks: seq<StockEntry>): (view: DetailView)
    ensures view.Found? <==> FindBySku(products, id).Some?
                             && FindBySku(products, id).value.hijos.Some?
                             && FindBySku(products, id).value.paquete.Some?
    ensures (forall i :: 0 <= i < |products| ==> products[i].skuPadre != id) ==> view == NotFound
    ensures view.Found? ==> view.product.id == id
    ensures view.Found? ==> BuildDetail(FindBySku(products, id).value, StockIndex(stocks)) == Some(view.product)
    ensures view.Found? ==> view.related == RelatedProducts(products, FindBySku(products, id).value.categorias, id, StockIndex(stocks))
    // the next two follow from the two above and the contract of BuildDetail, kept for callers
    ensures view.Found? ==> view.product.stock == StockOf(StockIndex(stocks), id)
    ensures view.Found? ==> view.related == RelatedProducts(products, view.product.category, id, StockIndex(stocks))
    ensures view.Found? ==> forall i :: 0 <= i < |view.related| ==> view.related[i].id != view.product.id
  {
    var index := StockIndex(stocks);
    match FindBySku(products, id)
    case None => NotFound
    case Some(p) =>
      match BuildDetail(p, index)
      case None => NotFound
      case Some(d) => Found(d, RelatedProducts(products, p.categorias, id, index))
  }

  /** A variant with neither a colour nor a stock record. */
  lemma UncoloredVariantExample(index: StockMap)
    requires "A1-V1" !in index
    ensures ColorRowOf(RawVariant("A1-V1", None, None, Some("11oz"), None), index) == ColorRow(NoColorLabel, 0, DefaultHex)
  {
  }

  // ---- labels of the details block ----

  const DetailKeys: seq<string> := [
    "descripcion", "categoria", "material", "medidasProducto", "tecnicaImpresion",
    "areaImpresion", "pesoBruto", "pesoNeto", "piezasPorCaja"
  ]

  /** The key `medidasProducto` is listed as "Medidas Producto". */
  lemma MedidasProductoLabel()
    ensures FormatLabel("medidasProducto") == "Medidas Producto"
  {
    MedidasProductoSpelling();
    TwoWordLabel('m', "edidas", "Producto");
  }

  /** The key and its label, each cut into its first letter and its two words. */
  lemma MedidasProductoSpelling()
    ensures "medidasProducto" == ['m'] + "edidas" + "Producto"
    ensures ['M'] + "edidas" + [' '] + "Producto" == "Medidas Producto"
  {
  }

  /** The value the details object holds under one of its keys. */
  function FieldOf(d: Details, key: string): (value: Option<string>)
    requires key in DetailKeys
  {
    if key == "descripcion" then Some(d.descripcion)
    else if key == "categoria" then d.categoria
    else if key == "material" then d.material
    else if key == "medidasProducto" then d.medidasProducto
    else if key == "tecnicaImpresion" then d.tecnicaImpresion
    else if key == "areaImpresion" then d.areaImpresion
    else if key == "pesoBruto" then Some(d.pesoBruto)
    else if key == "pesoNeto" then Some(d.pesoNeto)
    else d.piezasPorCaja
  }

  /** `Object.entries(details)`: the rows of the details block, one per key, each with the
      label of its key and the value stored under that key. */
  function DetailRows(d: Details): (rows: seq<(string, Option<string>)>)
    ensures |rows| == |DetailKeys|
    ensures forall i :: 0 <= i < |rows| ==> rows[i].0 == FormatLabel(DetailKeys[i])
    ensures forall i :: 0 <= i < |rows| ==> rows[i].1 == FieldOf(d, DetailKeys[i])
  {
    seq(|DetailKeys|, i requires 0 <= i < |DetailKeys| => (FormatLabel(DetailKeys[i]), FieldOf(d, DetailKeys[i])))
  }

  /** The rows come in the order the details object was written: description, category,
      material, measurements, the two print fields, the two weights and the pieces per box. */
  lemma DetailRowsInOrder(d: Details)
    ensures var values := [Some(d.descripcion), d.categoria, d.material, d.medidasProducto, d.tecnicaImpresion,
                           d.areaImpresion, Some(d.pesoBruto), Some(d.pesoNeto), d.piezasPorCaja];
      forall i :: 0 <= i < |DetailKeys| ==> DetailRows(d)[i].1 == values[i]
  {
    var values := [Some(d.descripcion), d.categoria, d.material, d.medidasProducto, d.tecnicaImpresion,
                   d.areaImpresion, Some(d.pesoBruto), Some(d.pesoNeto), d.piezasPorCaja];
    forall i | 0 <= i < |DetailKeys| ensures DetailRows(d)[i].1 == values[i] {
      DetailRowValue(d, i);
    }
  }

  lemma DetailRowValue(d: Details, i: int)
    requires 0 <= i < |DetailKeys|
    ensures var values := [Some(d.descripcion), d.categoria, d.material, d.medidasProducto, d.tecnicaImpresion,
                           d.areaImpresion, Some(d.pesoBruto), Some(d.pesoNeto), d.piezasPorCaja];
      FieldOf(d, DetailKeys[i]) == values[i]
  {
  }
}
