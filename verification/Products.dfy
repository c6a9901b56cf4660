/** The records the remote service delivers and the catalog item derived
    from each of them. Fields that a record may lack are `Option`s. */
module Products {

  datatype Option<+T> = None | Some(value: T)

  /** A JavaScript string is falsy when it is missing or empty. */
  predicate IsTruthy(s: Option<string>) {
    s.Some? && s.value != ""
  }

  /** `s || fallback` for a possibly missing string. */
  function OrElse(s: Option<string>, fallback: string): (r: string)
    ensures IsTruthy(s) ==> r == s.value
    ensures !IsTruthy(s) ==> r == fallback
  {
    match s
    case Some(v) => if v != "" then v else fallback
    case None => fallback
  }

  /** A variant (`hijo`) of a product. */
  datatype RawVariant = RawVariant(
    skuHijo: string,
    color: Option<string>,
    colorHex: Option<string>,
    tipo: Option<string>,
    imagenesHijo: Option<seq<string>>)

  /** The printing block (`impresion`) of a product. */
  datatype PrintInfo = PrintInfo(tecnicaImpresion: Option<string>, areaImpresion: Option<string>)

  /** The packaging block (`paquete`); the numbers are kept as their text. */
  datatype Package = Package(
    pesoBruto: Option<string>,
    pesoNeto: Option<string>,
    unidadPeso: Option<string>,
    piezasCaja: Option<string>)

  /** A product as the remote service delivers it. */
  datatype RawProduct = RawProduct(
    skuPadre: string,
    nombrePadre: string,
    descripcion: string,
    categorias: Option<string>,
    imagenesPadre: seq<string>,
    hijos: Option<seq<RawVariant>>,
    material: Option<string>,
    medidas: Option<string>,
    impresion: Option<PrintInfo>,
    paquete: Option<Package>)

  /** The entry of the listing built from one product. */
  datatype CatalogItem = CatalogItem(
    id: string,
    name: string,
    description: string,
    categorias: Option<string>,
    imageUrl: Option<string>,
    tipo: string,
    stock: int)

  /** `images[0]`, which is `undefined` for an empty list. */
  function FirstImage(images: seq<string>): (r: Option<string>)
    ensures r.Some? <==> images != []
    ensures r.Some? ==> r.value == images[0]
  {
    if images == [] then None else Some(images[0])
  }

  /** `hijos?.[0]?.tipo || ''`: the type of the first variant, or the empty string. */
  function FirstVariantTipo(hijos: Option<seq<RawVariant>>): (t: string)
    ensures hijos.None? || hijos.value == [] ==> t == ""
    ensures hijos.Some? && hijos.value != [] ==> t == OrElse(hijos.value[0].tipo, "")
    ensures t != "" ==> hijos.Some? && hijos.value != [] && hijos.value[0].tipo == Some(t)
  {
    match hijos
    case Some(variants) => if variants == [] then "" else OrElse(variants[0].tipo, "")
    case None => ""
  }
}
