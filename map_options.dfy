/** The map options of the printouts: the raster catalog, reading a territory's
    well-known-text geometry into a projected feature, the streets layer and
    the visual styles of territory boundaries and labels. */
module MapOptions {
  import opened Wrappers
  import opened Js

  // ---------------------------------------------------------------------------
  // Raster catalog
  // ---------------------------------------------------------------------------

  /** A tile source descriptor, kept only by its kind and URL template; tile
      sizes, pixel ratios, attributions and WMS parameters are opaque here. */
  datatype TileSource = Xyz(url: string) | Osm | TileWms(url: string)

  datatype MapRaster = MapRaster(id: string, name: string, source: TileSource)

  /** The fixed raster catalog; index 0 is the default streets raster. */
  const MapRasters: seq<MapRaster> := [
    MapRaster("osm", "World - OpenStreetMap",
      Xyz("//a.osm.rrze.fau.de/osmhd/{z}/{x}/{y}.png")),
    MapRaster("osmBackup", "World - OpenStreetMap (backup server, low DPI)",
      Osm),
    MapRaster("mmlTaustakartta", "Finland - Maanmittauslaitoksen taustakarttasarja",
      Xyz("//tiles.kartat.kapsi.fi/taustakartta/{z}/{x}/{y}.jpg")),
    MapRaster("vantaaKaupunkikartta", "Finland - Vantaan kaupunkikartta",
      TileWms("https://gis.vantaa.fi/geoserver/wms"))
  ]

  /** The key by which rasters are looked up. */
  function RasterId(r: MapRaster): string {
    r.id
  }

  function RasterName(r: MapRaster): string {
    r.name
  }

  lemma MapRastersCatalog()
    ensures |MapRasters| == 4
    ensures MapRasters[0].id == "osm" && MapRasters[1].id == "osmBackup"
    ensures MapRasters[2].id == "mmlTaustakartta" && MapRasters[3].id == "vantaaKaupunkikartta"
    ensures DistinctIds(MapRasters, RasterId)
  {
  }

  // ---------------------------------------------------------------------------
  // Geometry: well-known text to projected features
  // ---------------------------------------------------------------------------

  /** The coordinate reference systems involved: geographic longitude/latitude
      as stored, and the web-mercator projection the map is drawn in. */
  datatype Crs = Epsg4326 | Epsg3857

  /** A geometry of shape `S` (the parsed points and polygons, opaque here),
      tagged with the reference system its coordinates are in. */
  datatype Geometry<S> = Geometry(shape: S, crs: Crs)

  datatype Feature<S> = Feature(geometry: Geometry<S>)

  /** The well-known-text reader: `read(wkt)` is the parsed shape, or `None`
      when the reader throws on malformed text. Reading does not reproject, so
      the coordinates are those written in the text, longitude/latitude. */
  function ReadFeature<S>(read: string -> Option<S>, wkt: string): (r: Option<Feature<S>>)
    ensures r.None? <==> read(wkt).None?
    ensures r.Some? ==> r.value.geometry.crs == Epsg4326 && r.value.geometry.shape == read(wkt).value
  {
    match read(wkt)
    case None => None
    case Some(shape) => Some(Feature(Geometry(shape, Epsg4326)))
  }

  /** Reprojection of a geometry from `source` to `destination`. The map library
      does not know which system the coordinates are in: the caller must pass
      the one they are in, so projecting twice is a caller error. Only the tag
      is modelled; the coordinate arithmetic is not. */
  function Transform<S>(g: Geometry<S>, source: Crs, destination: Crs): (r: Geometry<S>)
    requires g.crs == source
    ensures r.crs == destination && r.shape == g.shape
  {
    Geometry(g.shape, destination)
  }

  /** Reads one feature and projects its freshly parsed geometry exactly once,
      from longitude/latitude to web mercator. */
  function WktToFeature<S>(read: string -> Option<S>, wkt: string): (r: Option<Feature<S>>)
    ensures r.Some? <==> read(wkt).Some?
    ensures r.Some? ==> r.value.geometry == Geometry(read(wkt).value, Epsg3857)
  {
    match ReadFeature(read, wkt)
    case None => None
    case Some(f) => Some(Feature(Transform(f.geometry, Epsg4326, Epsg3857)))
  }

  /** Features of an optional geometry: none when the text is null, undefined
      or empty (all falsy), otherwise the one feature it encodes. A `None`
      result is not JavaScript's `undefined`: it stands for the error the
      reader throws on malformed text, as it does for `ReadFeature` and
      `WktToFeature`. */
  function WktToFeatures<S>(read: string -> Option<S>, wkt: Option<string>): (r: Option<seq<Feature<S>>>)
    ensures !Truthy(wkt) ==> r == Some([])
    ensures Truthy(wkt) ==> (r.Some? <==> read(wkt.value).Some?)
    ensures Truthy(wkt) && r.Some? ==> |r.value| == 1 && WktToFeature(read, wkt.value) == Some(r.value[0])
  {
    if Truthy(wkt) then
      match WktToFeature(read, wkt.value)
      case None => None
      case Some(f) => Some([f])
    else
      Some([])
  }

  /** Absence of geometry is not an error, whatever the reader would say: the
      empty string never reaches it. */
  lemma AbsentGeometryIsNoFeatures<S>(read: string -> Option<S>)
    ensures WktToFeatures(read, None) == Some([])
    ensures WktToFeatures(read, Some("")) == Some([])
  {
  }

  /** Every feature produced is in web mercator, so none may be projected
      from longitude/latitude again. */
  lemma FeaturesAreProjected<S>(read: string -> Option<S>, wkt: Option<string>)
    ensures WktToFeatures(read, wkt).Some? ==>
      forall f :: f in WktToFeatures(read, wkt).value ==> f.geometry.crs == Epsg3857
  {
  }

  // ---------------------------------------------------------------------------
  // Streets layer
  // ---------------------------------------------------------------------------

  datatype TileLayer = TileLayer(source: TileSource)

  /** The streets layer always shows the default raster, OpenStreetMap. */
  function MakeStreetsLayer(): (r: TileLayer)
    ensures forall i :: 0 <= i < |MapRasters| && MapRasters[i].id == "osm" ==> r.source == MapRasters[i].source
  {
    TileLayer(MapRasters[0].source)
  }

  // ---------------------------------------------------------------------------
  // Visual style
  // ---------------------------------------------------------------------------

  /** A CSS colour `rgba(red, green, blue, alpha)` whose alpha is written with
      one decimal, kept as tenths. */
  datatype Rgba = Rgba(red: nat, green: nat, blue: nat, alphaTenths: nat)

  function DigitChar(d: nat): char
    requires d < 10
  {
    "0123456789"[d]
  }

  /** Decimal notation of a natural number. */
  function Decimal(n: nat): string
    decreases n
  {
    if n < 10 then [DigitChar(n)] else Decimal(n / 10) + [DigitChar(n % 10)]
  }

  /** The CSS text of a colour, as the map library receives it. */
  function Css(c: Rgba): string {
    "rgba(" + Decimal(c.red) + ", " + Decimal(c.green) + ", " + Decimal(c.blue) + ", "
      + Decimal(c.alphaTenths / 10) + "." + Decimal(c.alphaTenths % 10) + ")"
  }

  datatype Stroke = Stroke(color: Rgba, width: real)
  datatype Fill = Fill(color: Rgba)
  datatype Text = Text(text: string, font: string, fill: Fill, stroke: Stroke, overflow: bool)

  const BoundaryRed := Rgba(255, 0, 0, 6)
  const ShadeRed := Rgba(255, 0, 0, 1)
  const Black := Rgba(0, 0, 0, 10)
  const White := Rgba(255, 255, 255, 10)

  /** Territory boundaries are drawn in 60% opaque red, two units wide. */
  function TerritoryStrokeStyle(): (r: Stroke)
    ensures r.color.alphaTenths == 6 && r.width == 2.0
    ensures (r.color.red, r.color.green, r.color.blue) == (255, 0, 0)
  {
    Stroke(BoundaryRed, 2.0)
  }

  /** Territory areas are shaded in the boundary's red at 10% opacity. */
  function TerritoryFillStyle(): (r: Fill)
    ensures r.color.alphaTenths == 1
    ensures (r.color.red, r.color.green, r.color.blue) == (255, 0, 0)
  {
    Fill(ShadeRed)
  }

  /** The shade is the boundary's colour, only more transparent. */
  lemma FillIsFainterBoundaryColour()
    ensures TerritoryFillStyle().color == TerritoryStrokeStyle().color.(alphaTenths := 1)
    ensures TerritoryFillStyle().color.alphaTenths < TerritoryStrokeStyle().color.alphaTenths
  {
  }

  /** The colours are the CSS texts the source passes to the map library. */
  lemma StyleColoursAsCss()
    ensures Css(TerritoryStrokeStyle().color) == "rgba(255, 0, 0, 0.6)"
    ensures Css(TerritoryFillStyle().color) == "rgba(255, 0, 0, 0.1)"
    ensures Css(Black) == "rgba(0, 0, 0, 1.0)"
    ensures Css(White) == "rgba(255, 255, 255, 1.0)"
  {
  }

  /** The CSS font shorthand of a bold sans-serif label of the given size. */
  function LabelFont(fontSize: string): (r: string)
    ensures |r| == |fontSize| + 16
    ensures r[..5] == "bold " && r[5..|r| - 11] == fontSize && r[|r| - 11..] == " sans-serif"
  {
    "bold " + fontSize + " sans-serif"
  }

  /** Recovers the size from a label font; the inverse of LabelFont. */
  function LabelFontSize(font: string): Option<string> {
    if |font| >= 16 && font[..5] == "bold " && font[|font| - 11..] == " sans-serif"
    then Some(font[5..|font| - 11])
    else None
  }

  lemma LabelFontRoundTrip(fontSize: string)
    ensures LabelFontSize(LabelFont(fontSize)) == Some(fontSize)
  {
  }

  /** Different sizes give different fonts. */
  lemma LabelFontInjective(a: string, b: string)
    requires LabelFont(a) == LabelFont(b)
    ensures a == b
  {
    LabelFontRoundTrip(a);
    LabelFontRoundTrip(b);
  }

  /** A territory number label: the number itself, in a bold sans-serif font of
      the given size, black with a white outline so that it stays legible over
      any raster, and drawn even where it overflows its polygon. */
  function TerritoryTextStyle(territoryNumber: string, fontSize: string): (r: Text)
    ensures r.text == territoryNumber
    ensures LabelFontSize(r.font) == Some(fontSize)
    ensures r.fill.color == Black && r.stroke.color == White && r.stroke.width == 3.0
    ensures r.overflow
  {
    LabelFontRoundTrip(fontSize);
    Text(territoryNumber, LabelFont(fontSize), Fill(Black), Stroke(White, 3.0), true)
  }

  /** Only the text and the font depend on the arguments. */
  lemma LabelLookIgnoresArguments(n1: string, s1: string, n2: string, s2: string)
    ensures TerritoryTextStyle(n1, s1).fill == TerritoryTextStyle(n2, s2).fill
    ensures TerritoryTextStyle(n1, s1).stroke == TerritoryTextStyle(n2, s2).stroke
    ensures TerritoryTextStyle(n1, s1).overflow == TerritoryTextStyle(n2, s2).overflow
  {
  }
}
