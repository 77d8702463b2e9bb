/** The print options form: the template registry, the form's values and
    their initial state, the pickers that replace those values, and the
    derivation of the ordered printable units from the current values. */
module PrintOptionsForm {
  import opened Wrappers
  import opened Js
  import opened MapOptions

  // ---------------------------------------------------------------------------
  // Template registry
  // ---------------------------------------------------------------------------

  /** Whether a template prints one document per territory or per region. */
  datatype TemplateType = TerritoryType | RegionType

  /** A printout template; its rendering component is identified by its id. */
  datatype Template = Template(id: string, name: string, kind: TemplateType)

  /** The templates, in the order the template picker lists them. */
  const Templates: seq<Template> := [
    Template("TerritoryCard", "Territory Card", TerritoryType),
    Template("NeighborhoodCard", "Neighborhood Map", TerritoryType),
    Template("RuralTerritoryCard", "Rural Territory Card", TerritoryType),
    Template("RegionPrintout", "Subregion Map", RegionType)
  ]

  function TemplateId(t: Template): string {
    t.id
  }

  function TemplateName(t: Template): string {
    t.name
  }

  lemma TemplatesCatalog()
    ensures |Templates| == 4 && DistinctIds(Templates, TemplateId)
    ensures Ids(Templates, TemplateId) == ["TerritoryCard", "NeighborhoodCard", "RuralTerritoryCard", "RegionPrintout"]
    ensures forall i :: 0 <= i < |Templates| ==> (Templates[i].kind == RegionType <==> Templates[i].id == "RegionPrintout")
  {
  }

  // ---------------------------------------------------------------------------
  // Data supplied by the congregation and the localisation
  // ---------------------------------------------------------------------------

  /** A territory, reduced to the fields this form reads: its id, its number
      and its optional subregion name. */
  datatype Territory = Territory(id: string, number: string, subregion: Option<string>)

  datatype Region = Region(id: string, name: string)

  /** The territories and subregions of the congregation being printed. */
  datatype Congregation = Congregation(territories: seq<Territory>, subregions: seq<Region>)

  function TerritoryId(t: Territory): string {
    t.id
  }

  function RegionId(r: Region): string {
    r.id
  }

  function RegionName(r: Region): string {
    r.name
  }

  /** One `[code, name]` pair of the languages object. */
  datatype Language = Language(code: string, name: string)

  function LanguageCode(l: Language): string {
    l.code
  }

  function LanguageName(l: Language): string {
    l.name
  }

  // ---------------------------------------------------------------------------
  // Languages sorted by name (a stable sort, as lodash's sortBy is)
  // ---------------------------------------------------------------------------

  /** Names never decrease along the sequence. */
  ghost predicate SortedByName(s: seq<Language>) {
    forall i, j :: 0 <= i < j < |s| ==> !Less(s[j].name, s[i].name)
  }

  /** The languages called `name`, in their order in `s`. */
  function Named(s: seq<Language>, name: string): seq<Language> {
    if s == [] then []
    else (if s[0].name == name then [s[0]] else []) + Named(s[1..], name)
  }

  lemma NamedCons(x: Language, s: seq<Language>, name: string)
    ensures Named([x] + s, name) == (if x.name == name then [x] else []) + Named(s, name)
  {
  }

  /** Puts `x` before the first language whose name is not less than its own. */
  function InsertByName(x: Language, s: seq<Language>): (r: seq<Language>)
    ensures multiset(r) == multiset{x} + multiset(s)
  {
    if s == [] || !Less(s[0].name, x.name) then [x] + s
    else
      assert s == [s[0]] + s[1..];
      [s[0]] + InsertByName(x, s[1..])
  }

  /** Inserting past a language that sorts strictly before `x`: that language
      stays in front, and it does not share `x`'s name. */
  lemma InsertPast(x: Language, s: seq<Language>)
    requires s != [] && Less(s[0].name, x.name)
    ensures InsertByName(x, s) == [s[0]] + InsertByName(x, s[1..])
    ensures s[0].name != x.name
  {
    LessIrreflexive(x.name);
  }

  lemma {:induction false} InsertKeepsOrderWithinName(x: Language, s: seq<Language>, name: string)
    ensures Named(InsertByName(x, s), name) == (if x.name == name then [x] else []) + Named(s, name)
  {
    if s == [] || !Less(s[0].name, x.name) {
      NamedCons(x, s, name);
    } else {
      InsertPast(x, s);
      var t := InsertByName(x, s[1..]);
      assert s == [s[0]] + s[1..];
      InsertKeepsOrderWithinName(x, s[1..], name);
      NamedCons(s[0], t, name);
      NamedCons(s[0], s[1..], name);
    }
  }

  lemma {:induction false} InsertKeepsSorted(x: Language, s: seq<Language>)
    requires SortedByName(s)
    ensures SortedByName(InsertByName(x, s))
  {
    var r := InsertByName(x, s);
    if s == [] || !Less(s[0].name, x.name) {
      forall i, j | 0 <= i < j < |r| ensures !Less(r[j].name, r[i].name) {
        if i == 0 && j > 1 {
          NotLessTransitive(x.name, s[0].name, s[j - 1].name);
        }
      }
    } else {
      var t := InsertByName(x, s[1..]);
      InsertKeepsSorted(x, s[1..]);
      forall j | 0 <= j < |t| ensures !Less(t[j].name, s[0].name) {
        assert t[j] in multiset(t);
        if t[j] == x {
          LessAsymmetric(s[0].name, x.name);
        } else {
          assert t[j] in s[1..];
          var k :| 0 <= k < |s[1..]| && s[1..][k] == t[j];
          assert s[k + 1] == t[j];
        }
      }
      assert r == [s[0]] + t;
    }
  }

  /** `sortBy(languages, ([code, name]) => name)`: the languages ordered by
      name, languages of equal name keeping their original order. */
  function SortByName(languages: seq<Language>): (r: seq<Language>)
    ensures multiset(r) == multiset(languages)
    ensures SortedByName(r)
    ensures forall name :: Named(r, name) == Named(languages, name)
  {
    if languages == [] then []
    else
      var rest := SortByName(languages[1..]);
      InsertKeepsSorted(languages[0], rest);
      assert [languages[0]] + languages[1..] == languages;
      assert forall name :: Named(InsertByName(languages[0], rest), name) == Named(languages, name) by {
        forall name ensures Named(InsertByName(languages[0], rest), name) == Named(languages, name) {
          InsertKeepsOrderWithinName(languages[0], rest, name);
          NamedCons(languages[0], languages[1..], name);
        }
      }
      InsertByName(languages[0], rest)
  }

  // ---------------------------------------------------------------------------
  // Form values and their initial state
  // ---------------------------------------------------------------------------

  /** The values of the form: the selected template, language and raster ids,
      and the selected region and territory ids, in selection order. */
  datatype FormValues = FormValues(
    template: string,
    language: string,
    mapRaster: string,
    regions: seq<string>,
    territories: seq<string>)

  /** The template the form values select. */
  function SelectedTemplate(v: FormValues): (r: Option<Template>)
    ensures r.None? <==> v.template !in Ids(Templates, TemplateId)
    ensures forall i :: 0 <= i < |Templates| && Templates[i].id == v.template ==> r == Some(Templates[i])
  {
    TemplatesCatalog();
    FindInDistinct(Templates, TemplateId, v.template);
    Find(Templates, TemplateId, v.template)
  }

  /** The raster the form values select; a missing one is passed on as undefined. */
  function SelectedMapRaster(v: FormValues): (r: Option<MapRaster>)
    ensures r.None? <==> v.mapRaster !in Ids(MapRasters, RasterId)
    ensures forall i :: 0 <= i < |MapRasters| && MapRasters[i].id == v.mapRaster ==> r == Some(MapRasters[i])
  {
    MapRastersCatalog();
    FindInDistinct(MapRasters, RasterId, v.mapRaster);
    Find(MapRasters, RasterId, v.mapRaster)
  }

  /** The values the form starts with: the first template, the default
      language, the first raster, and the first region and first territory
      when there are any. */
  function InitialValues(defaultLanguage: string, c: Congregation): (v: FormValues)
    ensures SelectedTemplate(v) == Some(Templates[0]) && SelectedMapRaster(v) == Some(MapRasters[0])
    ensures v.language == defaultLanguage
    ensures |v.regions| <= 1 && (v.regions == [] <==> c.subregions == [])
    ensures forall id :: id in v.regions ==> Find(c.subregions, RegionId, id) == Some(c.subregions[0])
    ensures |v.territories| <= 1 && (v.territories == [] <==> c.territories == [])
    ensures forall id :: id in v.territories ==> Find(c.territories, TerritoryId, id) == Some(c.territories[0])
  {
    assert c.subregions != [] ==> Find(c.subregions, RegionId, c.subregions[0].id) == Some(c.subregions[0]) by {
      if c.subregions != [] { FindFirst(c.subregions, RegionId, 0); }
    }
    assert c.territories != [] ==> Find(c.territories, TerritoryId, c.territories[0].id) == Some(c.territories[0]) by {
      if c.territories != [] { FindFirst(c.territories, TerritoryId, 0); }
    }
    FormValues(
      Templates[0].id,
      defaultLanguage,
      MapRasters[0].id,
      if |c.subregions| > 0 then [c.subregions[0].id] else [],
      if |c.territories| > 0 then [c.territories[0].id] else [])
  }

  // ---------------------------------------------------------------------------
  // Printable units
  // ---------------------------------------------------------------------------

  /** One printable document: a territory printed with a territory template,
      or a region printed with a region template together with all the
      congregation's territories. The raster is undefined (`None`) when the
      selected raster id is not in the catalog. */
  datatype PrintUnit =
    | TerritoryUnit(template: string, territory: Territory, mapRaster: Option<MapRaster>)
    | RegionUnit(template: string, region: Region, territories: seq<Territory>, mapRaster: Option<MapRaster>)

  /** What rendering throws on: reading `type` of an unknown template, or
      `id` of an unknown territory or region. */
  datatype RenderError = UnknownTemplate(id: string) | UnknownTerritory(id: string) | UnknownRegion(id: string)

  /** `ids[k]` is the first of `ids` missing from `known`. */
  ghost predicate FirstMissing(ids: seq<string>, known: seq<string>, k: int) {
    0 <= k < |ids| && ids[k] !in known && forall j :: 0 <= j < k ==> ids[j] in known
  }

  /** A known id in front moves the first missing one a place on. */
  lemma FirstMissingCons(ids: seq<string>, known: seq<string>, k: int)
    requires ids != [] && ids[0] in known && FirstMissing(ids[1..], known, k)
    ensures FirstMissing(ids, known, k + 1) && ids[k + 1] == ids[1..][k]
  {
    forall j | 0 <= j < k + 1 ensures ids[j] in known {
      if j > 0 {
        assert ids[j] == ids[1..][j - 1];
      }
    }
  }

  /** `ids.map(...)` building one territory unit per id, in order; it throws
      on the first id that names no territory. */
  function TerritoryUnits(template: string, ids: seq<string>, territories: seq<Territory>, mapRaster: Option<MapRaster>)
    : (r: Result<seq<PrintUnit>, RenderError>)
    ensures r.Success? <==> forall i :: 0 <= i < |ids| ==> ids[i] in Ids(territories, TerritoryId)
    ensures r.Failure? ==> exists k :: FirstMissing(ids, Ids(territories, TerritoryId), k) && r.error == UnknownTerritory(ids[k])
    ensures r.Success? ==> |r.value| == |ids|
    ensures r.Success? ==> forall i :: 0 <= i < |ids| ==>
      && r.value[i].TerritoryUnit?
      && r.value[i].template == template
      && r.value[i].mapRaster == mapRaster
      && Find(territories, TerritoryId, ids[i]) == Some(r.value[i].territory)
  {
    if ids == [] then Success([])
    else
      match Find(territories, TerritoryId, ids[0])
      case None => Failure(UnknownTerritory(ids[0]))
      case Some(territory) =>
        match TerritoryUnits(template, ids[1..], territories, mapRaster)
        case Failure(e) =>
          assert exists k :: FirstMissing(ids, Ids(territories, TerritoryId), k) && e == UnknownTerritory(ids[k]) by {
            var k :| FirstMissing(ids[1..], Ids(territories, TerritoryId), k) && e == UnknownTerritory(ids[1..][k]);
            FirstMissingCons(ids, Ids(territories, TerritoryId), k);
          }
          Failure(e)
        case Success(units) => Success([TerritoryUnit(template, territory, mapRaster)] + units)
  }

  /** `ids.map(...)` building one region unit per id, in order; it throws on
      the first id that names no region. */
  function RegionUnits(template: string, ids: seq<string>, regions: seq<Region>, territories: seq<Territory>,
                       mapRaster: Option<MapRaster>)
    : (r: Result<seq<PrintUnit>, RenderError>)
    ensures r.Success? <==> forall i :: 0 <= i < |ids| ==> ids[i] in Ids(regions, RegionId)
    ensures r.Failure? ==> exists k :: FirstMissing(ids, Ids(regions, RegionId), k) && r.error == UnknownRegion(ids[k])
    ensures r.Success? ==> |r.value| == |ids|
    ensures r.Success? ==> forall i :: 0 <= i < |ids| ==>
      && r.value[i].RegionUnit?
      && r.value[i].template == template
      && r.value[i].territories == territories
      && r.value[i].mapRaster == mapRaster
      && Find(regions, RegionId, ids[i]) == Some(r.value[i].region)
  {
    if ids == [] then Success([])
    else
      match Find(regions, RegionId, ids[0])
      case None => Failure(UnknownRegion(ids[0]))
      case Some(region) =>
        match RegionUnits(template, ids[1..], regions, territories, mapRaster)
        case Failure(e) =>
          assert exists k :: FirstMissing(ids, Ids(regions, RegionId), k) && e == UnknownRegion(ids[k]) by {
            var k :| FirstMissing(ids[1..], Ids(regions, RegionId), k) && e == UnknownRegion(ids[1..][k]);
            FirstMissingCons(ids, Ids(regions, RegionId), k);
          }
          Failure(e)
        case Success(units) => Success([RegionUnit(template, region, territories, mapRaster)] + units)
  }

  /** The form values can be rendered: the template is known, and so is every
      id of the list its type reads. */
  ghost predicate Renderable(v: FormValues, c: Congregation) {
    && v.template in Ids(Templates, TemplateId)
    && match SelectedTemplate(v).value.kind
       case TerritoryType => forall i :: 0 <= i < |v.territories| ==> v.territories[i] in Ids(c.territories, TerritoryId)
       case RegionType => forall i :: 0 <= i < |v.regions| ==> v.regions[i] in Ids(c.subregions, RegionId)
  }

  /** The printable units of the current values: for a territory template one
      unit per selected territory, for a region template one unit per selected
      region, in selection order; the other list is not read. */
  function Render(v: FormValues, c: Congregation): (r: Result<seq<PrintUnit>, RenderError>)
    ensures r.Success? <==> Renderable(v, c)
    ensures v.template !in Ids(Templates, TemplateId) ==> r == Failure(UnknownTemplate(v.template))
    ensures r.Success? && SelectedTemplate(v).value.kind == TerritoryType ==>
      && |r.value| == |v.territories|
      && forall i :: 0 <= i < |r.value| ==>
        && r.value[i].TerritoryUnit?
        && r.value[i].template == v.template
        && r.value[i].mapRaster == SelectedMapRaster(v)
        && Find(c.territories, TerritoryId, v.territories[i]) == Some(r.value[i].territory)
    ensures r.Success? && SelectedTemplate(v).value.kind == RegionType ==>
      && |r.value| == |v.regions|
      && forall i :: 0 <= i < |r.value| ==>
        && r.value[i].RegionUnit?
        && r.value[i].template == v.template
        && r.value[i].territories == c.territories
        && r.value[i].mapRaster == SelectedMapRaster(v)
        && Find(c.subregions, RegionId, v.regions[i]) == Some(r.value[i].region)
  {
    match SelectedTemplate(v)
    case None => Failure(UnknownTemplate(v.template))
    case Some(template) =>
      match template.kind
      case TerritoryType => TerritoryUnits(template.id, v.territories, c.territories, SelectedMapRaster(v))
      case RegionType => RegionUnits(template.id, v.regions, c.subregions, c.territories, SelectedMapRaster(v))
  }

  /** The list of the other template type is kept but never read: replacing it
      changes no unit. */
  lemma InactiveListIgnored(v: FormValues, c: Congregation, ids: seq<string>)
    requires SelectedTemplate(v).Some?
    ensures SelectedTemplate(v).value.kind == TerritoryType ==> Render(v.(regions := ids), c) == Render(v, c)
    ensures SelectedTemplate(v).value.kind == RegionType ==> Render(v.(territories := ids), c) == Render(v, c)
  {
  }

  /** The first render prints the first territory on a territory card over the
      default raster, or nothing when the congregation has no territories. */
  lemma InitialUnits(defaultLanguage: string, c: Congregation)
    ensures Render(InitialValues(defaultLanguage, c), c)
      == Success(if c.territories == [] then [] else [TerritoryUnit("TerritoryCard", c.territories[0], Some(MapRasters[0]))])
  {
    var v := InitialValues(defaultLanguage, c);
    TemplatesCatalog();
    assert Templates[0].kind == TerritoryType;
    if c.territories != [] {
      assert v.territories[0] in v.territories;
      assert v.territories[0] in Ids(c.territories, TerritoryId);
    }
    var r := Render(v, c);
    assert r.Success?;
    if c.territories != [] {
      assert r.value[0] == TerritoryUnit("TerritoryCard", c.territories[0], Some(MapRasters[0]));
      assert r.value == [r.value[0]];
    }
  }

  // ---------------------------------------------------------------------------
  // Pickers
  // ---------------------------------------------------------------------------

  /** The pickers of the form, in display order. */
  datatype Picker = TemplatePicker | LanguagePicker | MapRasterPicker | RegionsPicker | TerritoriesPicker

  /** The pickers shown for the current values: the list picker shown is the
      one of the selected template's type. */
  function Pickers(v: FormValues): (r: Result<seq<Picker>, RenderError>)
    ensures r.Failure? <==> v.template !in Ids(Templates, TemplateId)
    ensures r.Success? ==> |r.value| == 4 && r.value[..3] == [TemplatePicker, LanguagePicker, MapRasterPicker]
    ensures r.Success? ==> (RegionsPicker in r.value <==> SelectedTemplate(v).value.kind == RegionType)
    ensures r.Success? ==> (TerritoriesPicker in r.value <==> SelectedTemplate(v).value.kind == TerritoryType)
  {
    match SelectedTemplate(v)
    case None => Failure(UnknownTemplate(v.template))
    case Some(template) =>
      Success([TemplatePicker, LanguagePicker, MapRasterPicker]
        + (if template.kind == RegionType then [RegionsPicker] else [])
        + (if template.kind == TerritoryType then [TerritoriesPicker] else []))
  }

  /** An `<option>` of a picker. */
  datatype SelectOption = SelectOption(value: string, text: string)

  /** One option per catalog entry, valued by its id, in catalog order. */
  function Options<T>(s: seq<T>, key: T -> string, text: T -> string): (r: seq<SelectOption>)
    ensures |r| == |s| && forall i :: 0 <= i < |s| ==> r[i] == SelectOption(key(s[i]), text(s[i]))
  {
    seq(|s|, i requires 0 <= i < |s| => SelectOption(key(s[i]), text(s[i])))
  }

  /** A territory is listed as its number, followed by its subregion when it
      has a non-empty one. */
  function TerritoryLabel(t: Territory): (r: string)
    ensures |t.number| <= |r| && r[..|t.number|] == t.number
    ensures r == t.number <==> !Truthy(t.subregion)
    ensures Truthy(t.subregion) ==> r[|t.number|..] == " - " + t.subregion.value
  {
    if Truthy(t.subregion) then t.number + " - " + t.subregion.value else t.number
  }

  /** The template picker lists the templates by name, valued by id, in
      catalog order. */
  function TemplateOptions(): (r: seq<SelectOption>)
    ensures |r| == |Templates|
    ensures forall i :: 0 <= i < |r| ==> r[i].value == Templates[i].id && r[i].text == Templates[i].name
  {
    Options(Templates, TemplateId, TemplateName)
  }

  /** The options of a reordering of the languages show every language and
      only those. */
  lemma ReorderedLanguageOptions(sorted: seq<Language>, languages: seq<Language>)
    requires multiset(sorted) == multiset(languages)
    ensures forall o :: o in Options(sorted, LanguageCode, LanguageName) ==> Language(o.value, o.text) in languages
    ensures forall l :: l in languages ==> SelectOption(l.code, l.name) in Options(sorted, LanguageCode, LanguageName)
  {
    var r := Options(sorted, LanguageCode, LanguageName);
    forall o | o in r ensures Language(o.value, o.text) in languages {
      var i :| 0 <= i < |r| && r[i] == o;
      assert Language(o.value, o.text) == sorted[i];
      assert sorted[i] in multiset(languages);
    }
    forall l | l in languages ensures SelectOption(l.code, l.name) in r {
      assert l in multiset(sorted);
      var i :| 0 <= i < |sorted| && sorted[i] == l;
      assert r[i] == SelectOption(l.code, l.name);
    }
  }

  /** The language picker lists every language, by name, valued by its code,
      names never decreasing: option `i` is the `i`-th language of the stable
      sort by name. */
  function LanguageOptions(languages: seq<Language>): (r: seq<SelectOption>)
    ensures |r| == |languages|
    ensures forall o :: o in r ==> Language(o.value, o.text) in languages
    ensures forall l :: l in languages ==> SelectOption(l.code, l.name) in r
    ensures forall i, j :: 0 <= i < j < |r| ==> !Less(r[j].text, r[i].text)
    ensures forall i :: 0 <= i < |r| ==>
      r[i] == SelectOption(SortByName(languages)[i].code, SortByName(languages)[i].name)
  {
    var sorted := SortByName(languages);
    assert |multiset(sorted)| == |multiset(languages)|;
    ReorderedLanguageOptions(sorted, languages);
    Options(sorted, LanguageCode, LanguageName)
  }

  /** The raster picker lists the rasters by name, valued by id, in catalog
      order. */
  function MapRasterOptions(): (r: seq<SelectOption>)
    ensures |r| == |MapRasters|
    ensures forall i :: 0 <= i < |r| ==> r[i].value == MapRasters[i].id && r[i].text == MapRasters[i].name
  {
    Options(MapRasters, RasterId, RasterName)
  }

  function OptionValue(o: SelectOption): string {
    o.value
  }

  /** The subregion picker: one option per subregion, valued by its id and
      showing its name, in catalog order. */
  function RegionOptions(regions: seq<Region>): (r: seq<SelectOption>)
    ensures Ids(r, OptionValue) == Ids(regions, RegionId)
    ensures forall i :: 0 <= i < |r| ==> r[i].text == regions[i].name
  {
    Options(regions, RegionId, RegionName)
  }

  /** The territory picker: one option per territory, valued by its id and
      showing its label, in catalog order. */
  function TerritoryOptions(territories: seq<Territory>): (r: seq<SelectOption>)
    ensures Ids(r, OptionValue) == Ids(territories, TerritoryId)
    ensures forall i :: 0 <= i < |r| ==> r[i].text == TerritoryLabel(territories[i])
  {
    Options(territories, TerritoryId, TerritoryLabel)
  }

  /** The positions are strictly increasing. */
  ghost predicate Increasing(idx: seq<int>) {
    forall k, l :: 0 <= k < l < |idx| ==> idx[k] < idx[l]
  }

  /** `r` lists, through the positions `idx`, the values at the selected
      positions: every selected position once, in the order of `values`. */
  ghost predicate ListedAt(values: seq<string>, selected: seq<bool>, r: seq<string>, idx: seq<int>) {
    && |selected| == |values| && |idx| == |r|
    && (forall k :: 0 <= k < |idx| ==> 0 <= idx[k] < |values| && selected[idx[k]] && r[k] == values[idx[k]])
    && Increasing(idx)
    && (forall i :: 0 <= i < |values| && selected[i] ==> i in idx)
  }

  /** `r` is the selected values, in the order of `values`. */
  ghost predicate SelectionOf(values: seq<string>, selected: seq<bool>, r: seq<string>) {
    exists idx :: ListedAt(values, selected, r, idx)
  }

  /** Every position moved one on. */
  function Shift(tail: seq<int>): (r: seq<int>)
    ensures |r| == |tail| && forall k :: 0 <= k < |tail| ==> r[k] == tail[k] + 1
  {
    seq(|tail|, k requires 0 <= k < |tail| => tail[k] + 1)
  }
  lemma ShiftIncreasing(tail: seq<int>)
    requires Increasing(tail)
    ensures Increasing(Shift(tail))
  {
  }
  lemma ConsIncreasing(x: int, s: seq<int>)
    requires Increasing(s) && forall k :: 0 <= k < |s| ==> x < s[k]
    ensures Increasing([x] + s)
  {
    var t := [x] + s;
    forall k, l | 0 <= k < l < |t| ensures t[k] < t[l] {
      assert t[l] == s[l - 1];
      if k > 0 {
        assert t[k] == s[k - 1];
      }
    }
  }

  /** A listing of the selection after the first value, moved one position on. */
  lemma ShiftListing(values: seq<string>, selected: seq<bool>, rest: seq<string>, tail: seq<int>)
    requires |selected| == |values| > 0
    requires ListedAt(values[1..], selected[1..], rest, tail)
    ensures |Shift(tail)| == |rest| && Increasing(Shift(tail))
    ensures forall k :: 0 <= k < |rest| ==>
      1 <= Shift(tail)[k] < |values| && selected[Shift(tail)[k]] && rest[k] == values[Shift(tail)[k]]
    ensures forall i :: 1 <= i < |values| && selected[i] ==> i in Shift(tail)
  {
    var shifted := Shift(tail);
    ShiftIncreasing(tail);
    forall k | 0 <= k < |shifted|
      ensures 1 <= shifted[k] < |values| && selected[shifted[k]] && rest[k] == values[shifted[k]]
    {
      assert selected[1..][tail[k]] && values[1..][tail[k]] == rest[k];
    }
    forall i | 1 <= i < |values| && selected[i] ensures i in shifted {
      assert selected[1..][i - 1];
      var k :| 0 <= k < |tail| && tail[k] == i - 1;
      assert shifted[k] == i;
    }
  }

  /** The listing of the whole selection, from a listing of the selection
      after the first value given by positions 1 and on. */
  lemma ListedFirst(values: seq<string>, selected: seq<bool>, rest: seq<string>, shifted: seq<int>)
    requires |selected| == |values| > 0
    requires |shifted| == |rest| && Increasing(shifted)
    requires forall k :: 0 <= k < |rest| ==>
      1 <= shifted[k] < |values| && selected[shifted[k]] && rest[k] == values[shifted[k]]
    requires forall i :: 1 <= i < |values| && selected[i] ==> i in shifted
    ensures selected[0] ==> ListedAt(values, selected, [values[0]] + rest, [0] + shifted)
    ensures !selected[0] ==> ListedAt(values, selected, rest, shifted)
  {
    if selected[0] {
      var idx, r := [0] + shifted, [values[0]] + rest;
      ConsIncreasing(0, shifted);
      forall k | 0 <= k < |idx| ensures 0 <= idx[k] < |values| && selected[idx[k]] && r[k] == values[idx[k]] {
        if k > 0 {
          assert idx[k] == shifted[k - 1] && r[k] == rest[k - 1];
        }
      }
      forall i | 0 <= i < |values| && selected[i] ensures i in idx {
        if i > 0 {
          assert i in shifted;
        }
      }
    }
  }

  /** Selecting the first value or not, in front of a selection of the rest. */
  lemma SelectionCons(values: seq<string>, selected: seq<bool>, rest: seq<string>)
    requires |selected| == |values| > 0
    requires SelectionOf(values[1..], selected[1..], rest)
    ensures SelectionOf(values, selected, (if selected[0] then [values[0]] else []) + rest)
  {
    var tail :| ListedAt(values[1..], selected[1..], rest, tail);
    ShiftListing(values, selected, rest, tail);
    ListedFirst(values, selected, rest, Shift(tail));
    if !selected[0] {
      assert [] + rest == rest;
    }
  }
  /** The selection holds the selected values and nothing else. */
  lemma SelectionMembers(values: seq<string>, selected: seq<bool>, r: seq<string>)
    requires SelectionOf(values, selected, r)
    ensures forall i :: 0 <= i < |values| && selected[i] ==> values[i] in r
    ensures forall x :: x in r ==> exists i :: 0 <= i < |values| && selected[i] && values[i] == x
  {
    var idx :| ListedAt(values, selected, r, idx);
    forall i | 0 <= i < |values| && selected[i] ensures values[i] in r {
      var k :| 0 <= k < |idx| && idx[k] == i;
      assert r[k] == values[i];
    }
    forall x | x in r ensures exists i :: 0 <= i < |values| && selected[i] && values[i] == x {
      var k :| 0 <= k < |r| && r[k] == x;
      assert selected[idx[k]] && values[idx[k]] == x;
    }
  }

  /** The values of the selected options of a multiple select, in the order
      of the options (the order of `selectedOptions`). */
  function SelectedValues(options: seq<SelectOption>, selected: seq<bool>): (r: seq<string>)
    requires |selected| == |options|
    ensures SelectionOf(Ids(options, OptionValue), selected, r)
    ensures |r| <= |options|
    ensures forall i :: 0 <= i < |options| && selected[i] ==> options[i].value in r
    ensures forall x :: x in r ==> exists i :: 0 <= i < |options| && selected[i] && options[i].value == x
  {
    var r := (
      if options == [] then
        assert ListedAt([], selected, [], []);
        []
      else
        var rest := SelectedValues(options[1..], selected[1..]);
        assert Ids(options[1..], OptionValue) == Ids(options, OptionValue)[1..];
        SelectionCons(Ids(options, OptionValue), selected, rest);
        (if selected[0] then [options[0].value] else []) + rest);
    SelectionMembers(Ids(options, OptionValue), selected, r);
    r
  }

  /** Two strictly increasing sequences with the same elements are equal. */
  lemma {:induction false} IncreasingEqual(a: seq<int>, b: seq<int>)
    requires Increasing(a) && Increasing(b)
    requires forall x :: x in a <==> x in b
    ensures a == b
  {
    if a == [] {
      if b != [] {
        // b[0] would be an element of a
        assert false;
      }
    } else {
      assert a[0] in a;
      var j :| 0 <= j < |b| && b[j] == a[0];
      assert b[0] in b;
      var i :| 0 <= i < |a| && a[i] == b[0];
      assert a[0] == b[0];
      forall x ensures x in a[1..] <==> x in b[1..] {
        assert x in a[1..] <==> x in a && x != a[0] by {
          if x in a[1..] {
            var k :| 0 <= k < |a[1..]| && a[1..][k] == x;
            assert a[k + 1] == x;
          }
        }
        assert x in b[1..] <==> x in b && x != b[0] by {
          if x in b[1..] {
            var k :| 0 <= k < |b[1..]| && b[1..][k] == x;
            assert b[k + 1] == x;
          }
        }
      }
      IncreasingEqual(a[1..], b[1..]);
      assert a == [a[0]] + a[1..] && b == [b[0]] + b[1..];
    }
  }

  /** The positions of a listing are exactly the selected ones. */
  lemma ListedPositions(values: seq<string>, selected: seq<bool>, r: seq<string>, idx: seq<int>)
    requires ListedAt(values, selected, r, idx)
    ensures forall x :: x in idx <==> 0 <= x < |values| && selected[x]
  {
    forall x | x in idx ensures 0 <= x < |values| && selected[x] {
      var k :| 0 <= k < |idx| && idx[k] == x;
    }
  }

  /** The selection determines the list: any two lists that are the selected
      values in option order are the same list (so, e.g., a reversed list is
      not one). */
  lemma SelectionUnique(values: seq<string>, selected: seq<bool>, r: seq<string>, s: seq<string>)
    requires SelectionOf(values, selected, r) && SelectionOf(values, selected, s)
    ensures r == s
  {
    var p :| ListedAt(values, selected, r, p);
    var q :| ListedAt(values, selected, s, q);
    ListedPositions(values, selected, r, p);
    ListedPositions(values, selected, s, q);
    IncreasingEqual(p, q);
    assert forall k :: 0 <= k < |r| ==> r[k] == values[p[k]] == s[k];
  }

  /** Choosing option `k` of the template picker; nothing else changes, in
      particular no region or territory is selected or dropped. */
  function ChangeTemplate(v: FormValues, k: nat): (r: FormValues)
    requires k < |TemplateOptions()|
    ensures r.template == Templates[k].id && r.template in Ids(Templates, TemplateId)
    ensures r.language == v.language && r.mapRaster == v.mapRaster
    ensures r.regions == v.regions && r.territories == v.territories
  {
    v.(template := TemplateOptions()[k].value)
  }

  /** Choosing option `k` of the language picker, listed by name. */
  function ChangeLanguage(v: FormValues, languages: seq<Language>, k: nat): (r: FormValues)
    requires k < |LanguageOptions(languages)|
    ensures r.language == SortByName(languages)[k].code
    ensures r.language in Ids(languages, LanguageCode)
    ensures r.template == v.template && r.mapRaster == v.mapRaster
    ensures r.regions == v.regions && r.territories == v.territories
  {
    var sorted := SortByName(languages);
    assert sorted[k] in multiset(languages);
    v.(language := LanguageOptions(languages)[k].value)
  }

  /** Choosing option `k` of the raster picker. */
  function ChangeMapRaster(v: FormValues, k: nat): (r: FormValues)
    requires k < |MapRasterOptions()|
    ensures r.mapRaster == MapRasters[k].id && r.mapRaster in Ids(MapRasters, RasterId)
    ensures r.template == v.template && r.language == v.language
    ensures r.regions == v.regions && r.territories == v.territories
  {
    v.(mapRaster := MapRasterOptions()[k].value)
  }

  /** A change of the subregion picker: the whole region list is replaced by
      the ids of the selected subregions, in catalog order; nothing else
      changes. */
  function ChangeRegions(v: FormValues, regions: seq<Region>, selected: seq<bool>): (r: FormValues)
    requires |selected| == |regions|
    ensures SelectionOf(Ids(regions, RegionId), selected, r.regions)
    ensures forall id :: id in r.regions ==> id in Ids(regions, RegionId)
    ensures forall id :: id in r.regions ==> exists i :: 0 <= i < |regions| && selected[i] && regions[i].id == id
    ensures forall i :: 0 <= i < |regions| && selected[i] ==> regions[i].id in r.regions
    ensures r.template == v.template && r.language == v.language && r.mapRaster == v.mapRaster
    ensures r.territories == v.territories
  {
    v.(regions := SelectedValues(RegionOptions(regions), selected))
  }

  /** A change of the territory picker: the whole territory list is replaced
      by the ids of the selected territories, in catalog order; nothing else
      changes. */
  function ChangeTerritories(v: FormValues, territories: seq<Territory>, selected: seq<bool>): (r: FormValues)
    requires |selected| == |territories|
    ensures SelectionOf(Ids(territories, TerritoryId), selected, r.territories)
    ensures forall id :: id in r.territories ==> id in Ids(territories, TerritoryId)
    ensures forall id :: id in r.territories ==> exists i :: 0 <= i < |territories| && selected[i] && territories[i].id == id
    ensures forall i :: 0 <= i < |territories| && selected[i] ==> territories[i].id in r.territories
    ensures r.template == v.template && r.language == v.language && r.mapRaster == v.mapRaster
    ensures r.regions == v.regions
  {
    v.(territories := SelectedValues(TerritoryOptions(territories), selected))
  }

  /** A list picker replaces the list outright: the new list does not depend
      on the old one, and of two changes in a row only the last one counts. */
  lemma PickReplacesList(v: FormValues, w: FormValues, c: Congregation, selected: seq<bool>, again: seq<bool>)
    requires |selected| == |c.subregions| == |again|
    ensures ChangeRegions(v, c.subregions, selected).regions == ChangeRegions(w, c.subregions, selected).regions
    ensures ChangeRegions(ChangeRegions(v, c.subregions, again), c.subregions, selected)
      == ChangeRegions(v, c.subregions, selected)
  {
  }

  /** The same holds for the territory picker. */
  lemma PickReplacesTerritoryList(v: FormValues, w: FormValues, c: Congregation, selected: seq<bool>, again: seq<bool>)
    requires |selected| == |c.territories| == |again|
    ensures ChangeTerritories(v, c.territories, selected).territories
      == ChangeTerritories(w, c.territories, selected).territories
    ensures ChangeTerritories(ChangeTerritories(v, c.territories, again), c.territories, selected)
      == ChangeTerritories(v, c.territories, selected)
  {
  }

  /** Selecting every option yields every option value, in option order. */
  lemma {:induction false} SelectAllInOptionOrder(options: seq<SelectOption>, selected: seq<bool>)
    requires |selected| == |options| && forall i :: 0 <= i < |selected| ==> selected[i]
    ensures SelectedValues(options, selected) == Ids(options, OptionValue)
  {
    if options != [] {
      SelectAllInOptionOrder(options[1..], selected[1..]);
      assert Ids(options, OptionValue) == [options[0].value] + Ids(options[1..], OptionValue);
    }
  }

  /** So selecting every territory lists the territories in catalog order. */
  lemma SelectAllTerritories(v: FormValues, c: Congregation, selected: seq<bool>)
    requires |selected| == |c.territories| && forall i :: 0 <= i < |selected| ==> selected[i]
    ensures ChangeTerritories(v, c.territories, selected).territories == Ids(c.territories, TerritoryId)
  {
    SelectAllInOptionOrder(TerritoryOptions(c.territories), selected);
  }

  /** Switching to another template and back restores the values exactly:
      the selections of both types survive template switches. */
  lemma TemplateSwitchRoundTrip(v: FormValues, k: nat, back: nat)
    requires k < |TemplateOptions()| && back < |TemplateOptions()|
    requires Templates[back].id == v.template
    ensures ChangeTemplate(ChangeTemplate(v, k), back) == v
  {
  }

  // ---------------------------------------------------------------------------
  // Sessions of picker changes
  // ---------------------------------------------------------------------------

  /** One user interaction with a picker. */
  datatype PickerChange =
    | PickTemplate(option: nat)
    | PickLanguage(option: nat)
    | PickMapRaster(option: nat)
    | PickRegions(selected: seq<bool>)
    | PickTerritories(selected: seq<bool>)

  /** The interaction is one the pickers can produce. */
  predicate Possible(e: PickerChange, c: Congregation, languages: seq<Language>) {
    match e
    case PickTemplate(k) => k < |TemplateOptions()|
    case PickLanguage(k) => k < |LanguageOptions(languages)|
    case PickMapRaster(k) => k < |MapRasterOptions()|
    case PickRegions(selected) => |selected| == |c.subregions|
    case PickTerritories(selected) => |selected| == |c.territories|
  }

  function Apply(v: FormValues, c: Congregation, languages: seq<Language>, e: PickerChange): FormValues
    requires Possible(e, c, languages)
  {
    match e
    case PickTemplate(k) => ChangeTemplate(v, k)
    case PickLanguage(k) => ChangeLanguage(v, languages, k)
    case PickMapRaster(k) => ChangeMapRaster(v, k)
    case PickRegions(selected) => ChangeRegions(v, c.subregions, selected)
    case PickTerritories(selected) => ChangeTerritories(v, c.territories, selected)
  }

  function ApplyAll(v: FormValues, c: Congregation, languages: seq<Language>, es: seq<PickerChange>): FormValues
    requires forall i :: 0 <= i < |es| ==> Possible(es[i], c, languages)
    decreases es
  {
    if es == [] then v else ApplyAll(Apply(v, c, languages, es[0]), c, languages, es[1..])
  }

  /** Every selected id names an entry of its catalog. */
  ghost predicate Consistent(v: FormValues, c: Congregation) {
    && v.template in Ids(Templates, TemplateId)
    && v.mapRaster in Ids(MapRasters, RasterId)
    && (forall id :: id in v.regions ==> id in Ids(c.subregions, RegionId))
    && (forall id :: id in v.territories ==> id in Ids(c.territories, TerritoryId))
  }

  lemma ConsistentIsRenderable(v: FormValues, c: Congregation)
    requires Consistent(v, c)
    ensures Render(v, c).Success? && SelectedMapRaster(v).Some?
  {
  }

  lemma {:induction false} ApplyAllKeepsConsistent(v: FormValues, c: Congregation, languages: seq<Language>,
                                                   es: seq<PickerChange>)
    requires Consistent(v, c)
    requires forall i :: 0 <= i < |es| ==> Possible(es[i], c, languages)
    ensures Consistent(ApplyAll(v, c, languages, es), c)
    decreases es
  {
    if es != [] {
      var w := Apply(v, c, languages, es[0]);
      assert Consistent(w, c);
      ApplyAllKeepsConsistent(w, c, languages, es[1..]);
    }
  }

  /** Whatever the user picks, starting from the initial values, the form
      renders: no selected id is ever missing from its catalog. */
  lemma {:induction false} PickerSessionsRender(defaultLanguage: string, c: Congregation, languages: seq<Language>,
                                                es: seq<PickerChange>)
    requires forall i :: 0 <= i < |es| ==> Possible(es[i], c, languages)
    ensures Render(ApplyAll(InitialValues(defaultLanguage, c), c, languages, es), c).Success?
  {
    var v := InitialValues(defaultLanguage, c);
    MapRastersCatalog();
    assert v.mapRaster == MapRasters[0].id;
    assert Consistent(v, c);
    ApplyAllKeepsConsistent(v, c, languages, es);
    ConsistentIsRenderable(ApplyAll(v, c, languages, es), c);
  }
}
