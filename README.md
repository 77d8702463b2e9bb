# Print options and map options of the territory printouts

This project is a Dafny model of the printout core of a territory-tracking
web application. Printed territory cards, neighborhood maps and subregion
maps are chosen on a print options form.

The model covers two source files:

- `web/js/prints/PrintOptionsForm.js` is modelled by module `PrintOptionsForm`
  in `print_options_form.dfy`. It covers:
  - the template registry;
  - the languages sorted by name;
  - the form's initial values;
  - resolving the selected template and raster by id;
  - the pickers and the whole-list replacement they perform;
  - the territory option label;
  - deriving the ordered printable units from the form values.
- `web/js/maps/mapOptions.js` is modelled by module `MapOptions` in
  `map_options.dfy`. It covers:
  - the raster catalog;
  - turning an optional well-known-text (WKT) geometry into zero or one
    projected features;
  - the streets layer;
  - the styles of territory boundaries and labels.

Two helper modules support them:

- `Wrappers` (`wrappers.dfy`) holds `Option` and `Result`. `None` stands for
  JavaScript's `null`/`undefined`, and a `Failure` stands for a thrown error.
- `Js` (`js.dfy`) holds the JavaScript semantics the code relies on:
  - truthiness of an optional string;
  - `<` on strings, which compares UTF-16 code units, with lemmas that it is
    irreflexive, transitive and asymmetric and that "not greater" is transitive;
  - `Array.prototype.find` by id.

Both source files are pure, so the model is functional throughout.

- The form's values are an immutable record, `FormValues`. Every picker
  change is a function that returns a new record with one field replaced.
- Rendering does not return a list when it would throw in JavaScript. Reading
  `template.type`, `territory.id` or `region.id` of an id that is not in its
  catalog throws. `Render` models this as a `Failure` naming the unknown id.
- `PickerSessionsRender` shows that this failure cannot happen from the
  initial values through any sequence of picker changes.
- The WKT reader is a parameter `read: string -> Option<S>`. `None` means the
  reader throws, and the shape type `S` is left abstract. The same holds for the
  results of `ReadFeature`, `WktToFeature` and `WktToFeatures`: there `None`
  is the thrown error, not `undefined`.
- A geometry carries a coordinate-reference-system tag. The EPSG:4326 →
  EPSG:3857 transform changes that tag. It requires the geometry to be in the
  source system, so a second projection of the same geometry does not verify.
- Colours are `Rgba` values. `StyleColoursAsCss` proves they render to the CSS
  strings written in the source.

Behaviour of the code worth noting:

- Changing the template selects nothing by itself. The first-item defaults
  exist only in the initial values, and `ChangeTemplate` leaves both lists
  unchanged.
- A list picker replaces the whole list with the selected options' values.
  Selected options come in option order, which is catalog order. No toggle
  operation exists, and the order is not the order in which the user clicked.
- `wktToFeatures("")` returns the empty list, because `""` is falsy. It is not
  a parse error.
- An unknown raster id is not an error. The units receive an undefined raster
  (`None`).

## Model

| member | source | states |
|---|---|---|
| `MapOptions.MapRastersCatalog` | web/js/maps/mapOptions.js:24-60 | the raster catalog has four entries with distinct ids, in the order osm, osmBackup, mmlTaustakartta, vantaaKaupunkikartta |
| `MapOptions.ReadFeature` | web/js/maps/mapOptions.js:63 | a feature is read exactly when the reader parses the text; its geometry is the parsed shape, in EPSG:4326 |
| `MapOptions.Transform` | web/js/maps/mapOptions.js:64 | reprojection keeps the shape and retags it with the destination system; the caller must pass the system the geometry is in |
| `MapOptions.WktToFeature` | web/js/maps/mapOptions.js:62-66 | a feature exists exactly when the reader parses the text; its geometry is the parsed shape, projected once to EPSG:3857 |
| `MapOptions.WktToFeatures` | web/js/maps/mapOptions.js:68-74 | null, undefined or `""` give the empty list with no error; any other text gives exactly one feature, equal to `WktToFeature` of it, or the reader's error |
| `MapOptions.AbsentGeometryIsNoFeatures` | web/js/maps/mapOptions.js:69 | for every reader, absent and empty geometry both give the empty list, so the empty string never reaches the reader |
| `MapOptions.FeaturesAreProjected` | web/js/maps/mapOptions.js:62-74 | every feature returned is in EPSG:3857 |
| `MapOptions.MakeStreetsLayer` | web/js/maps/mapOptions.js:76-80 | the streets layer uses the tile source of the catalog's `osm` raster |
| `MapOptions.TerritoryStrokeStyle` | web/js/maps/mapOptions.js:92-97 | boundary stroke is red (255, 0, 0) at alpha 0.6, width 2 |
| `MapOptions.TerritoryFillStyle` | web/js/maps/mapOptions.js:99-103 | boundary fill is red (255, 0, 0) at alpha 0.1 |
| `MapOptions.FillIsFainterBoundaryColour` | web/js/maps/mapOptions.js:92-103 | the fill colour is the stroke colour with a lower alpha |
| `MapOptions.StyleColoursAsCss` | web/js/maps/mapOptions.js:92-111 | the four colours render as `rgba(255, 0, 0, 0.6)`, `rgba(255, 0, 0, 0.1)`, `rgba(0, 0, 0, 1.0)` and `rgba(255, 255, 255, 1.0)` |
| `MapOptions.LabelFont` | web/js/maps/mapOptions.js:108 | the font is `"bold "`, then the size, then `" sans-serif"` |
| `MapOptions.LabelFontRoundTrip` | web/js/maps/mapOptions.js:108 | the font size can be read back from `"bold " + size + " sans-serif"` |
| `MapOptions.LabelFontInjective` | web/js/maps/mapOptions.js:108 | different font sizes give different font strings |
| `MapOptions.TerritoryTextStyle` | web/js/maps/mapOptions.js:105-113 | the label text is the territory number and its font carries the given size; the fill is opaque black, the stroke opaque white of width 3, and overflow is on |
| `MapOptions.LabelLookIgnoresArguments` | web/js/maps/mapOptions.js:109-111 | fill, stroke and overflow of the label style are the same for all arguments |
| `Js.Truthy` | web/js/maps/mapOptions.js:69 | an optional string is falsy exactly when it is undefined or the empty string |
| `Js.Utf16` | web/js/prints/PrintOptionsForm.js:18 | a character is one code unit, itself, below U+10000, and otherwise a high surrogate followed by a low surrogate that decode back to the character |
| `Js.Utf16Injective` | web/js/prints/PrintOptionsForm.js:18 | different characters have different code units |
| `Js.CodeUnits` | web/js/prints/PrintOptionsForm.js:18 | a string's code units are the UTF-16 units of its characters, concatenated: one or two per character |
| `Js.CodeUnitsAppend` | web/js/prints/PrintOptionsForm.js:18 | the code units of a concatenation are those of its parts, concatenated |
| `Js.Less` | web/js/prints/PrintOptionsForm.js:18 | string `<` is lexicographic order of the strings' UTF-16 code units; a proper prefix sorts first |
| `Js.PrefixUnitsFirst` | web/js/prints/PrintOptionsForm.js:18 | the code units of a proper prefix come before those of the whole string |
| `Js.CodeUnitsOfBmp` | web/js/prints/PrintOptionsForm.js:18 | a string with no character above U+FFFF has one code unit per character, equal to it |
| `Js.LessIrreflexive` | web/js/prints/PrintOptionsForm.js:18 | no name sorts before itself |
| `Js.LessTransitive` | web/js/prints/PrintOptionsForm.js:18 | string `<` is transitive |
| `Js.LessAsymmetric` | web/js/prints/PrintOptionsForm.js:18 | of two strings at most one is `<` the other |
| `Js.NotLessTransitive` | web/js/prints/PrintOptionsForm.js:18 | "not less" is transitive, which the sort by name relies on |
| `Js.LessUnitsTrichotomous` | web/js/prints/PrintOptionsForm.js:18 | any two code-unit sequences are equal or one is `<` the other |
| `Js.SurrogatesBeforeHighBmp` | web/js/prints/PrintOptionsForm.js:18 | `<` is code-unit order, not code-point order: U+1F600 sorts before U+FF00, although its code point is larger |
| `Js.FindIndex` | web/js/prints/PrintOptionsForm.js:60 | no index means no entry has the id; otherwise the index is that of the first entry with the id |
| `Js.Find` | web/js/prints/PrintOptionsForm.js:60-62 | `find` by id is undefined exactly when the id is not among the catalog's ids; otherwise it is a catalog entry with that id |
| `Js.FindFirst` | web/js/prints/PrintOptionsForm.js:151 | an entry with no earlier entry of the same id is the one `find` returns |
| `Js.FindInDistinct` | web/js/prints/PrintOptionsForm.js:60-62 | in a catalog with distinct ids, `find` returns the one entry carrying the id |
| `PrintOptionsForm.TemplatesCatalog` | web/js/prints/PrintOptionsForm.js:20-45 | four templates with distinct ids, in the order TerritoryCard, NeighborhoodCard, RuralTerritoryCard, RegionPrintout; only RegionPrintout is of region type |
| `PrintOptionsForm.InsertKeepsOrderWithinName` | web/js/prints/PrintOptionsForm.js:18 | inserting a language keeps the order among languages of the same name and puts the new one first among them |
| `PrintOptionsForm.InsertKeepsSorted` | web/js/prints/PrintOptionsForm.js:18 | inserting into a name-sorted list keeps it sorted |
| `PrintOptionsForm.SortByName` | web/js/prints/PrintOptionsForm.js:18 | the sorted languages are a permutation of the `[code, name]` pairs, ordered by non-decreasing name, and equal names keep their relative order (stable) |
| `PrintOptionsForm.SelectedTemplate` | web/js/prints/PrintOptionsForm.js:60 | the selected template is undefined exactly when its id is not in the registry; otherwise it is the registry entry with that id |
| `PrintOptionsForm.SelectedMapRaster` | web/js/prints/PrintOptionsForm.js:61-62 | the selected raster is undefined exactly when its id is not in the catalog; otherwise it is the catalog entry with that id |
| `PrintOptionsForm.InitialValues` | web/js/prints/PrintOptionsForm.js:53-58 | the initial template, language and raster are the first template, the default language and the first raster; each list is empty exactly when its catalog is empty, and otherwise it names that catalog's first entry |
| `PrintOptionsForm.TerritoryUnits` | web/js/prints/PrintOptionsForm.js:150-158 | one territory unit per id, in id order, each holding the territory `find` returns and the raster; it fails on the first unknown id |
| `PrintOptionsForm.RegionUnits` | web/js/prints/PrintOptionsForm.js:160-168 | one region unit per id, in id order, each holding the region `find` returns, all territories and the raster; it fails on the first unknown id |
| `PrintOptionsForm.Render` | web/js/prints/PrintOptionsForm.js:149-168 | rendering succeeds exactly when the template is known and every id of its type's list resolves; a territory template gives one territory unit per selected territory and a region template one region unit per selected region, in selection order, with the selected raster; an unknown template throws |
| `PrintOptionsForm.InactiveListIgnored` | web/js/prints/PrintOptionsForm.js:149-168 | replacing the list of the other template type does not change the rendered units |
| `PrintOptionsForm.InitialUnits` | web/js/prints/PrintOptionsForm.js:53-58 | the first render is one territory card of the first territory over the osm raster, or nothing when there are no territories |
| `PrintOptionsForm.Pickers` | web/js/prints/PrintOptionsForm.js:100-141 | the template, language and raster pickers are always shown; the subregion picker is shown exactly for region templates and the territory picker exactly for territory templates |
| `PrintOptionsForm.TerritoryLabel` | web/js/prints/PrintOptionsForm.js:136 | the label starts with the number; it is the number alone exactly when the subregion is absent or empty, and otherwise the number followed by `" - "` and the subregion |
| `PrintOptionsForm.TemplateOptions` | web/js/prints/PrintOptionsForm.js:74-75 | one option per template, in registry order, valued by its id and showing its name |
| `PrintOptionsForm.LanguageOptions` | web/js/prints/PrintOptionsForm.js:84-85 | option `i` is the `i`-th language of the stable sort by name (`SortByName`), valued by its code and showing its name; so every language has an option, every option is a language, and the names never decrease down the list |
| `PrintOptionsForm.ReorderedLanguageOptions` | web/js/prints/PrintOptionsForm.js:84-85 | the options of a permutation of the languages are exactly the languages' `[code, name]` pairs |
| `PrintOptionsForm.MapRasterOptions` | web/js/prints/PrintOptionsForm.js:94-95 | one option per raster, in catalog order, valued by its id and showing its name |
| `PrintOptionsForm.RegionOptions` | web/js/prints/PrintOptionsForm.js:113-114 | the option values are the subregion ids in catalog order, and each option shows its subregion's name |
| `PrintOptionsForm.TerritoryOptions` | web/js/prints/PrintOptionsForm.js:134-137 | the option values are the territory ids in catalog order, and each option shows its territory's label |
| `PrintOptionsForm.SelectedValues` | web/js/prints/PrintOptionsForm.js:108-110 | the result lists the values of the selected options, each selected option once, in option order (the order of `selectedOptions`), and nothing else |
| `PrintOptionsForm.SelectionCons` | web/js/prints/PrintOptionsForm.js:108-110 | the selection of a list of options is the first option when it is selected, followed by the selection of the rest |
| `PrintOptionsForm.SelectionMembers` | web/js/prints/PrintOptionsForm.js:108-110 | a selection in option order holds every selected value and only selected values |
| `PrintOptionsForm.SelectionUnique` | web/js/prints/PrintOptionsForm.js:108-110 | the options and the flags determine the selection: two lists that are both the selected values in option order are equal, so no other order (a reversed one, say) qualifies |
| `PrintOptionsForm.SelectAllInOptionOrder` | web/js/prints/PrintOptionsForm.js:129-131 | selecting every option yields all option values in option order |
| `PrintOptionsForm.SelectAllTerritories` | web/js/prints/PrintOptionsForm.js:124-137 | selecting every territory lists all territory ids in catalog order |
| `PrintOptionsForm.ChangeTemplate` | web/js/prints/PrintOptionsForm.js:73-76 | choosing a template option sets a registry id and leaves language, raster and both lists unchanged (no auto-selection) |
| `PrintOptionsForm.ChangeLanguage` | web/js/prints/PrintOptionsForm.js:83-86 | choosing option `k` of the language picker sets the code of the `k`-th language by name, which is a code of the languages, and leaves every other field unchanged |
| `PrintOptionsForm.ChangeMapRaster` | web/js/prints/PrintOptionsForm.js:93-96 | choosing a raster option sets a catalog id and leaves every other field unchanged |
| `PrintOptionsForm.ChangeRegions` | web/js/prints/PrintOptionsForm.js:104-112 | the region list becomes the ids of the selected subregions, each once, in catalog order; template, language, raster and the territory list are unchanged |
| `PrintOptionsForm.ChangeTerritories` | web/js/prints/PrintOptionsForm.js:124-133 | the territory list becomes the ids of the selected territories, each once, in catalog order; template, language, raster and the region list are unchanged |
| `PrintOptionsForm.PickReplacesList` | web/js/prints/PrintOptionsForm.js:105-111 | the new region list does not depend on the old one, and of two changes in a row only the last counts |
| `PrintOptionsForm.PickReplacesTerritoryList` | web/js/prints/PrintOptionsForm.js:126-132 | the new territory list does not depend on the old one, and of two changes in a row only the last counts |
| `PrintOptionsForm.TemplateSwitchRoundTrip` | web/js/prints/PrintOptionsForm.js:73-76 | switching to another template and back restores the form values exactly, so both selections survive |
| `PrintOptionsForm.ConsistentIsRenderable` | web/js/prints/PrintOptionsForm.js:149-168 | when every selected id is in its catalog, rendering succeeds and the raster resolves |
| `PrintOptionsForm.ApplyAllKeepsConsistent` | web/js/prints/PrintOptionsForm.js:73-133 | picker changes keep every selected id in its catalog |
| `PrintOptionsForm.PickerSessionsRender` | web/js/prints/PrintOptionsForm.js:53-168 | from the initial values, rendering succeeds after any sequence of picker changes |

## Left out

- WKT parsing and coordinate reprojection arithmetic (`web/js/maps/mapOptions.js:63-64`) are done by the map library in floating point. The reader is a parameter, and the transform only changes the reference-system tag.
- The tile sources' URLs are kept, but tile sizes, pixel ratios, attributions and WMS parameters are not. These are opaque third-party configuration.
- `makeControls` (`web/js/maps/mapOptions.js:82-88`) builds library controls only and has no logic to model.
- The style functions return fresh library objects on every call. The model returns equal values, so object identity is not modelled.
- The React, Formik and IntlProvider rendering is left out: JSX, the DOM, `getMessages` and the template components (TerritoryCard and the others). A unit names its component by the template id. The DOM's `selectedOptions` is modelled as one flag per option.
- `languagesByCode` and the default language come from the `intl` module, which is not part of this model. They are parameters.
- The congregation's territories and subregions come from `getCongregationById` in the `api` module, which is not part of this model. They are a `Congregation` parameter, and a territory keeps only its id, number and subregion.
- Territory and subregion ids are assumed to be strings. The `api` module that supplies them is not part of this model. The initial lists keep the raw first ids (`web/js/prints/PrintOptionsForm.js:57-58`), the pickers store `option.value`, which is always a string (`:110`, `:131`), and lookups compare with `===` (`:151`, `:161`). With non-string ids, the first picker change would make `find` miss and rendering throw, which `PickerSessionsRender` does not cover.
- A subregion keeps only its id and name. A region unit holds that `Region` value, while the source passes the whole subregion object to the template component (`web/js/prints/PrintOptionsForm.js:165`); its other fields are not modelled.
- Picker visibility is not enforced on picker changes. The subregion picker is shown only for region templates and the territory picker only for territory templates, but the model accepts a change to either list under any template. `InactiveListIgnored` shows that such a change does not affect the units.
- The map view's lifecycle (mount, fit, raster swap, unmount) lives in the `maps` module and `web/js/ui/RegionMap.js`. The `maps` module is not part of this model.
- Routing, bootstrapping, authentication and the pages (`web/js/routes.js`, `web/js/index.js`, `web/js/pages/*`) are plumbing and are not modelled.
