# Object constructor wizard — a Dafny model

The application is a three-step wizard for building a new oil-and-gas field object ("Конструктор объектов"):

1. The user picks an object type: compressor station, oil treatment unit, pumping station or complex oil treatment unit.
2. The user picks technical-economic parameters (ТЭП) of that type and types a target value for each. The page lists the catalog objects that meet every target. Each target is checked in one of three ways, depending on the object's characteristic:
   - an inclusive range such as "0.5 - 0.9";
   - a number matched within 10%;
   - otherwise, the exact text.

   When exactly one object is left it is chosen automatically. "Далее" (Next) is enabled only while the list holds that one chosen object.
3. The user ticks sub-objects of the new object (compressors, separators, control systems, …), sets their quantities, and creates the object.

The model covers the following:

- **`Creator`** (`object_creator.dfy`): the page. It is a class whose fields are the page's state cells: the step, the chosen type, the selected parameters, the chosen object, the chosen sub-objects, the progress dialog flag and the number of objects the parameter step shows. Each handler is a method that states the whole new state and keeps the invariant `Valid()`.
- **`ParameterSelection`** (`parameter_selector.dfy`): the parameter step, as a class with the component's state cells. Its callbacks are the page's handlers, called on `parent`.
- **`Matching`** (`matching.dfy`): the matching rules as pure functions, with lemmas about them:
  - `isValueInRange`;
  - the per-parameter criterion;
  - the `filter`/`every` pipeline;
  - the name search.
- **`SubObjectSelection`** (`sub_object_selector.dfy`): the sub-object step. It has the pure list edits (toggle, quantity, selected items, the quantity-field coercion) and a class whose methods apply them.
- **`MockData`** (`mock_data.dfy`): the catalog, transcribed exactly. **`CatalogFacts`** (`catalog_facts.dfy`) proves structural facts about it and works the filter through on it.
- **`ObjectTypes`**, **`Numbers`**, **`Text`**, **`Seqs`**, **`Wrappers`**: the records, and the JavaScript built-ins the components use:
  - `toString` and `parseFloat` on numbers, and `parseInt`;
  - `trim`, `split`, `includes` and `toLowerCase`;
  - `Array.prototype.filter`.

Numbers are `real`. A numeric literal of the catalog is a `Decimal(units, scale)`, so that `toString` can be written as the canonical decimal printer. `parseFloat` and `parseInt` are decimal-prefix readers: they skip leading whitespace, read an optional sign and then the longest decimal prefix. Both round-trip with the printers (`ParseFormatRoundTrip`, `ParseIntRoundTrip`).

Three consequences of the code that the proofs make explicit:

- **Negative range ends.** A range with a negative lower end such as "-30 - 45" never matches, because `split('-')` yields an empty first piece (`LeadingMinusNeverInRange`). The shipped catalog has no range with a negative end.
- **Inlet pressure 0.8.** An inlet pressure of 0.8 keeps all five compressor stations (`InletPressureKeepsAllStations`).
- **Adding outlet pressure 2.75.** Adding an outlet pressure of 2.75 leaves ДКС-1, ДКС-3 УКПГ and ДКС-4, so nothing is chosen (`OutletPressureLeavesThree`).

## Model

| member | source | states |
|---|---|---|
| Seqs.Filter | src/components/ParameterSelector.tsx:107 | `filter` keeps exactly the elements that pass, in their original order: an order-preserving subsequence in which each passing value occurs as often as in the input and each failing value not at all |
| Seqs.FilterKeepsAll | src/components/ParameterSelector.tsx:107 | when every element passes, `filter` gives back the whole sequence |
| Text.TrimStart | src/components/ParameterSelector.tsx:52 | the result is a suffix of the input; everything dropped is whitespace; it does not start with whitespace |
| Text.TrimEnd | src/components/ParameterSelector.tsx:52 | the result is a prefix of the input; everything dropped is whitespace; it does not end with whitespace |
| Text.IsWhitespace | src/components/ParameterSelector.tsx:52 | the characters `trim` and `parseFloat` skip: JavaScript's WhiteSpace and LineTerminator code points; none of them is a digit, a point or '-' |
| Text.Trim | src/components/ParameterSelector.tsx:52 | `trim` gives "" exactly for all-whitespace input, and otherwise neither end of the result is whitespace |
| Text.TrimPadded | src/components/ParameterSelector.tsx:52 | for any whitespace on the left and on the right of a string that neither starts nor ends with whitespace, `trim` gives back that string; with `Trim`'s own contract this pins `trim` |
| Text.Split | src/components/ParameterSelector.tsx:52 | `split(sep)` yields at least one piece; no piece contains the separator; joining the pieces with the separator gives back the input |
| Text.SplitOnce | src/components/ParameterSelector.tsx:52 | a string with exactly one separator splits into the two sides |
| Text.SplitHasTwo | src/components/ParameterSelector.tsx:50-52 | a string containing the separator splits into at least two pieces, so both destructured pieces exist |
| Text.Contains | src/components/ParameterSelector.tsx:168 | `includes` holds exactly when the needle occurs at some position |
| Text.ToLower | src/components/ParameterSelector.tsx:168 | `toLowerCase` keeps the length and lowers each character on its own |
| Text.ToLowerIdempotent | src/components/ParameterSelector.tsx:168 | lower-casing twice is lower-casing once |
| Numbers.FormatDecimal | src/components/ParameterSelector.tsx:118 | a number's `toString` starts with '-' exactly when the number is negative, and has no other '-' |
| Numbers.ParseFloatNonNegative | src/components/ParameterSelector.tsx:127-132 | text with no '-' never parses to a negative number |
| Numbers.ParseFormatRoundTrip | src/components/ParameterSelector.tsx:118-127 | `parseFloat(v.toString())` gives back v for every catalog number |
| Numbers.ParseFloat | src/components/ParameterSelector.tsx:53-54 | `parseFloat` gives a number only for text that holds a digit; NaN is `None` |
| Numbers.ParseInt | src/components/SubObjectSelector.tsx:113 | `parseInt` gives a number only for text that holds a digit; NaN is `None` |
| Numbers.ParseIntRoundTrip | src/components/SubObjectSelector.tsx:113 | `parseInt` reads back every integer's decimal text |
| ObjectTypes.IdsAppend | src/components/ParameterSelector.tsx:71 | appending a parameter adds exactly its id to the selected ids |
| ObjectTypes.Value.ToString | src/components/ParameterSelector.tsx:76 | `value.toString()`: text is itself, and a number prints as text that `parseFloat` reads back as that number |
| ObjectTypes.RemoveById | src/components/ParameterSelector.tsx:64 | the list without the parameters of that id: an order-preserving subsequence holding every other parameter as often as before and none with that id, whose ids are the old ids minus that one |
| MockData.ParametersOf | src/components/ParameterSelector.tsx:35 | `parametersByType[type] \|\| []`: a type without definitions has none |
| MockData.SubObjectsOf | src/components/SubObjectSelector.tsx:22 | `subObjectTypes[type] \|\| []`: a type without templates has none |
| Matching.IsValueInRange | src/components/ParameterSelector.tsx:49-57 | a text without '-' is never a range that holds the value |
| Matching.RangeOfTwoPieces | src/components/ParameterSelector.tsx:52-56 | a text that splits into two pieces holds exactly the values between its trimmed, parsed pieces, both ends included, and holds nothing if either piece does not parse |
| Matching.RangeOfNumerals | src/components/ParameterSelector.tsx:49-57 | "a - b", with any whitespace around the '-', holds exactly the values between parseFloat(a) and parseFloat(b), both ends included |
| Matching.PaddedPieces | src/components/ParameterSelector.tsx:52 | "a - b" with whitespace around the '-' splits into the two padded numerals, and `trim` strips the padding back off |
| Matching.RangeOfNumbers | src/components/ParameterSelector.tsx:49-57 | the range printed from two non-negative numbers lo and hi holds exactly the values in [lo, hi] |
| Matching.LeadingMinusNeverInRange | src/components/ParameterSelector.tsx:52-56 | because the split is on every '-', a range text starting with '-' (such as "-30 - 45") holds no value at all |
| Matching.ExtraPiecesIgnored | src/components/ParameterSelector.tsx:52 | only the first two pieces are read: "a-b-c" holds the same values as "a-b" |
| Matching.SplitLong | src/components/ParameterSelector.tsx:52 | "a-b-c" with no '-' in a or b splits into a, b and the pieces of c |
| Matching.SplitShort | src/components/ParameterSelector.tsx:52 | "a-b" with no '-' in a or b splits into exactly a and b |
| Matching.WithinTolerance | src/components/ParameterSelector.tsx:131-132 | \|v − t\| ≤ 0.1·v exactly when 0.9·v ≤ t ≤ 1.1·v |
| Matching.UserValue | src/components/ParameterSelector.tsx:112-113 | a missing entry reads as the empty text, which `!userValue` treats like an undefined one |
| Matching.FindById | src/components/ParameterSelector.tsx:115 | `find` returns nothing exactly when no parameter has the id, and otherwise the first one that does |
| Matching.FindFirst | src/components/ParameterSelector.tsx:115 | `find` returns the parameter at position j when it carries the id and no earlier one does |
| Matching.FindCharacteristic | src/components/ParameterSelector.tsx:115-116 | nothing exactly when the object has no characteristics or none with the id; otherwise one of its characteristics with that id |
| Matching.ValueMatches | src/components/ParameterSelector.tsx:118-137 | range branch: an entry that does not parse fails, with no text fallback. Otherwise, when either side does not parse, the test is text equality |
| Matching.Criterion | src/components/ParameterSelector.tsx:111-138 | an empty or missing entry passes; an entry that passes implies that the object has the characteristic |
| Matching.ScalarToleranceNonNegative | src/components/ParameterSelector.tsx:122-132 | in the tolerance branch the object's text has no '-', so its number and the tolerance are never negative |
| Matching.NumericCharacteristic | src/components/ParameterSelector.tsx:118-133 | for a non-negative numeric characteristic, a non-empty entry passes exactly when it parses and is within 10% (the text fallback can never help) |
| Matching.NegativeCharacteristicNeverMatches | src/components/ParameterSelector.tsx:118-124 | a negative numeric characteristic prints with a leading '-', falls into the range branch, and no entry matches it |
| Matching.RangeCharacteristic | src/components/ParameterSelector.tsx:121-124 | a characteristic "a - b" passes a non-empty entry exactly when the entry, a and b all parse and a ≤ entry ≤ b |
| Matching.RangeHasNoTextFallback | src/components/ParameterSelector.tsx:122-124 | a range text that does not start with a number is rejected even when the entry equals it letter for letter |
| Matching.MatchesAll | src/components/ParameterSelector.tsx:111 | `every` holds exactly when each selected parameter's criterion holds |
| Matching.OfType | src/components/ParameterSelector.tsx:39 | the catalog objects of the type, in catalog order, each as often as in the catalog |
| Matching.FilterObjects | src/components/ParameterSelector.tsx:107-139 | an order-preserving subsequence of the catalog; an object is in it exactly when it is of the type and meets every criterion, and then as often as in the catalog |
| Matching.FilterObjectsCons | src/components/ParameterSelector.tsx:107-108 | the filter decides the first object, then filters the rest |
| Matching.FilterObjectsAppend | src/components/ParameterSelector.tsx:107-139 | filtering two parts of a catalog and concatenating gives the filter of the whole |
| Matching.FilterObjectsKeepsAll | src/components/ParameterSelector.tsx:107-139 | when every object passes, the result is the whole catalog |
| Matching.FilterObjectsKeepsNone | src/components/ParameterSelector.tsx:107-139 | when no object passes, the result is empty |
| Matching.NoParametersMeansType | src/components/ParameterSelector.tsx:94-97 | with no parameter selected the filter is exactly the type filter |
| Matching.AddParameterNarrows | src/components/ParameterSelector.tsx:107-111 | selecting one more parameter gives a subsequence of the previous result |
| Matching.OnlySelectedValuesCount | src/components/ParameterSelector.tsx:111-113 | entries for unselected parameters never change the result |
| Matching.ValuelessParameterChangesNothing | src/components/ParameterSelector.tsx:74-81 | appending a parameter with no entry leaves the result as it was |
| Matching.NameMatches | src/components/ParameterSelector.tsx:168 | the name contains the term, ignoring case: the empty term matches every name, and a term longer than the name matches none |
| Matching.SearchParameters | src/components/ParameterSelector.tsx:161-171 | a blank term (after trimming) gives the full list; otherwise the definitions whose lower-cased name contains the lower-cased term, in order |
| Matching.SearchKeepsCounts | src/components/ParameterSelector.tsx:167-169 | for a non-blank term, the search keeps each matching definition as often as the list holds it and no other |
| Matching.SearchIgnoresCase | src/components/ParameterSelector.tsx:167-168 | lower-casing the term first changes no search result |
| ParameterSelection.ParameterSelector.constructor | src/components/ParameterSelector.tsx:34-46 | mounting lists the type's definitions and all catalog objects of the type, and reports their number to the page; nothing else on the page changes |
| ParameterSelection.ParameterSelector.FilterObjectsByUserCriteria | src/components/ParameterSelector.tsx:93-159 | list := the filter (the type filter when no parameters are given); notice shown iff parameters are given and the list is empty; page count := list length; a sole match with parameters given becomes the chosen object; nothing else changes |
| ParameterSelection.ParameterSelector.ToggleParameter | src/components/ParameterSelector.tsx:59-82 | deselect: the parameter and its entry are removed, and the list is refiltered without it. Select: the parameter is appended and its entry seeded with its default's text, and the list stays the one the old parameters and old entries give (the stale map). Notice, count and auto-choice as in the filter |
| ParameterSelection.ParameterSelector.HandleUserValueChange | src/components/ParameterSelector.tsx:84-91 | sets one entry and refilters with the same parameter list |
| ParameterSelection.ParameterSelector.SetSearchTerm | src/components/ParameterSelector.tsx:184-189 | typing in the search box changes only the term |
| ParameterSelection.ParameterSelector.HandleSearch | src/components/ParameterSelector.tsx:161-171 | the listed definitions become the search result for the current term |
| ParameterSelection.ParameterSelector.SelectObjectRow | src/components/ParameterSelector.tsx:258-262 | clicking a listed object chooses it, and the step and count stay |
| ParameterSelection.SoleObjectIsChosen | src/components/ParameterSelector.tsx:34-46 | when the type has one catalog object, an object already chosen for the type is that one |
| ParameterSelection.NextEnabledMeansSoleMatch | src/pages/ObjectCreator.tsx:82 | with Next enabled the list is exactly the chosen object |
| Creator.ObjectCreator.constructor | src/pages/ObjectCreator.tsx:18-24 | the page starts at type selection with nothing chosen, the dialog closed and count 0 |
| Creator.ObjectCreator.HandleTypeSelect | src/pages/ObjectCreator.tsx:26-32 | takes the type, moves to the parameter step, and clears the parameters, object and count; sub-objects and dialog kept |
| Creator.ObjectCreator.HandleParameterSelect | src/pages/ObjectCreator.tsx:34-36 | replaces only the selected parameters |
| Creator.ObjectCreator.HandleObjectSelect | src/pages/ObjectCreator.tsx:38-40 | replaces only the chosen object |
| Creator.ObjectCreator.HandleObjectsFiltered | src/pages/ObjectCreator.tsx:77-79 | replaces only the count |
| Creator.ObjectCreator.HandleNext | src/pages/ObjectCreator.tsx:42-46 | moves to the sub-object step only from the parameter step with an object chosen, without looking at the count; an enabled click always moves; nothing else changes |
| Creator.ObjectCreator.HandleBack | src/pages/ObjectCreator.tsx:48-58 | from sub-objects: back to parameters keeping everything. From parameters: back to types, clearing type, parameters, object and count. From types: no change |
| Creator.ObjectCreator.HandleFinish | src/pages/ObjectCreator.tsx:60-63 | keeps the given sub-objects and opens the dialog, on the same step |
| Creator.ObjectCreator.HandleCloseModal | src/pages/ObjectCreator.tsx:65-74 | restores exactly the initial state |
| Creator.ObjectCreator.IsNextEnabled | src/pages/ObjectCreator.tsx:82 | `isNextEnabled`: in a valid state, Next is active only with a chosen object from the catalog |
| Creator.NextEnabledNeedsObject | src/pages/ObjectCreator.tsx:82 | Next enabled implies a chosen type and a chosen object of that type, never on the first step |
| SubObjectSelection.Toggled | src/components/SubObjectSelector.tsx:27-34 | same length; items with the id have `selected` flipped; every other item unchanged |
| SubObjectSelection.WithCount | src/components/SubObjectSelector.tsx:36-43 | same length; items with the id take the new quantity; every other item unchanged |
| SubObjectSelection.CoerceCount | src/components/SubObjectSelector.tsx:113 | `parseInt(text) \|\| 1` is never 0, and is 1 when nothing parses |
| SubObjectSelection.CoerceCountRoundTrip | src/components/SubObjectSelector.tsx:113 | every non-zero integer typed is stored as typed, negative ones included |
| SubObjectSelection.CoerceCountDefaults | src/components/SubObjectSelector.tsx:113 | an empty field and "0" both store 1 |
| SubObjectSelection.SelectedItems | src/components/SubObjectSelector.tsx:46 | exactly the selected items, in list order, each as often as in the list |
| SubObjectSelection.ToggleTwice | src/components/SubObjectSelector.tsx:27-34 | toggling an id twice restores the list |
| SubObjectSelection.TogglesCommute | src/components/SubObjectSelector.tsx:27-34 | toggles of two ids commute |
| SubObjectSelection.LastCountWins | src/components/SubObjectSelector.tsx:36-43 | of two quantity edits of an id, the later wins |
| SubObjectSelection.ToggleAndCountCommute | src/components/SubObjectSelector.tsx:27-43 | selecting and setting quantities are independent |
| SubObjectSelection.CountKeepsSelection | src/components/SubObjectSelector.tsx:36-48 | quantity edits never change how many items are handed on |
| SubObjectSelection.SubObjectSelector.constructor | src/components/SubObjectSelector.tsx:21-25 | the list starts as the type's templates, or empty |
| SubObjectSelection.SubObjectSelector.ToggleSubObject | src/components/SubObjectSelector.tsx:27-34 | the list becomes its toggle by id |
| SubObjectSelection.SubObjectSelector.UpdateSubObjectCount | src/components/SubObjectSelector.tsx:36-43 | the list becomes its quantity edit by id |
| SubObjectSelection.SubObjectSelector.ChangeCountInput | src/components/SubObjectSelector.tsx:113 | the quantity field stores the coerced number |
| SubObjectSelection.SubObjectSelector.HandleCreateObject | src/components/SubObjectSelector.tsx:45-48 | hands exactly the selected items, in order, to the page, which opens the dialog; nothing else on the page changes |
| CatalogFacts.CharacteristicIdsDistinct | src/data/mock-data.ts:57-152 | every catalog object has characteristics, with pairwise distinct ids |
| CatalogFacts.ObjectTypesKnown | src/data/mock-data.ts:57-152 | every catalog object's type is one of the listed type ids |
| CatalogFacts.ComplexPrepHasParameters | src/data/mock-data.ts:49-54 | "complexPrep" has parameter definitions |
| CatalogFacts.ComplexPrepHasNoObjects | src/data/mock-data.ts:57-152 | no catalog object is of type "complexPrep" |
| CatalogFacts.ComplexPrepHasNoTemplates | src/data/mock-data.ts:154-254 | "complexPrep" has no sub-object templates |
| CatalogFacts.TemplatesStartUnselected | src/data/mock-data.ts:154-254 | every template starts unselected with quantity at least 1 |
| CatalogFacts.CatalogLayout | src/data/mock-data.ts:57-152 | nine objects: five compressor stations, then two oil treatment units, then two pumping stations |
| CatalogFacts.OfTypeAbsent | src/components/ParameterSelector.tsx:39 | a type no catalog object has lists nothing |
| CatalogFacts.ReadsPrinted | src/components/ParameterSelector.tsx:52-54 | a range end written with a fixed number of fraction digits, as the catalog writes "0.5" or "2.75", is a numeral that `parseFloat` reads back as its value |
| CatalogFacts.PrintedRange | src/components/ParameterSelector.tsx:115-124 | a characteristic written "lo - hi" with fixed-digit ends passes a non-empty entry exactly when the entry parses to a value between lo and hi |
| CatalogFacts.RangeEntry | src/components/ParameterSelector.tsx:111-124 | when such a range is the first characteristic with the parameter's id, an entry reading as t passes exactly when low ≤ t ≤ high |
| CatalogFacts.NumberEntry | src/components/ParameterSelector.tsx:111-133 | when a non-negative number v is the first characteristic with the id, an entry reading as t passes exactly when t is within 10% of v |
| CatalogFacts.Station0 | src/data/mock-data.ts:62-65 | ДКС-1 lists gas volume 1.5, inlet range "0.5 - 0.9" and outlet range "2.5 - 2.8" first, in that order |
| CatalogFacts.Station1 | src/data/mock-data.ts:72-75 | ДКС-2: 2.5, "0.7 - 1.0", "2.8 - 3.0" |
| CatalogFacts.Station2 | src/data/mock-data.ts:82-85 | ДКС-3 УКПГ: 3.0, "0.6 - 0.95", "2.7 - 2.9" |
| CatalogFacts.Station3 | src/data/mock-data.ts:92-95 | ДКС-4: 2.2, "0.6 - 0.85", "2.6 - 2.85" |
| CatalogFacts.Station4 | src/data/mock-data.ts:103-106 | ДКС-5: 3.5, "0.75 - 1.1", "3.0 - 3.2" |
| CatalogFacts.Unit5 | src/data/mock-data.ts:114-116 | УПН-1 lists its water content, 50, second |
| CatalogFacts.Unit6 | src/data/mock-data.ts:124-126 | УПН-2 lists its water content, 55, second |
| CatalogFacts.InletRange0 | src/data/mock-data.ts:64 | ДКС-1 passes an inlet pressure t exactly when 0.5 ≤ t ≤ 0.9 |
| CatalogFacts.InletRange1 | src/data/mock-data.ts:74 | ДКС-2: 0.7 ≤ t ≤ 1.0 |
| CatalogFacts.InletRange2 | src/data/mock-data.ts:84 | ДКС-3 УКПГ: 0.6 ≤ t ≤ 0.95 |
| CatalogFacts.InletRange3 | src/data/mock-data.ts:94 | ДКС-4: 0.6 ≤ t ≤ 0.85 |
| CatalogFacts.InletRange4 | src/data/mock-data.ts:105 | ДКС-5: 0.75 ≤ t ≤ 1.1 |
| CatalogFacts.OutletRange0 | src/data/mock-data.ts:65 | ДКС-1 passes an outlet pressure t exactly when 2.5 ≤ t ≤ 2.8 |
| CatalogFacts.OutletRange1 | src/data/mock-data.ts:75 | ДКС-2: 2.8 ≤ t ≤ 3.0 |
| CatalogFacts.OutletRange2 | src/data/mock-data.ts:85 | ДКС-3 УКПГ: 2.7 ≤ t ≤ 2.9 |
| CatalogFacts.OutletRange3 | src/data/mock-data.ts:95 | ДКС-4: 2.6 ≤ t ≤ 2.85 |
| CatalogFacts.OutletRange4 | src/data/mock-data.ts:106 | ДКС-5: 3.0 ≤ t ≤ 3.2 |
| CatalogFacts.GasVolume0 | src/data/mock-data.ts:63 | ДКС-1 passes a gas volume entry that reads as t exactly when t is within 10% of 1.5 |
| CatalogFacts.GasVolume1 | src/data/mock-data.ts:73 | ДКС-2: within 10% of 2.5 |
| CatalogFacts.GasVolume2 | src/data/mock-data.ts:83 | ДКС-3 УКПГ: within 10% of 3.0 |
| CatalogFacts.GasVolume3 | src/data/mock-data.ts:93 | ДКС-4: within 10% of 2.2 |
| CatalogFacts.GasVolume4 | src/data/mock-data.ts:104 | ДКС-5: within 10% of 3.5 |
| CatalogFacts.WaterContent5 | src/data/mock-data.ts:116 | УПН-1 passes a water content entry that reads as t exactly when t is within 10% of 50 |
| CatalogFacts.WaterContent6 | src/data/mock-data.ts:126 | УПН-2: within 10% of 55 |
| CatalogFacts.Entered0p8 | src/components/ParameterSelector.tsx:112-119 | the entry "0.8" is not empty and reads as 0.8 |
| CatalogFacts.Entered2p75 | src/components/ParameterSelector.tsx:112-119 | the entry "2.75" is not empty and reads as 2.75 |
| CatalogFacts.Entered3p5 | src/components/ParameterSelector.tsx:112-119 | the entry "3.5" is not empty and reads as 3.5 |
| CatalogFacts.Entered10 | src/components/ParameterSelector.tsx:112-119 | the entry "10" is not empty and reads as 10 |
| CatalogFacts.Entered55 | src/components/ParameterSelector.tsx:112-119 | the entry "55" is not empty and reads as 55 |
| CatalogFacts.MatchesOne | src/components/ParameterSelector.tsx:111 | with one selected parameter, `every` is that parameter's criterion |
| CatalogFacts.MatchesTwo | src/components/ParameterSelector.tsx:111 | with two selected parameters, `every` is both criteria |
| CatalogFacts.FilterObjectsKeepsSlice | src/components/ParameterSelector.tsx:107-139 | when the objects that pass are exactly those at positions lo to hi − 1, the filter is that slice of the catalog |
| CatalogFacts.FirstThenPair | src/components/ParameterSelector.tsx:107-139 | when the objects that pass are the first and the two at positions lo and lo + 1, the filter is those three, in order |
| CatalogFacts.InletKeeps | src/data/mock-data.ts:58-110 | with an inlet pressure reading 0.8, the objects that pass are exactly the five compressor stations |
| CatalogFacts.PressuresKeep | src/data/mock-data.ts:58-110 | with inlet 0.8 and outlet 2.75, the objects that pass are exactly ДКС-1, ДКС-3 УКПГ and ДКС-4 |
| CatalogFacts.GasVolumeKeepsOne | src/data/mock-data.ts:58-110 | with a gas volume reading 3.5, only ДКС-5 passes |
| CatalogFacts.GasVolumeKeepsNone | src/data/mock-data.ts:58-110 | with a gas volume reading 10, no compressor station passes |
| CatalogFacts.WaterContentKeepsBoth | src/data/mock-data.ts:111-130 | with a water content reading 55, exactly the two oil treatment units pass |
| CatalogFacts.InletPressureKeepsAllStations | src/data/mock-data.ts:58-110 | compressor stations with inlet pressure "0.8": all five remain, in order |
| CatalogFacts.OutletPressureLeavesThree | src/data/mock-data.ts:58-110 | adding outlet pressure "2.75" leaves ДКС-1, ДКС-3 УКПГ and ДКС-4, so nothing is chosen automatically |
| CatalogFacts.GasVolumeSingleStation | src/data/mock-data.ts:58-110 | gas volume "3.5" leaves ДКС-5 alone |
| CatalogFacts.GasVolumeNoStation | src/data/mock-data.ts:58-110 | gas volume "10" leaves no station (the "no match" case) |
| CatalogFacts.WaterContentBothUnits | src/data/mock-data.ts:111-130 | oil treatment units with water content "55": both remain, УПН-1 at the edge of its band (\|50 − 55\| = 0.1·50) |

## Left out

- Rendering, layout and the Russian texts. The "no analogues found" notice is the boolean `noMatch`.
- The sub-object step's object-name input and its "Выгрузить Excel" button. Neither takes part in any decision.
- The progress dialog (src/components/ProgressModal.tsx) is not part of this model. It is a timer animation with random identifiers; the model keeps only its open/closed flag and the close handler.
- The type selection screen (src/components/ObjectTypeSelector.tsx) is not part of this model. It only lists the types and forwards a click to `HandleTypeSelect`.
- `objectTypes[].count` is carried in the data but not related to the catalog. It is display-only and does not match the catalog (oilPrep says 1 but has two objects).
- The optional fields `unit`, `subtype`, `typeOfSubobject`, `value` and `selected` of the source records are not modelled. The core never reads them.
- Numbers are exact reals, not IEEE-754 doubles. `parseFloat` reads no exponent, no "Infinity" and no hexadecimal; none occurs in the catalog.
- Numbers.ParseFloat: its own contract states only that a digit is needed. Which number it reads is stated by `ParseFormatRoundTrip`, `ParseFloatNonNegative` and the entry lemmas of `CatalogFacts`.
- Numbers.ParseInt: its own contract states only that a digit is needed; `ParseIntRoundTrip` states which number it reads. It reads decimal digits only. JavaScript's `parseInt` without a radix reads a "0x" prefix as hexadecimal; a `type="number"` field never yields such text.
- Numbers.FormatDecimal: prints canonical decimals only. JavaScript's exponent notation for very large or small magnitudes does not arise for the catalog's numbers.
- Text.ToLower: lowers ASCII, Latin-1 and Cyrillic letters one by one. It does not do full Unicode case mapping.
- React scheduling is not modelled: state batching, effect timing and re-renders. Each handler is one sequential update, and each step's mount effect runs once, in the constructor.
  - In the application, the parameter step's mount effect also depends on the page's `handleObjectsFiltered`. That handler is a new function at every render of the page, so React re-runs the effect after page updates and lists the whole type again. This re-run is not modelled.
- The catalog is a constructor parameter of `ObjectCreator` rather than the global constant. `CatalogFacts` proves its results about `MockData.SystemObjects`, the catalog the application passes.
- ParameterSelection.ParameterSelector.ToggleParameter: the stale value map is modelled with the deselected entry removed rather than set to `undefined`. The filter treats both alike.
