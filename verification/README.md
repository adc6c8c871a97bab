# Metrology dashboard data pipeline, modelled in Dafny

This project models the data pipeline behind a Streamlit dashboard used to
study dimensional measurements of cast parts (metal parts and their wax
patterns). Measurements are pasted from Excel as tab-separated text, either
as the raw inspection-machine grid or as an already "long" table with one
row per measured dimension. The pipeline:

- reshapes the raw grid into long records (`RawLayout`);
- classifies every dimension name by keyword (`CoteType`);
- keeps a registry of per-dimension characteristics: type, angle, profile
  group (`Registry`);
- checks the column contract and derives each row's angle and type
  (`Cleaning`);
- computes per-dimension statistics — mean, sample standard deviation, Cp,
  Cpk, share out of tolerance — on the two quick-study pages (`Stats`,
  `StatPages`);
- compares a wax batch with a metal batch: conversion, stacking, drift
  warning, and the profile chart of the first group (`Comparison`), plus the
  older raw comparison page (`RawComparison`);
- analyses radii measured at several angles: value grids, deviation bars,
  per-group radar polygons (`Radar`);
- places thickness measurements along a synthetic 0–100 position axis
  (`Thickness`);
- draws the angular "star" study of the development page (`AngularStudy`).

The shared layers are:

- `Base`: `Option`, `Result`, closing a polygon;
- `Text`: Python's `lower`, `in`, `replace`, `strip`, `split(...)[-1]`;
- `Numbers`: Python's `int()`, and `float()` after replacing commas;
- `Sheet`: tables of text cells, column lookup, the column check;
- `Sorting`: stable insertion sort by a real-valued key (`Sorting.SortStable`).

Conventions:

- Cells are text. An empty cell stands for pandas' missing value (NaN).
- Numbers are `real`. A missing number is `None`.
- `sqrt` is a parameter characterised by `Stats.IsSqrt`.
- The registry is a map from dimension names to profiles. Each profile field
  is `Absent`, `Null` or a value. This mirrors a JSON dict whose keys may be
  missing or `null`.

## Model

| member | source | states |
|---|---|---|
| Base.Close | App/modules/analyse_rayons.py:346-349 | closing a trace appends its first point once: the original points are kept and the new last point equals the first |
| Text.Lower | App/modules/data_cleaning.py:58 | lower-casing keeps the length and maps each character independently (ASCII and Latin-1 capitals) |
| Text.LowerIdempotent | App/modules/data_cleaning.py:58 | lower-casing an already lower-cased name changes nothing |
| Text.NoFirstCharNoContains | App/modules/data_cleaning.py:59-74 | a text none of whose characters starts the keyword cannot contain the keyword |
| Text.ReplaceAllAbsent | App/pages/Comparaison.py:45 | `str.replace` of a pattern that does not occur returns the text unchanged |
| Text.ReplaceOneChar | App/pages/Comparaison.py:213 | replacing "." by "," keeps the length and rewrites exactly the points |
| Text.ReplaceAllAtFront | App/pages/Comparaison.py:45 | an occurrence at the front is replaced and scanning resumes after it |
| Text.ReplaceAllSkipsPrefix | App/pages/Comparaison.py:45 | characters that cannot begin the pattern are copied unchanged |
| Text.ReplacedCharGone | App/pages/Comparaison.py:213 | after replacing "." by "," no "." remains |
| Text.TrimStartSpec | App/modules/data_cleaning.py:125 | `lstrip` removes only leading whitespace, and all of it |
| Text.TrimEndSpec | App/modules/data_cleaning.py:125 | `rstrip` removes only trailing whitespace, and all of it |
| Text.StripSpec | App/modules/data_cleaning.py:125 | `strip` keeps the middle slice that neither starts nor ends with whitespace, and everything it cuts is whitespace |
| Text.StripIdempotent | App/modules/data_cleaning.py:125 | stripping twice is stripping once |
| Text.AfterLastFound | App/pages/Etude_dimensionnelle_dev.py:141-143 | `split("ANG")` finds a separator exactly when "ANG" occurs in the name |
| Text.AfterLastOfSeparator | App/pages/Etude_dimensionnelle_dev.py:143 | the last piece after "ANG" is the text following the last separator |
| Numbers.IntRoundTrip | App/pages/Etude_dimensionnelle_dev.py:143 | `int()` reads back every integer printed in decimal |
| Numbers.NegativeText | App/pages/Etude_dimensionnelle_dev.py:143 | `int("-" + digits)` is the negated value of the digits |
| Numbers.NormaliseComma | App/pages/Comparaison.py:59 | replacing "," by "." rewrites exactly the commas and keeps the length |
| Numbers.CommaDecimal | App/pages/Comparaison.py:59 | a decimal-comma number reads as the same number written with a point, with its digit value |
| Numbers.PointDecimal | App/pages/comparaison.py:28 | `float("a.b")` is a plus b scaled by its number of digits |
| Numbers.CommaFreeSame | App/pages/comparaison.py:28 | comma normalisation changes nothing on a text without commas |
| Numbers.DecimalOfInteger | App/mainV2.py:29 | an integer text reads as that integer, with or without comma normalisation |
| Sheet.Str | App/pages/AnalyseStatRapide.py:41 | `astype(str)` prints a missing cell as "nan" and keeps every other cell |
| Sheet.ColumnIndex | App/modules/data_cleaning.py:128-130 | a column is found exactly when its label is in the header, at its first occurrence |
| Sheet.CheckColumns | App/modules/data_cleaning.py:128-130 | the check passes exactly when every expected label is present, and otherwise reports the expected and the found labels |
| Sheet.ExtraColumnsAccepted | App/pages/Comparaison.py:52-55 | extra columns on either side never make the check fail (a subset check) |
| Sheet.MissingColumnRejected | App/pages/AnalyseStatRapide.py:27-29 | one missing expected label makes the check fail with the expected and found labels |
| Sheet.NumberIn | App/pages/Comparaison.py:58-59 | a cell that converts is missing exactly when it is empty, and otherwise holds the parsed number |
| Sheet.RowsReadEach | App/pages/Comparaison.py:58-59 | a column converts exactly when every one of its cells converts |
| Sheet.RowsReadAppend | App/pages/Comparaison.py:58-59 | adding a row keeps the column convertible exactly when the new cell converts |
| CoteType.DetectType | App/pages/Etude_dimensionnelle_dev.py:7-26 | the detected type is always one of the seven listed types |
| CoteType.DetectTypeIsFirstMatch | App/modules/data_cleaning.py:57-74 | the type is the verdict of the first keyword rule that matches the lower-cased name |
| CoteType.AutreIffNoKeyword | App/modules/data_cleaning.py:72-74 | "Autre" is returned exactly when no rule's keyword occurs in the name |
| CoteType.DetectTypeCaseInsensitive | App/modules/data_cleaning.py:58 | the type does not depend on letter case |
| CoteType.RadiusBeforeDiameter | App/modules/data_cleaning.py:59-62 | a name holding both "rayon" and "diam" is a radius, although the diameter rule would match too |
| Registry.Extend | App/modules/data_cleaning.py:133-145 | extension adds every non-missing name, keeps existing profiles unchanged and gives new names the default profile |
| Registry.ExtendIdempotent | App/modules/data_cleaning.py:137-145 | extending twice with the same names is extending once |
| Registry.InitIfEmpty | App/pages/Etude_dimensionnelle_dev.py:67-78 | an empty or missing registry is rebuilt from the table's names with default profiles; a non-empty one is kept |
| Registry.InitIsExtensionOfEmpty | App/pages/Etude_dimensionnelle_dev.py:67-78 | the page's initialisation is the cleaning step's extension applied to an empty registry |
| Registry.Import | App/pages/Etude_dimensionnelle_dev.py:38-45 | importing adds the document's names and leaves entries the document does not mention unchanged |
| Registry.ImportEntries | App/pages/Etude_dimensionnelle_dev.py:41-45 | a new name takes the imported profile; a known name has its profile updated key by key |
| Registry.UpdateIdempotent | App/pages/Etude_dimensionnelle_dev.py:45 | `dict.update` with the same profile twice is one update |
| Registry.ImportIdempotent | App/pages/Etude_dimensionnelle_dev.py:38-45 | importing the same document twice is importing it once |
| Registry.AddToSpec | App/pages/Comparaison.py:31-35 | `setdefault(group, []).append(name)` keeps group ids distinct, adds a new id at the end, appends the name to its group only and leaves the other groups unchanged |
| Registry.TagGroups | App/pages/Comparaison.py:31-36 | the rebuilt groups carry distinct ids |
| Registry.TagGroupsSpec | App/pages/Comparaison.py:31-36 | groups appear in order of first tag, and each group lists exactly the names carrying its tag, in document order |
| Registry.GroupedIffTagged | App/pages/Comparaison.py:33-34 | a name is in some rebuilt group exactly when its profile has a truthy `Groupe_Profil` |
| Registry.Reload | App/pages/Comparaison.py:24-36 | loading a document replaces the registry by the loaded object and yields, for each distinct tag in order of first appearance, the group of exactly the names carrying it, in document order |
| Registry.ToRegistry | App/pages/Comparaison.py:27-28 | the loaded registry has exactly the document's names |
| Registry.ToRegistryEntries | App/pages/Comparaison.py:27-28 | each name holds the profile of its last entry in the document, unmerged |
| Registry.ReloadIsImportIntoEmpty | App/pages/Comparaison.py:27-28 | with distinct names, reloading gives the registry that importing into an empty registry gives |
| Registry.ResetGroups | App/pages/Etude_dimensionnelle_dev.py:119-121 | the reset clears the group list and leaves the registry untouched |
| Registry.RowsOfKind | App/pages/Etude_dimensionnelle_dev.py:99 | filtering by type keeps exactly the registry rows of that type |
| Registry.TypeFilter | App/pages/Etude_dimensionnelle_dev.py:86-100 | "Tous" shows every row; any other type shows exactly the rows of that type, and an empty registry fails (no column to filter on) |
| RawLayout.LayoutIsShapeOnly | App/modules/data_cleaning.py:80 | the raw layout is recognised from the shape alone: more than 12 rows and more than 10 columns |
| RawLayout.RowRecords | App/modules/data_cleaning.py:106-118 | one data row yields one record per data column, in column order |
| RawLayout.ReshapeShape | App/modules/data_cleaning.py:82-118 | the long table has rows × columns records, and record a·m+b comes from data row a and column b |
| RawLayout.ColumnSharesLimits | App/modules/data_cleaning.py:93-96 | all records of one column share its name, nominal and limits |
| RawLayout.RowSharesIdentity | App/modules/data_cleaning.py:101-112 | all records of one data row share its date, serial and OF |
| RawLayout.PlantCodeIgnored | App/modules/data_cleaning.py:100-103 | the plant code column is read but never reaches the records |
| RawLayout.ReshapeLoop | App/modules/data_cleaning.py:105-118 | the nested loop over rows and columns builds exactly the reshaped records |
| RawLayout.PadDigits | App/modules/structured_data.py:35 | zero-padding a number to a width it fits keeps its digit value and reaches exactly that width |
| RawLayout.DateRoundTrip | App/modules/structured_data.py:35 | a date printed as YYYY-MM-DD reads back as the same date |
| RawLayout.ExcelReshape | App/modules/structured_data.py:3-55 | the Excel variant fails exactly when the grid is too small to index, and otherwise gives the same records with reformatted dates |
| RawLayout.ExcelDates | App/modules/structured_data.py:35-36 | an unparsable date becomes "" and a parsable one is printed so that it reads back as the parsed date |
| Cleaning.StructuredHeader | App/modules/data_cleaning.py:124-125 | the structured layout's labels are the stripped header cells |
| Cleaning.LongTableOf | App/modules/data_cleaning.py:80-125 | the raw layout is reshaped; otherwise the first row is the header and the rest are records |
| Cleaning.Derive | App/modules/data_cleaning.py:148-153 | derivation keeps every record and its cells, one output row per record |
| Cleaning.Clean | App/modules/data_cleaning.py:76-155 | the corrected cleaner (missing names get no type): empty input fails; a failure leaves the registry unchanged; success extends the registry with the table's names and gives each row its registered angle and type, and no type for an unnamed row |
| Cleaning.CleanAsWritten | App/modules/data_cleaning.py:76-155 | as written, cleaning fails with the missing-name error exactly when the columns check and some name is missing, leaving the registry extended; in every other case it is the corrected cleaner |
| Cleaning.ColumnContract | App/modules/data_cleaning.py:128-130 | cleaning fails exactly when a structured table lacks an expected column, and reports expected and found labels |
| Cleaning.NewNamesGetDefaults | App/modules/data_cleaning.py:133-153 | a new name gets its detected type and no angle; a registered name keeps its stored type and angle |
| Cleaning.CleanTwice | App/modules/data_cleaning.py:133-153 | cleaning the same table again with the extended registry gives the same result |
| Cleaning.AgreeWithoutMissingNames | App/modules/data_cleaning.py:151-153 | on tables without missing names the code as written and the corrected cleaning agree |
| Cleaning.MissingNameFails | App/modules/data_cleaning.py:151-153 | as written, one missing name makes cleaning fail after the registry was extended; the corrected cleaning succeeds |
| Cleaning.UnnamedColumnExample | App/modules/data_cleaning.py:93-153 | a raw grid with an unnamed data column fails as written and cleans when corrected |
| Stats.SampleVariance | App/pages/AnalyseStatRapide.py:82 | the sample variance is never negative |
| Stats.Present | App/pages/AnalyseStatRapide.py:82-84 | pandas drops missing values: what remains comes from the input, and all of it when nothing is missing |
| Stats.PresentSelects | App/pages/AnalyseStatRapide.py:82-84 | dropping missing values keeps exactly the present values, each once and in order |
| Stats.MeanOf | App/pages/AnalyseStatRapide.py:83 | the mean is missing exactly when no value is present |
| Stats.MeanTimesCount | App/pages/AnalyseStatRapide.py:83 | the mean times the count of present values is their sum |
| Stats.VarianceZeroIffConstant | App/pages/AnalyseStatRapide.py:82 | the sample variance is zero exactly when all values are equal |
| Stats.SquaredDeviationZero | App/pages/AnalyseStatRapide.py:82 | the squared deviation is zero exactly when every value equals the mean |
| Stats.CountOut | App/pages/AnalyseStatRapide.py:79 | at most every row is out of tolerance |
| Stats.PctOut | App/pages/AnalyseStatRapide.py:79 | the share out of tolerance is missing exactly for an empty group |
| Stats.PctOutBounds | App/pages/AnalyseStatRapide.py:96 | the share out of tolerance lies between 0 and 100 |
| Stats.PctOutMonotone | App/pages/AnalyseStatRapide.py:96 | adding a flagged row never lowers the share out of tolerance |
| Stats.NoneFlagged | App/pages/AnalyseStatRapide.py:79 | a group with no flagged row has no row out of tolerance |
| Stats.BeyondIffOutOfTolerance | App/modules/analyse_rayons.py:281 | the radar's red test (below the minimum or above the maximum) agrees with `~between` when all three values are present, implies it always, and differs from it on a missing limit |
| Stats.PyMin | App/pages/AnalyseStatRapide.py:87 | Python's `min` returns the smaller value, and its first argument when the second is NaN |
| Stats.MeanAbs | App/pages/AnalyseStatRapide.py:76 | the mean absolute gap is the mean of the absolute gaps and is never negative |
| Stats.MeanAbsBound | App/pages/AnalyseStatRapide.py:76 | the mean absolute gap exists exactly when the mean gap does, and bounds its magnitude |
| Stats.StdOf | App/pages/AnalyseStatRapide.py:82 | the standard deviation exists exactly when at least two values are present, and is never negative |
| Stats.StdSquared | App/pages/AnalyseStatRapide.py:82 | the standard deviation squared is the sample variance |
| Stats.CpOf | App/pages/AnalyseStatRapide.py:86 | Cp exists exactly when the deviation is positive and both limits are present |
| Stats.CpFormula | App/pages/AnalyseStatRapide.py:86 | Cp times six deviations is the tolerance width |
| Stats.CpkOf | App/pages/AnalyseStatRapide.py:87 | Cpk exists exactly when the deviation is positive and `min` of the two margins is defined |
| Stats.CpkFormula | App/pages/AnalyseStatRapide.py:87 | Cpk times three deviations is the smaller margin |
| Stats.CpkAtMostCp | App/pages/AnalyseStatRapide.py:86-87 | Cpk never exceeds Cp |
| Stats.SummaryCpkAtMostCp | App/pages/AnalyseStatRapide.py:82-96 | in every statistics row Cpk never exceeds Cp |
| Stats.Summarize | App/pages/AnalyseStatRapide.py:70-96 | a statistics row counts the group, takes its mean, its mean absolute gap and its share out; fewer than two rows give no deviation, Cp or Cpk; otherwise these use the first row's limits |
| Stats.ConstantHasZeroStd | App/mainV2.py:66 | equal values have a zero standard deviation |
| Stats.ConstantGroupHasNoCp | App/mainV2.py:70-71 | a group of equal values gets neither Cp nor Cpk |
| Stats.GroupOf | App/pages/AnalyseStatRapide.py:100 | a group holds exactly the observations filed under its key |
| Stats.GroupOfSelects | App/pages/AnalyseStatRapide.py:100 | a group holds the observation of every row filed under its key, each once and in row order, and nothing else |
| Stats.StatsBy | App/pages/AnalyseStatRapide.py:100 | `groupby` yields one statistics row per key present, summarising that key's group, never empty |
| Stats.WorkedExample | App/pages/AnalyseStatRapide.py:70-96 | readings 10.00, 10.02, 9.98, 10.01 against limits [9.9, 10.1] give n = 4, mean 10.0025, mean absolute gap 0.0125, a deviation between 0.017 and 0.0172, Cp between 1.93 and 1.97, Cpk between 1.88 and 1.92, and none out |
| StatPages.FirstBadColumn | App/pages/AnalyseStatRapide.py:32 | the first numeric column that fails to convert is reported, and all earlier ones convert |
| StatPages.ReadTable | App/pages/AnalyseStatRapide.py:27-37 | reading fails on a missing column (with expected and found labels) or on a column that does not convert, and otherwise reads every row |
| StatPages.ReadTableAppend | App/pages/AnalyseStatRapide.py:27-37 | a convertible pasted row adds exactly its reading at the end |
| StatPages.ObsOf | App/pages/AnalyseStatRapide.py:35-37 | the gap is `Mesure_Theorique - Cote` when both exist, and a row inside its limits is not flagged |
| StatPages.FlagIffOutside | App/pages/AnalyseStatRapide.py:37 | a row is not flagged exactly when its value lies within both limits; a missing value or limit flags it |
| StatPages.KeepKeyed | App/pages/AnalyseStatRapide.py:100 | grouping drops rows with a missing key and keeps every keyed row with its observation |
| StatPages.QuickStudy | App/pages/AnalyseStatRapide.py:22-100 | the quick study fails exactly when reading fails, with the same error; every statistics row counts at least one reading and summarises the group of its dimension name |
| StatPages.QuickStudyKeys | App/pages/AnalyseStatRapide.py:100 | the quick study has one row per non-missing dimension name of the table |
| StatPages.KeepKeyedSelects | App/pages/AnalyseStatRapide.py:100 | grouping the keyed rows under a key selects the observations of exactly the rows with that key, each once and in order |
| StatPages.NamedGroupSelects | App/pages/AnalyseStatRapide.py:100 | the group of a dimension name holds the observation of every row with that name, each once and in table order |
| StatPages.QuickStudyGroups | App/pages/AnalyseStatRapide.py:100 | each statistics row of the quick study summarises exactly the rows of its dimension name, in table order |
| StatPages.UnnamedRowIgnored | App/pages/AnalyseStatRapide.py:100 | a convertible row without a name changes no statistic |
| StatPages.OfChoices | App/mainV2.py:38 | the offered OFs are the distinct printed OFs of the table |
| StatPages.RowsOfOf | App/mainV2.py:39 | the OF filter keeps exactly the rows whose printed OF is the selected one |
| StatPages.ChoiceSelectsRows | App/mainV2.py:38-39 | selecting an offered OF keeps at least one row |
| StatPages.SeriesStudy | App/mainV2.py:22-84 | the series study fails exactly when reading fails, with the same error; every statistics row counts at least one reading and summarises the group of its dimension value among the selected OF's rows |
| StatPages.SeriesStudyKeys | App/mainV2.py:84 | the series study has one row per dimension value measured on the selected OF |
| StatPages.SeriesRowsKeep | App/mainV2.py:39-84 | filtering on the OF and then grouping the rows with a value is one pass over the table that keeps the selected OF's valued rows |
| StatPages.SeriesGroupSelects | App/mainV2.py:39-84 | the group of a dimension value holds the observation of every row of the selected OF with that value, each once and in table order |
| StatPages.SeriesStudyGroups | App/mainV2.py:39-84 | each statistics row of the series study summarises exactly the selected OF's rows with its dimension value, in table order |
| StatPages.OtherOfIgnored | App/mainV2.py:39 | a convertible row of another OF changes no statistic |
| Comparison.RowOf | App/pages/Comparaison.py:58-63 | the gap is `Mesure - Nominal` when both exist, and a row is not flagged exactly when its measure lies within both limits |
| Comparison.Process | App/pages/Comparaison.py:50-67 | processing succeeds exactly when every expected column is present and the four numeric columns convert, and then converts every row |
| Comparison.ConvertedCells | App/pages/Comparaison.py:58-59 | after processing, every numeric cell of every row converts, and the measure is missing exactly when its cell is empty and is otherwise the cell read with a decimal comma |
| Comparison.Prepare | App/pages/Comparaison.py:43-48 | the stacked table lists the metal rows then the wax rows, each tagged with its batch |
| Comparison.PrepareSplits | App/pages/Comparaison.py:43-48 | selecting one batch from the stacked table gives back exactly that batch's rows |
| Comparison.WaxKeyExamples | App/pages/Comparaison.py:45 | a wax name without "Cire_" keeps its name; a leading "Cire_" is removed |
| Comparison.WaxKeyInside | App/pages/Comparaison.py:45 | "Cire_" is removed wherever it occurs, not only at the front |
| Comparison.MeasuresSpec | App/pages/Comparaison.py:112-117 | the measures averaged for one batch are those of that batch's rows with the selected name, and no others |
| Comparison.MeasuresSelects | App/pages/Comparaison.py:112-117 | the measures of one batch are those of every row of that batch with the selected name, each once and in table order |
| Comparison.DriftSymmetricStrict | App/pages/Comparaison.py:118-120 | the drift test is symmetric in the two batches and strict: a difference of exactly 0.05 does not warn |
| Comparison.GapWarningSwap | App/pages/Comparaison.py:112-121 | exchanging the roles of metal and wax leaves the warning unchanged |
| Comparison.GapWarningExample | App/pages/Comparaison.py:115-121 | metal at 10.10 and wax at 10.02 trigger the warning |
| Comparison.CleanNameHasNoPoint | App/pages/Comparaison.py:212-213 | a cleaned dimension name never holds a decimal point |
| Comparison.CleanNameIdempotent | App/pages/Comparaison.py:212-213 | cleaning a cleaned name changes nothing when the result holds no "Cire_" |
| Comparison.CleanNameNotIdempotent | App/pages/Comparaison.py:212-213 | cleaning is not idempotent in general: "CiCire_re_" cleans to "Cire_", which cleans to "" |
| Comparison.RayonMembers | App/pages/Comparaison.py:198 | a registered member without a type stops the page; otherwise the kept members are exactly the group's registered radius dimensions |
| Comparison.Heights | App/pages/Comparaison.py:242 | the height map has exactly the members as keys |
| Comparison.HeightsOfDistinct | App/pages/Comparaison.py:242 | distinct members sit 50 apart in group order |
| Comparison.ProfileOf | App/pages/Comparaison.py:190-201 | no group gives no view; a laid-out view has at least two radius members of the first group, each with a height |
| Comparison.Chosen | App/pages/Comparaison.py:215-225 | a batch's chart rows are exactly its rows of the selected OF whose cleaned name is a radius member, keyed by that name |
| Comparison.ProfileTable | App/pages/Comparaison.py:215-247 | the chart table holds the wax rows above the metal rows, only radius members, each at its member's height, with a band of ±0.5 around the nominal and its gap; every selected member row appears |
| RawComparison.RawRowOf | App/pages/comparaison.py:28-31 | the gap is `Nominal - Mesure`, and a row is not flagged exactly when its nominal (not its measure) lies within both limits |
| RawComparison.Process | App/pages/comparaison.py:21-35 | processing succeeds exactly when every expected column is present and the numeric columns convert, the measure being the only comma-normalised one |
| RawComparison.CommaNominalRejected | App/pages/comparaison.py:28-31 | a nominal that does not read with a decimal point (a decimal comma, say) is not normalised and makes the import fail |
| RawComparison.FlagIgnoresMesure | App/pages/comparaison.py:31 | rows with the same nominal and limits get the same flag, whatever their measure |
| RawComparison.OppositeGap | App/pages/comparaison.py:29 | the older page's gap is the negation of the newer page's gap |
| Sorting.InsertBy | App/pages/Etude_dimensionnelle_dev.py:151 | insertion into a sorted list keeps it sorted and adds exactly the new element |
| Sorting.SortBy | App/pages/Etude_dimensionnelle_dev.py:151 | sorting yields a list sorted by the key that is a permutation of the input |
| Sorting.SortKeepsMembers | App/modules/analyse_rayons.py:322 | sorting neither loses nor invents members |
| Sorting.SortedUnchanged | App/pages/Etude_dimensionnelle_dev.py:151 | a list already strictly ascending is left as it is |
| Sorting.SortStable | App/modules/analyse_rayons.py:322 | `sorted` is stable: the elements sharing a key come out in the order they went in |
| Radar.OrdersOf | App/modules/analyse_rayons.py:196 | the OFs offered are the distinct non-missing OFs of the rows |
| Radar.Scope | App/modules/analyse_rayons.py:196-199 | with at most one OF every row is kept; otherwise exactly the rows of the selected OF |
| Radar.Axis | App/modules/analyse_rayons.py:201 | the angle axis is ascending and holds exactly the angles present |
| Radar.IndexIn | App/modules/analyse_rayons.py:240 | `angles.index` returns the first position of the angle |
| Radar.LastFeed | App/modules/analyse_rayons.py:212 | the row feeding a slot is the last usable row of that name at that angle |
| Radar.Values | App/modules/analyse_rayons.py:213 | each name gets one value per axis angle |
| Radar.SlotIsLastWrite | App/modules/analyse_rayons.py:212-213 | building the dict keeps the last measure written for an angle |
| Radar.DimOf | App/modules/analyse_rayons.py:208-232 | a kept dimension is named after its name and has one slot per axis angle |
| Radar.KeptIffSomeValue | App/modules/analyse_rayons.py:208-215 | a dimension is kept exactly when its name is present and some slot holds a value |
| Radar.DimsOf | App/modules/analyse_rayons.py:208-232 | the dimensions are exactly the kept names, each once |
| Radar.Analyse | App/modules/analyse_rayons.py:190-236 | no rows or no angle column gives no data; no kept dimension gives the "no usable dimension" outcome; otherwise every dimension spans the axis of the selected OF |
| Radar.NoDimensionIff | App/modules/analyse_rayons.py:234-236 | no dimension is kept exactly when no row has a name, an angle and a measure |
| Radar.BarOf | App/modules/analyse_rayons.py:278-281 | the bar's deviation is measure minus nominal, and with both limits present it is red exactly when the measure is outside them |
| Radar.Bars | App/modules/analyse_rayons.py:273-281 | one bar per dimension with a value at the selected angle, and no other |
| Radar.KeysOf | App/modules/analyse_rayons.py:217-219 | the group keys are the distinct keys of the kept dimensions |
| Radar.MembersOf | App/modules/analyse_rayons.py:217-219 | a group holds exactly the kept dimensions filed under its key |
| Radar.EligibleGroups | App/modules/analyse_rayons.py:305-308 | a group is eligible for a radar exactly when it has at least three members |
| Radar.UntaggedShareGroup | App/modules/analyse_rayons.py:218 | every dimension without a profile or group key falls in the one "Sans groupe" group |
| Radar.DimNamed | App/modules/analyse_rayons.py:330 | the lookup finds the dimension of that name exactly when there is one |
| Radar.PointOf | App/modules/analyse_rayons.py:327-333 | a point is taken at the member's registered angle, which must be on the axis |
| Radar.Points | App/modules/analyse_rayons.py:327-333 | every point comes from a member; every member contributes when all can |
| Radar.PointsAscend | App/modules/analyse_rayons.py:320-333 | members sorted by angle give points whose angles never decrease |
| Radar.OrderedMembers | App/modules/analyse_rayons.py:322 | the members are sorted by registered angle (0 when unset) and are a permutation of the group |
| Radar.RadarAsWritten | App/modules/analyse_rayons.py:320-349 | as written, the radar fails exactly when a member is unregistered or has a null angle, and otherwise shows the too-few-values notice exactly when fewer than three members give a vertex |
| Radar.AsWrittenMisaligned | App/modules/analyse_rayons.py:338-349 | as written, the radius list ends with its first value twice, and the tolerance lists have one entry per member plus one; when every member contributes they are one shorter than the radius list |
| Radar.RadarOf | App/modules/analyse_rayons.py:320-349 | the corrected radar fails, and shows the too-few-values notice, under exactly the same conditions as the code as written |
| Radar.RadarDrawnWhenValued | App/modules/analyse_rayons.py:320-349 | a group of at least three members that all give a vertex is drawn exactly when the angle lookup does not fail |
| Radar.RadarAligned | App/modules/analyse_rayons.py:320-349 | corrected, all four lists have one entry per contributing point plus one closing entry equal to the first, angles ascend, and entry i of every list belongs to point i |
| Thickness.SpreadRange | App/modules/analyse_epaisseurs.py:146 | `linspace(0, 100, m)` stays in [0, 100], starts at 0 and ends at 100 when m > 1 |
| Thickness.SpreadIncreasing | App/modules/analyse_epaisseurs.py:146 | linspace positions strictly increase |
| Thickness.RankBounds | App/modules/analyse_epaisseurs.py:149 | a later row of the same name pops a later position, within that name's count |
| Thickness.Positions | App/modules/analyse_epaisseurs.py:143-149 | each row gets one position |
| Thickness.PositionsRange | App/modules/analyse_epaisseurs.py:143-149 | positions lie in [0, 100]; a name's first row is at 0 and, when it repeats, its last row is at 100 |
| Thickness.PositionsAscend | App/modules/analyse_epaisseurs.py:146-149 | rows of one name get strictly increasing positions in table order |
| Thickness.CountAppend | App/modules/analyse_epaisseurs.py:146 | a name's count over two concatenated tables is the sum of its counts |
| Thickness.LinSpace | App/modules/analyse_epaisseurs.py:146 | `linspace(0, 100, m)` has m entries, entry k being k steps of 100 / (m − 1) from 0 |
| Thickness.StartLists | App/modules/analyse_epaisseurs.py:144-147 | before the first row every name holds its full linspace list |
| Thickness.PopStep | App/modules/analyse_epaisseurs.py:149 | a row finds its rank-th spread position at the front of its name's list, and popping it leaves the lists of the next row |
| Thickness.AssignPositions | App/modules/analyse_epaisseurs.py:143-149 | popping the front of per-name linspace lists row by row yields, for each row, the spread of its rank over its name's count |
| Thickness.LocatedOf | App/modules/analyse_epaisseurs.py:151-152 | the gap is `Mesure - Nominal`, and with all values present a row is out of tolerance exactly when outside its limits |
| Thickness.Analyse | App/modules/analyse_epaisseurs.py:135-152 | missing columns stop the analysis; an existing Position column is kept; without one, an empty table or an unnamed row stops it, and otherwise each row gets its synthetic position |
| AngularStudy.ExtractAngleOf | App/pages/Etude_dimensionnelle_dev.py:139-146 | any name ending in "ANG" and an integer n gets angle (n − 1) × 30, whatever precedes the marker |
| AngularStudy.AfterLastMarker | App/pages/Etude_dimensionnelle_dev.py:142 | `split("ANG")[-1]` of a name ending in "ANG" and text without "A" is that text, whatever precedes |
| AngularStudy.ThirdPosition | App/pages/Etude_dimensionnelle_dev.py:139-146 | "Rayon ANG3" sits at 60 degrees |
| AngularStudy.ExtractAngleDefaults | App/pages/Etude_dimensionnelle_dev.py:140-146 | without "ANG", or when the last piece is not an integer, the angle is 0 |
| AngularStudy.Targets | App/pages/Etude_dimensionnelle_dev.py:133 | the targets are exactly the rows of the chosen OF whose name holds "ANG" and "Rayon" |
| AngularStudy.Project | App/pages/Etude_dimensionnelle_dev.py:153-156 | the four plotted lists have one entry per row, each taken from that row |
| AngularStudy.StudyOf | App/pages/Etude_dimensionnelle_dev.py:131-151 | an empty table gives no study; a study's rows are a permutation of the first row's OF targets, sorted by angle |
| AngularStudy.ClosedProjection | App/pages/Etude_dimensionnelle_dev.py:153-156 | each closed list has one entry per row plus a copy of the first, entry i of all four coming from row i |
| AngularStudy.OrderedTargets | App/pages/Etude_dimensionnelle_dev.py:133-151 | the ordered targets are as many as the targets, each a radius row of the chosen OF |
| AngularStudy.StudyShape | App/pages/Etude_dimensionnelle_dev.py:131-156 | the four lists have one entry per target plus a closing copy of the first; entry i of the angle, measure, upper and lower lists all come from target row i; angles ascend |

## Left out

- Reading the pasted text (`pd.read_csv` tokenising, quoting, type inference) and JSON decoding. Tables arrive as rows of text cells and registries as maps.
- Floating point. Numbers are exact reals. `inf`, `nan` spellings, exponents and underscores in `float()` text are not parsed. The square root is a parameter.
- Date parsing in the Excel variant (`pd.to_datetime(..., dayfirst=True)`) is a parameter. Only the printing and re-reading of the parsed date is modelled.
- All drawing: Altair and Plotly charts, histograms, box plots, axis ranges, the radar's `base`/`marge` range and the vertical section chart of analyse_rayons.py:243-270. They present values the model already computes.
- Streamlit session and widget handling: session guards, buttons and download buttons. Selectbox choices are parameters (OF, angle index, groups to draw).
- `Écart (%)` columns. They divide by a value that may be zero and feed only the display.
- The order in which `groupby` lists its rows. Statistics tables are modelled as maps.
- Sort stability. pandas `sort_values` defaults to quicksort, which does not fix the order of equal keys. Python's `sorted` is stable. The model uses one stable insertion sort for both.
- The registry's GPS tolerances and angular position text. They are carried by no computation.
- The multi-OF selection of the development page (only displayed).
- `Stats.CountOut`: bounded by the group size only. The exact count is the definition itself.
- `Radar.DimOf`: its contract states shape and name only. `Radar.KeptIffSomeValue` and `Radar.SlotIsLastWrite` state when it exists and what each slot holds.
- `Thickness.Analyse`: the stop on an empty table without a Position column follows pandas' row-wise `apply` on an empty frame, which returns a frame rather than a column. The exception text is not modelled.
- `Registry.Reload`: a document that repeats a name rebuilds the groups from every entry, while `json.load` keeps one entry per name. Documents written by the application's own export never repeat a name.
- `Thickness.Positions`: its contract states the length only. Range and ordering are the lemmas `Thickness.PositionsRange` and `Thickness.PositionsAscend`.

Where the code and its documentation differ, the model follows the code:

- The type rules test "rayon" before "diam".
- The column checks accept extra columns.
- The group reset only empties the group list.
- The development page's import merges profiles key by key, while the comparison page's import replaces the whole registry.
- The series dashboard reads `Datetime`, `Tolérance_Min` and `Tolérance_Max`.
- The comparison page's name cleaning is not idempotent in general.

## Findings

| source | as written | input that shows it | evidently intended | confidence | as-written member | corrected member |
|---|---|---|---|---|---|---|
| App/modules/data_cleaning.py:151-153 | `.get("Type_Cote", detect_type(x))` evaluates `detect_type` before the lookup, so a missing name (NaN has no `.lower()`) raises after the registry was already extended | a raw grid whose name row leaves one data column empty (`Cleaning.UnnamedColumnExample`) | missing names, already dropped at line 136, get no type and cleaning succeeds | not executed | Cleaning.MissingNameFails | Cleaning.AgreeWithoutMissingNames |
| App/modules/analyse_rayons.py:338-349 | the radius and angle lists are closed twice, and the tolerance lists are built over every group member instead of the contributing ones | a group of three radius members, each registered at an angle of the axis: radii get 5 entries, tolerances 4 | each list closed once over the same contributing points, so that entry i of every list belongs to point i | not executed | Radar.AsWrittenMisaligned | Radar.RadarAligned |
