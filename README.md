# edb-client-nextjs data layer, modelled in Dafny

This project models the data logic underneath the edb-client-nextjs web
application, a TypeScript/React front end for genomics work. The model
covers the following parts:

- **Tables.** The in-memory table behind the spreadsheet views: cells,
  Excel-style column names, row and column indexes, the delimited-text
  reader, name look-up, slicing (`iloc`, `isin`), transpose, in-place
  column and row updates, NA filtering, id filters, row and column joins,
  and the GCT layout.
- **History.** The undo/redo history of the table editor: steps, sheets
  and a cursor, updated by a reducer.
- **Search.** The search-box query parser. It rewrites the query with an
  implicit AND, then converts it to postfix with the shunting-yard loop.
- **Genomic intervals.** `chr:start-end` parsing and printing,
  intersection and width, the bin index of locations, and the grouping of
  overlapping peaks with its overlap table.
- **Gene tracks.** The gene-track reader: a page index, little-endian
  binary transcript records, and the closest-genes table.
- **Oncoplot.** Per-cell event counts, margins, cell labels, the legend
  order, the gene and sample orders, and `memoSort`.
- **Clinical tracks.** Headers and per-sample category counts.
- **Lollipop plot.** Variant classes, protein-change parsing and
  per-residue sample sets.
- **Hierarchical clustering.** The linkage cache, the merge loop, leaf
  order, and reordering a table by its trees.
- **Small reducers.** Alerts, messages, plot lists, plot properties,
  motifs, the protein selection, and the plot contexts.
- **Helpers.** Tab selection, array `move` and `zip`, and URL slugs and
  tags.

How the source is rendered in Dafny:

- Code that builds values, such as reducers, parsers and map/filter
  pipelines, becomes datatypes and functions.
- Code that updates objects or loops over mutable state becomes classes
  and methods. Examples are `DataFrame`, `EventCountMap`, `LollipopStats`,
  `ClinicalDataTrack`, `LocationBinMap`, the linkage cache, the `run`
  loop, `toRPN`, the peak grouping and the record walks. Each such method
  is proved against a function, and the properties of that function are
  proved as lemmas.

Where the code does something its authors evidently did not intend, the
model keeps the behaviour as written on its main path. It also defines
the intended behaviour beside it and proves the difference. See
"## Findings".

## Model

| member | source | states |
|---|---|---|
| Alerts.MakeAlertDefaults | src/components/alerts/alerts-provider.tsx:165-175 | with no props an alert gets the fresh id, empty title and content, type default and size popup; with every field given, the given fields are the alert and the fresh id is unused |
| Alerts.MakeErrorAlert | src/components/alerts/alerts-provider.tsx:67-74 | the alert `makeAlert` builds from the same props, with the type forced to error |
| Alerts.TitledError | src/components/alerts/alerts-provider.tsx:106-163 | a fixed-title error alert: error type, popup size, the fresh id and the given title |
| Alerts.KnownMessage | src/components/alerts/alerts-provider.tsx:106-163 | a recognised server message gives an error alert with the fresh id and popup size |
| Alerts.MakeErrorAlertFromResp | src/components/alerts/alerts-provider.tsx:106-163 | every response message gives an error popup alert with the fresh id |
| Alerts.ErrorAlertFromRespParts | src/components/alerts/alerts-provider.tsx:107-120 | for an unrecognised message, the title is the capitalised text before the first ':' and the content the capitalised next piece plus '.'; with no ':' the whole message is the title and the content is empty |
| Alerts.AlertReducer | src/components/alerts/alerts-provider.tsx:194-224 | set replaces the list by the one alert; add puts the alert first and keeps at most 100 alerts, the older ones shifted by one; clear empties the list; remove adds the id to the dismissed set and leaves the list; an unknown action changes nothing |
| Alerts.RunInvariants | src/components/alerts/alerts-provider.tsx:194-224 | along any sequence of actions the list stays within 100, dismissed ids stay dismissed, and every newly dismissed id was named by some remove action |
| Cell.MakeCell | src/lib/dataframe/cell.ts:8-49 | non-strings pass through; with keepDefaultNA the empty string and NA spellings become NaN; without it the empty string stays; otherwise the result is a number exactly when the number parser accepts the text, and a string result is the input unchanged |
| Cell.CellNum | src/lib/dataframe/cell.ts:81-92 | a number is itself, true is 1 and false 0, every other cell is NaN |
| Cell.CellStr | src/lib/dataframe/cell.ts:60-73 | an integer below 10^21 in magnitude prints as its decimal digits (parsing back to the same integer), a larger one through the host's `toString` (exponent form), null as the default text, a string as itself, NaN as "NaN" |
| Cell.ToText | src/lib/dataframe/cell.ts:60-73 | a cell's own text: an integer below 10^21 in magnitude prints as decimal digits that parse back to it, a larger one through the host's `toString` (exponent form), and a string is itself |
| Cell.ExcelName | src/lib/dataframe/cell.ts:101-117 | the column name is never empty |
| Cell.ExcelNameUpper | src/lib/dataframe/cell.ts:101-117 | every column name is made of the letters A to Z |
| Cell.ExcelValue | src/lib/dataframe/cell.ts:101-117 | the bijective base-26 value of a non-empty name is at least 1 |
| Cell.ExcelNameValue | src/lib/dataframe/cell.ts:101-117 | reading the name of column c back gives c + 1: the name encodes the column exactly |
| Cell.ExcelValueName | src/lib/dataframe/cell.ts:101-117 | every non-empty A-Z name is the name of the column it denotes, so names and columns are in one-to-one correspondence |
| Cell.ExcelNameInjective | src/lib/dataframe/cell.ts:101-117 | two columns have the same name exactly when they are the same column |
| Cell.ExcelNameExamples | src/lib/dataframe/cell.ts:101-117 | columns 0, 25, 26, 701 and 702 are named A, Z, AA, ZZ and AAA |
| Cell.GetExcelColName | src/lib/dataframe/cell.ts:101-117 | the loop that peels off letters and reverses them returns exactly the bijective base-26 name |
| Cell.NameStep | src/lib/dataframe/cell.ts:109-114 | one loop turn moves the last letter from the unprocessed prefix to the collected letters without changing the name they make together |
| BaseFrames.Shape | src/lib/dataframe/base-dataframe.ts:133-135 | rows are the number of data rows, columns the length of the first row, 0 when there are no rows |
| BaseFrames.Size | src/lib/dataframe/base-dataframe.ts:137-140 | the size is rows times columns |
| BaseFrames.SizeIsCellCount | src/lib/dataframe/base-dataframe.ts:137-140 | for a rectangular table the size equals the number of stored cells |
| BaseFrames.CellCountRect | src/lib/dataframe/base-dataframe.ts:137-140 | the first k rows of a rectangular table hold k times the row length cells |
| BaseFrames.GetRowName | src/lib/dataframe/base-dataframe.ts:102-104 | under the default numeric index, row i is named by the digits of i + 1 (while i + 1 is below 10^21, where JavaScript switches to exponent form) |
| BaseFrames.RowNames | src/lib/dataframe/base-dataframe.ts:106-108 | one name per row, each the row's own name |
| BaseFrames.GetColName | src/lib/dataframe/base-dataframe.ts:118-120 | under the default Excel column index, column i has the Excel name of i |
| BaseFrames.ColNames | src/lib/dataframe/base-dataframe.ts:125-127 | one name per column, each the column's own name |
| BaseFrames.FindRowMeaning | src/lib/dataframe/base-dataframe.ts:208-238 | a position is returned as given; a case-insensitive name search returns, ascending, exactly the rows whose lower-cased name starts with the lower-cased text |
| BaseFrames.FindColMeaning | src/lib/dataframe/base-dataframe.ts:240-270 | a position is returned as given; a name search returns, ascending, exactly the columns whose name matches, case-insensitively or not as asked |
| BaseFrames.FindRow | src/lib/dataframe/base-dataframe.ts:208-238 | the scanning loop returns exactly the row search's result |
| BaseFrames.FindCol | src/lib/dataframe/base-dataframe.ts:240-270 | the scanning loop returns exactly the column search's result |
| BaseFrames.CellTexts | src/lib/dataframe/base-dataframe.ts:291-306 | one text per cell, each the cell printed by `cellStr` with the default precision |
| BaseFrames.Lines | src/lib/dataframe/base-dataframe.ts:284-315 | one line per row, plus the joined column names first when header is on; line ri is row ri's rendering |
| BaseFrames.RowLineStartsWithName | src/lib/dataframe/base-dataframe.ts:293-299 | with index on, a row line begins with the row name, then the separator and the first cell's text |
| BaseFrames.RenderLines | src/lib/dataframe/base-dataframe.ts:284-315 | when no line holds a newline, splitting the rendering at newlines gives back exactly its lines, one per row plus the header |
| Indexes.Values | src/lib/dataframe/index.ts:6-8 | only a value-holding index returns values; the others return none |
| Indexes.Size | src/lib/dataframe/index.ts:73-75 | a length-only index has its length; any other index has as many entries as it stores values |
| Indexes.Get | src/lib/dataframe/index.ts:18-20 | the base and length-only indexes give NaN, the numeric index i + 1, the Excel index the name denoting column i + 1, a value index its stored value |
| Indexes.GetName | src/lib/dataframe/index.ts:22-24 | the numeric index names i as the digits of i + 1 (while i + 1 is below 10^21, where JavaScript switches to exponent form), the Excel index as the Excel name of i, the valueless indexes as "NaN" |
| Indexes.NumNamesDistinct | src/lib/dataframe/index.ts:88-96 | distinct rows of the numeric index get distinct names, for row numbers below 10^21 (a JavaScript array stays far below that) |
| Indexes.Texts | src/lib/dataframe/index.ts:13-15 | one text per stored value, each printed by `cellStr` |
| Indexes.Filter | src/lib/dataframe/index.ts:41-43 | indexes without values are returned as they are; a value index keeps, in list order, the values at the listed positions |
| Indexes.Find | src/lib/dataframe/index.ts:50-52 | no positions for an index without values; otherwise ascending positions of stored values |
| ChrNames.FormatChr | src/modules/genomic/dna.ts:47-55 | the result always starts with "chr": a name that already does is kept, any other gets "chr" in front |
| ChrNames.FormatChrIdempotent | src/modules/genomic/dna.ts:47-55 | formatting an already formatted name changes nothing |
| ChrNames.FormatChrNumber | src/modules/genomic/dna.ts:47-55 | a number n becomes "chr" followed by the decimal digits of n |
| ChrNames.HumanChrToNum | src/modules/genomic/dna.ts:57-63 | a known human chromosome gets a number from 1 to 25; 1000 is returned exactly for names not in the table |
| ChrNames.HumanChrNumbers | src/modules/genomic/dna.ts:12-40 | chr1..chr22 are numbered 1..22, chrX 23, chrY 24, and chrM and chrMT both 25 |
| ChrNames.ChrNumbers1 | src/modules/genomic/dna.ts:12-40 | chr1..chr4 are numbered 1..4 |
| ChrNames.ChrNumbers2 | src/modules/genomic/dna.ts:12-40 | chr5..chr8 are numbered 5..8 |
| ChrNames.ChrNumbers3 | src/modules/genomic/dna.ts:12-40 | chr9..chr12 are numbered 9..12 |
| ChrNames.ChrNumbers4 | src/modules/genomic/dna.ts:12-40 | chr13..chr16 are numbered 13..16 |
| ChrNames.ChrNumbers5 | src/modules/genomic/dna.ts:12-40 | chr17..chr19 are numbered 17..19 |
| ChrNames.ChrNumbers6 | src/modules/genomic/dna.ts:12-40 | chr20..chr22 are numbered 20..22 |
| ChrNames.ChrLetters | src/modules/genomic/dna.ts:12-40 | chrX is 23, chrY 24, chrM and chrMT 25 |
| ChrNames.HumanChrToNumInjective | src/modules/genomic/dna.ts:12-40 | two different known chromosomes get different numbers, except chrM and chrMT |
| DnaRecords.DnaToJson | src/modules/genomic/dna.ts:225-236 | one record per sequence |
| DnaRecords.DnaToJsonRoundTrip | src/modules/genomic/dna.ts:225-236 | reading the records back gives the input sequences, in order: no field is lost |
| DnaRecords.DnaToJsonAppend | src/modules/genomic/dna.ts:225-236 | the records of a concatenation are the concatenation of the records |
| ClinicalHeaders.NameEnd | src/components/pages/modules/oncoplot/clinical-utils.ts:119 | the length of the longest prefix without parentheses: none of its characters is a parenthesis and the next one is |
| ClinicalHeaders.LineEnd | src/components/pages/modules/oncoplot/clinical-utils.ts:119 | the length of the first line: no line end inside it and a line end right after it |
| ClinicalHeaders.LastIndex | src/components/pages/modules/oncoplot/clinical-utils.ts:119 | the last position holding c, or -1; no later position holds c |
| ClinicalHeaders.MatchHeaderSpec | src/components/pages/modules/oncoplot/clinical-utils.ts:119-133 | a header matches exactly when it is non-empty and does not start with a parenthesis; the name is then the longest prefix without parentheses and the parameters are read from the rest |
| ClinicalHeaders.ParamsSpec | src/components/pages/modules/oncoplot/clinical-utils.ts:119 | parameters are the non-empty text between the opening '(' and the last ')' of the first line, with no ')' after it on that line; they exist whenever that line has a ')' after at least one character |
| ClinicalHeaders.SplitBars | src/components/pages/modules/oncoplot/clinical-utils.ts:174 | splitting on '/' or '|' gives at least one piece |
| ClinicalHeaders.SplitBarsPieces | src/components/pages/modules/oncoplot/clinical-utils.ts:174 | no piece contains '/' or '|' |
| ClinicalHeaders.PieceWithout | src/components/pages/modules/oncoplot/clinical-utils.ts:174 | a character absent from the text is absent from every piece of it |
| ClinicalHeaders.TypeOf | src/components/pages/modules/oncoplot/clinical-utils.ts:152-162 | `lognumber` and `log2number` both give the log2 type, so the plain `lognumber` type is never produced |
| ClinicalHeaders.DeclaredEvents | src/components/pages/modules/oncoplot/clinical-utils.ts:174-183 | one event per declared item |
| ClinicalHeaders.LastColored | src/components/pages/modules/oncoplot/clinical-utils.ts:174-183 | the last item that names e with a colour, or -1; no later item does |
| ClinicalHeaders.DeclaredNames | src/components/pages/modules/oncoplot/clinical-utils.ts:174-183 | event i is the name of item i |
| ClinicalHeaders.DeclaredColors | src/components/pages/modules/oncoplot/clinical-utils.ts:174-183 | an event has a colour exactly when it had one before or some item gives it one; the last such item decides the colour, otherwise the earlier colour stays |
| ClinicalHeaders.DeclaredKeeps | src/components/pages/modules/oncoplot/clinical-utils.ts:174-183 | an event that had a colour still has one |
| ClinicalHeaders.FromMatchName | src/components/pages/modules/oncoplot/clinical-utils.ts:131-170 | a matched header names the track by the trimmed name, which gets a colour, and keeps the multi flag |
| ClinicalHeaders.FromMatchKind | src/components/pages/modules/oncoplot/clinical-utils.ts:140-162 | the track type is the one the first parameter's first token names; without parameters it is a distribution |
| ClinicalHeaders.FromMatchEvents | src/components/pages/modules/oncoplot/clinical-utils.ts:172-185 | only a distribution track without `multi=t` and with parameters declares categories, one per '/'- or '|'-separated item, named by the item |
| ClinicalHeaders.ParseHeaderUnmatched | src/components/pages/modules/oncoplot/clinical-utils.ts:118-131 | a header that does not match gives an unnamed distribution track with no events and no colours |
| ClinicalSamples.WithSampleSpec | src/components/pages/modules/oncoplot/clinical-utils.ts:73-79 | `getEvents` stores the sample with its counts (an empty map when new); a second call finds the same counts and changes nothing; other samples are untouched; a new sample is appended to the key order |
| ClinicalSamples.SetCountSpec | src/components/pages/modules/oncoplot/clinical-utils.ts:81-83 | `set` adds the count to the sample's event, keeps the state well formed and leaves every other sample as it was |
| ClinicalSamples.EventNamesSpec | src/components/pages/modules/oncoplot/clinical-utils.ts:38-44 | an event is listed exactly when one of the samples has a count for it |
| ClinicalSamples.CategoriesSpec | src/components/pages/modules/oncoplot/clinical-utils.ts:53-58 | declared categories are returned as they are; otherwise the categories are sorted, distinct, and exactly the events some sample counts |
| ClinicalSamples.CategoriesOfNone | src/components/pages/modules/oncoplot/clinical-utils.ts:53-58 | a track with no samples has its declared categories |
| ClinicalSamples.KeepInUseSpec | src/components/pages/modules/oncoplot/clinical-utils.ts:63-67 | a category is in use exactly when it is a category some sample counts positively; distinct categories stay distinct and none is added |
| ClinicalSamples.KeepInUseAppend | src/components/pages/modules/oncoplot/clinical-utils.ts:63-67 | filtering distributes over concatenation, so the kept categories keep their order |
| ClinicalSamples.MaxCounts | src/components/pages/modules/oncoplot/clinical-utils.ts:85-90 | one count per sample |
| ClinicalSamples.TrackMaxEventSpec | src/components/pages/modules/oncoplot/clinical-utils.ts:85-90 | no maximum without samples; otherwise it is some sample's maximum event, none is larger, and every earlier sample's is smaller: the stable descending sort's head |
| ClinicalSamples.NormCountDistSpec | src/components/pages/modules/oncoplot/oncoplot-utils.ts:337-344 | one pair per id, in order, holding the id's share of the total count |
| ClinicalTracks.ClinicalDataTrack.constructor | src/components/pages/modules/oncoplot/clinical-utils.ts:25-29 | the track has the given name, categories and type and no samples |
| ClinicalTracks.ClinicalDataTrack.GetEvents | src/components/pages/modules/oncoplot/clinical-utils.ts:73-79 | returns the sample's counts from before the call and stores them, empty when new |
| ClinicalTracks.ClinicalDataTrack.Set | src/components/pages/modules/oncoplot/clinical-utils.ts:81-83 | the samples become those with the count added to the sample's event |
| ClinicalTracks.ClinicalDataTrack.GetClinicalData | src/components/pages/modules/oncoplot/clinical-utils.ts:92-104 | a number track gives its sum, a distribution the normalised counts of its declared categories, any other its maximum event; the sample is stored when new |
| ClinicalTracks.Padded | src/components/pages/modules/oncoplot/clinical-utils.ts:229-231 | the pieces followed by "0"s until there are at least n |
| ClinicalTracks.DistValues | src/components/pages/modules/oncoplot/clinical-utils.ts:233 | one number per piece |
| ClinicalTracks.SetCategoryValues | src/components/pages/modules/oncoplot/clinical-utils.ts:239-241 | the loop adds value k to category k's count, for every category |
| ClinicalTracks.SetTokenEvents | src/components/pages/modules/oncoplot/clinical-utils.ts:246-254 | the loop counts each piece once when no categories are declared or the piece is one of them |
| ClinicalTracks.LoadCellInto | src/components/pages/modules/oncoplot/clinical-utils.ts:207-258 | one row's cell changes the track exactly as the per-type reading of that cell prescribes |
| ClinicalTracks.LoadTrack | src/components/pages/modules/oncoplot/clinical-utils.ts:202-259 | loading every row one after another gives the samples of all rows' readings in row order |
| ClinicalTracks.AssignColorsKeys | src/components/pages/modules/oncoplot/clinical-utils.ts:284-292 | afterwards every category has a colour, earlier colours are kept, and nothing else gains one |
| ClinicalTracks.AssignColorsPalette | src/components/pages/modules/oncoplot/clinical-utils.ts:284-292 | the first occurrence of an uncoloured category gets the palette colour of its position, cycling through six |
| ClinicalTracks.ColorCategories | src/components/pages/modules/oncoplot/clinical-utils.ts:284-292 | the colour loop gives exactly the specified colour assignment |
| ClinicalTracks.Headers | src/components/pages/modules/oncoplot/clinical-utils.ts:118 | one header per column after the first |
| ClinicalTracks.HeadersSpec | src/components/pages/modules/oncoplot/clinical-utils.ts:118 | track k is set up from column k + 1 |
| ClinicalTracks.CreateTracks | src/components/pages/modules/oncoplot/clinical-utils.ts:118-193 | one new, distinct, empty track per header, set up from it, with the header's colour map |
| ClinicalTracks.LoadTracks | src/components/pages/modules/oncoplot/clinical-utils.ts:197-260 | every track ends up holding what its column's rows load into it |
| ClinicalTracks.LoadColumn | src/components/pages/modules/oncoplot/clinical-utils.ts:197-260 | a new track ends up holding what column ti + 1 loads into it |
| ClinicalTracks.MakeClinicalTracks | src/components/pages/modules/oncoplot/clinical-utils.ts:107-296 | no table gives no tracks; otherwise one distinct new track and one shown props entry per column after the first, set up from the column's header, filled from its cells, with the header's colours plus palette colours for a distribution's categories |
| ClinicalTracks.ColorTracks | src/components/pages/modules/oncoplot/clinical-utils.ts:263-293 | one shown props entry per track, holding its colour map with the categories coloured for a distribution |
| ClusterTrees.Reversed | src/lib/math/hcluster.ts:288 | the reversed list has the same length |
| ClusterTrees.SizeOfAppend | src/lib/math/hcluster.ts:278-296 | the size of a joined list of clusters is the sum of the sizes, the measure that makes the leaf walk terminate |
| ClusterTrees.SizeOfReversed | src/lib/math/hcluster.ts:288 | reversing the children keeps their size |
| ClusterTrees.PushReversed | src/lib/math/hcluster.ts:287-288 | pushing the children reversed puts the first child on top, so their leaves come next, left to right, before the rest of the stack's |
| ClusterTrees.GetLeaves | src/lib/math/hcluster.ts:278-296 | the stack loop returns exactly the left-to-right leaves of the tree |
| ClusterTrees.TreeLeaves | src/lib/math/hcluster.ts:278-296 | the leaves of a well-formed tree are its indices, each once, all below the row count |
| ClusterTrees.JsSort | src/lib/math/hcluster.ts:244-246 | the sorted array has as many indices |
| ClusterTrees.JsSortBag | src/lib/math/hcluster.ts:244-246 | the sorted array holds the same indices |
| ClusterTrees.JsSortSorted | src/lib/math/hcluster.ts:244-246 | the sorted array is in the order of the numbers' decimal text |
| ClusterTrees.JsSortTenBeforeTwo | src/lib/math/hcluster.ts:244-246 | the text order is not numeric: [2, 10] sorts to [10, 2] |
| ClusterTrees.Row | src/lib/math/hcluster.ts:57-58 | row a holds the pairs (a, b) for b from a + 1 to n - 1, each at distance Infinity |
| ClusterTrees.PairsFrom | src/lib/math/hcluster.ts:56-60 | every pair from row a on lies above the diagonal and has distance Infinity |
| ClusterTrees.Pairs | src/lib/math/hcluster.ts:56-60 | every pair has a < b < n and distance Infinity, and there is one when n >= 2 |
| ClusterTrees.PairsFromCount | src/lib/math/hcluster.ts:56-60 | the rows from a on hold (n - a)(n - a - 1)/2 pairs |
| ClusterTrees.PairsCount | src/lib/math/hcluster.ts:56-60 | there are n(n - 1)/2 pairs |
| ClusterTrees.PairsFromOrdered | src/lib/math/hcluster.ts:56-60 | the rows from a on list their pairs in strictly increasing row-major order |
| ClusterTrees.PairsOrdered | src/lib/math/hcluster.ts:56-60 | the pairs are in strictly increasing row-major order, so none is listed twice |
| ClusterTrees.PairFromAt | src/lib/math/hcluster.ts:56-60 | every (x, y) with a <= x < y < n is listed in the rows from a on |
| ClusterTrees.PairAt | src/lib/math/hcluster.ts:56-60 | every (x, y) with x < y < n is listed |
| ClusterTrees.Nearest | src/lib/math/hcluster.ts:222-225 | the reduce returns its start value or one of the pairs, and one of the pairs when all distances are known |
| ClusterTrees.NearestSpec | src/lib/math/hcluster.ts:222-225 | among pairs with known distances the reduce picks the first pair at the smallest distance: none is nearer and every earlier one is farther |
| ClusterMerge.Singletons | src/lib/math/hcluster.ts:177-183 | one leaf cluster per row, with the row as id and only index |
| ClusterMerge.Iota | src/lib/math/hcluster.ts:177 | the positions 0 to n - 1 in order |
| ClusterMerge.Scored | src/lib/math/hcluster.ts:193-216 | one pair per matrix pair, in the same order, with its distance set to the two clusters' linkage |
| ClusterMerge.NearestPair | src/lib/math/hcluster.ts:222-225 | the chosen pair lies above the diagonal, with the linkage of its two clusters as distance |
| ClusterMerge.Splice | src/lib/math/hcluster.ts:251-252 | removing one cluster shortens the list by one |
| ClusterMerge.StepWith | src/lib/math/hcluster.ts:240-253 | merging a pair leaves one cluster fewer |
| ClusterMerge.Step | src/lib/math/hcluster.ts:190-254 | a round leaves one cluster fewer |
| ClusterMerge.Merge | src/lib/math/hcluster.ts:190-254 | the round function merges the nearest pair on every list of two clusters or more |
| ClusterMerge.NearestPairSpec | src/lib/math/hcluster.ts:222-225 | the merged pair has the smallest linkage of all pairs, and every pair before it in row-major order has a larger one: ties keep the earlier pair |
| ClusterMerge.MergeRest | src/lib/math/hcluster.ts:251-253 | merging keeps the other clusters in their order, without the two merged ones |
| ClusterMerge.MergeLast | src/lib/math/hcluster.ts:240-248 | the new cluster comes last: the round's id, the distance as height, both clusters' indices sorted together, and the two clusters as children |
| ClusterMerge.MergeKeeps | src/lib/math/hcluster.ts:251-252 | every kept cluster sits at its old position, shifted past the removed ones |
| ClusterMerge.StepSpec | src/lib/math/hcluster.ts:190-254 | a round removes the two nearest clusters, keeps the others in order and appends their merge, with the linkage as height |
| ClusterMerge.SingletonsBag | src/lib/math/hcluster.ts:177-183 | the starting clusters hold the rows 0 to n - 1 once each |
| ClusterMerge.MergeBag | src/lib/math/hcluster.ts:240-253 | a round keeps the indices of all clusters together |
| ClusterMerge.MergeForest | src/lib/math/hcluster.ts:240-253 | a round whose new id is the next one keeps the clusters a forest over the rows |
| ClusterMerge.SingletonsForest | src/lib/math/hcluster.ts:177-183 | the starting clusters are a forest over the n rows with next id n |
| ClusterMerge.RoundsKeep | src/lib/math/hcluster.ts:190-254 | any property the starting clusters have and every round keeps holds after any number of rounds |
| ClusterMerge.RoundsLength | src/lib/math/hcluster.ts:190-254 | after i rounds there are n - i clusters |
| ClusterMerge.RoundsSpec | src/lib/math/hcluster.ts:190-254 | after i rounds there are n - i clusters, forming a forest over the n rows with ids below n + i |
| ClusterMerge.OneTree | src/lib/math/hcluster.ts:256 | the single cluster left is a tree whose indices and leaves are the n rows, each once |
| ClusterMerge.RootSpec | src/lib/math/hcluster.ts:256-258 | after n - 1 rounds one cluster is left: a tree whose indices and leaves are the rows 0 to n - 1, each once |
| ClusterMerge.RoundsUnfold | src/lib/math/hcluster.ts:190-254 | round i works on the clusters the earlier rounds left |
| ClusterMerge.RootOrder | src/lib/math/hcluster.ts:240-256 | the root's indices are in text order; a single row is its own leaf root; otherwise the root is the last merge, with id 2n - 2 and two children |
| HCluster.DistancesLength | src/lib/math/hcluster.ts:84-94 | there is one distance per pair of a row of the first cluster and a row of the second |
| HCluster.DistanceAt | src/lib/math/hcluster.ts:84-94 | the flattened distance at i * (second size) + j is the distance between row i of the first cluster and row j of the second |
| HCluster.LinkOf | src/lib/math/hcluster.ts:72-103 | the linkage `run` merges by is, for every two clusters, the linkage function applied to all their row distances |
| HCluster.Stored | src/lib/math/hcluster.ts:80-99 | after storing, (a, b) is cached with the new value, every other pair is cached exactly as before, with its old value |
| HCluster.StoredConsistent | src/lib/math/hcluster.ts:84-99 | storing the linkage of two clusters made in this run keeps every cached value equal to the linkage of its clusters |
| HCluster.CachedLinkage | src/lib/math/hcluster.ts:102 | a value found in a consistent cache is the linkage of the two clusters, so reusing it is sound |
| HCluster.MadeConsistent | src/lib/math/hcluster.ts:240-248 | making a cluster with a new id keeps the cache consistent: cluster ids are never reused |
| HCluster.StoredUnique | src/lib/math/hcluster.ts:84-99 | computing a pair that was not cached extends the record of computed pairs without repeating one |
| HCluster.DistCache.constructor | src/lib/math/hcluster.ts:186 | the cache starts empty, with nothing computed |
| HCluster.DistCache.Linkage | src/lib/math/hcluster.ts:72-103 | a cached pair returns the cached value and changes nothing; an uncached pair is computed once, stored, recorded and returned; for clusters of this run the value is their linkage either way |
| HCluster.ScorePairs | src/lib/math/hcluster.ts:193-216 | the pairs loop, with every linkage looked up through the cache, gives exactly the scored pairs and keeps the cache consistent |
| HCluster.RoundAt | src/lib/math/hcluster.ts:190-254 | after round i there are n - i clusters |
| HCluster.RunRound | src/lib/math/hcluster.ts:190-254 | merging the nearest pair of round i into the cluster with id n + i gives round i + 1 |
| HCluster.RunMembers | src/lib/math/hcluster.ts:240-253 | the clusters left after a merge are clusters made so far, plus the new one |
| HCluster.PickNearest | src/lib/math/hcluster.ts:193-225 | scoring through the cache and reducing gives exactly the nearest pair of the clusters' linkages |
| HCluster.MergePair | src/lib/math/hcluster.ts:240-253 | splicing out the later then the earlier position and pushing the merge gives exactly the specified round, with the new cluster last, carrying the given id |
| HCluster.MergeNearest | src/lib/math/hcluster.ts:193-253 | one pass of the loop gives exactly one round with id n + i, the new cluster last, and keeps the cache consistent |
| HCluster.MergeAll | src/lib/math/hcluster.ts:175-254 | the loop with its one cache ends with exactly the clusters of n - 1 rounds; no rows give no clusters |
| HCluster.HCluster.constructor | src/lib/math/hcluster.ts:161-169 | the object keeps the given linkage and distance functions |
| HCluster.HCluster.Run | src/lib/math/hcluster.ts:171-267 | no rows fail as the source does reading the first cluster; otherwise the cluster is the root of the n - 1 merges, a tree over the rows, and the leaves are its leaves, each row once |
| HCluster.LeavesOr | src/lib/math/hcluster.ts:371-372 | a tree gives its leaves, no tree the positions in order |
| HCluster.OrderedFrame | src/lib/math/hcluster.ts:369-384 | fails exactly when there is no main table or a leaf names a missing row; otherwise the name is kept, cell (i, j) is the main table's cell at row leaf i and column leaf j, and the row and column names follow their leaves |
| HCluster.Gather | src/lib/math/hcluster.ts:377 | the elements at the listed positions, in list order |
| HCluster.GatherRemove | src/lib/math/hcluster.ts:377 | taking a position out of the list takes its element out of the gathered multiset |
| HCluster.GatherPermuted | src/lib/math/hcluster.ts:377 | two position lists with the same positions gather the same multiset |
| HCluster.GatherAll | src/lib/math/hcluster.ts:377 | positions that permute 0 to n - 1 gather a permutation of the list |
| HCluster.CellsRows | src/lib/math/hcluster.ts:377 | reading a rectangular table at all its columns in order gives its rows back |
| HCluster.OrderedData | src/lib/math/hcluster.ts:377 | whenever the table is readable the result holds the cells at the row and column orders |
| HCluster.OrderedIdentity | src/lib/math/hcluster.ts:369-384 | without trees the main table comes back with its cells, name and row names unchanged |
| HCluster.OrderedRowsPermuted | src/lib/math/hcluster.ts:369-384 | clustering the rows only, when the leaves permute the rows, gives the main table's rows each once |
| HCluster.OrderedColumnsPermuted | src/lib/math/hcluster.ts:369-384 | clustering the columns, when the leaves permute the columns, each result row holds its main-table row's cells each once |
| DataFrameReaders.IgnoredRows | src/lib/dataframe/dataframe-reader.ts:27-49 | a count n ignores exactly the rows 0 to n - 1; a set ignores its rows |
| DataFrameReaders.SettingsFrom | src/lib/dataframe/dataframe-reader.ts:27-49 | one header line, no skipped rows, no index column, nothing ignored, tab separator and NA kept as missing, each replaced by the option given |
| DataFrameReaders.KeptLines | src/lib/dataframe/dataframe-reader.ts:126-162 | every kept line is a body line |
| DataFrameReaders.RowCells | src/lib/dataframe/dataframe-reader.ts:149-157 | a row is as wide as the header or the tokens, whichever is wider; token k is converted into cell k and the remaining cells hold the default cell |
| DataFrameReaders.RowsOf | src/lib/dataframe/dataframe-reader.ts:126-162 | one row per kept line, built from that line |
| DataFrameReaders.NamesOf | src/lib/dataframe/dataframe-reader.ts:134-136 | one row name per kept line, its first token |
| DataFrameReaders.AsCells | src/lib/dataframe/dataframe-reader.ts:171-172 | one text cell per column name |
| DataFrameReaders.ReadLines | src/lib/dataframe/dataframe-reader.ts:99-181 | reading succeeds exactly when there is a header line at the skip position and the column count is not negative, or no row has to be built |
| DataFrameReaders.ReadPadsRows | src/lib/dataframe/dataframe-reader.ts:149-159 | one row per kept line, each at least as wide as the header less its index column |
| DataFrameReaders.ReadIndexPerRow | src/lib/dataframe/dataframe-reader.ts:134-136 | with an index column the row index holds each row's first token, one per row; with no rows the default numeric index stays |
| DataFrameReaders.ReadColumnNames | src/lib/dataframe/dataframe-reader.ts:114-120 | the column names are the header tokens after the index column when they match the row width; without header names the default Excel index stays |
| DataFrameReaders.ReadKeepsUnignored | src/lib/dataframe/dataframe-reader.ts:126-133 | with a non-empty separator, a body line becomes a row exactly when it is not ignored |
| DataFrameReaders.DataFrameReader.constructor | src/lib/dataframe/dataframe-reader.ts:27-49 | the reader holds the settings the options give |
| DataFrameReaders.DataFrameReader.Copy | src/lib/dataframe/dataframe-reader.ts:51-61 | a fresh reader with the same settings |
| DataFrameReaders.DataFrameReader.ColNames | src/lib/dataframe/dataframe-reader.ts:63-67 | a fresh reader whose header line count is n, the rest as before |
| DataFrameReaders.DataFrameReader.SkipRows | src/lib/dataframe/dataframe-reader.ts:69-73 | a fresh reader that skips n lines, the rest as before |
| DataFrameReaders.DataFrameReader.IndexCols | src/lib/dataframe/dataframe-reader.ts:75-79 | a fresh reader with n index columns, the rest as before |
| DataFrameReaders.DataFrameReader.IgnoreRows | src/lib/dataframe/dataframe-reader.ts:81-85 | a fresh reader ignoring exactly the listed rows, the rest as before |
| DataFrameReaders.DataFrameReader.Sep | src/lib/dataframe/dataframe-reader.ts:87-91 | a fresh reader with the new separator, the rest as before |
| DataFrameReaders.DataFrameReader.KeepDefaultNA | src/lib/dataframe/dataframe-reader.ts:93-97 | a fresh reader with the NA flag given, the rest as before |
| DataFrameReaders.DataFrameReader.Read | src/lib/dataframe/dataframe-reader.ts:99-181 | the loop over the lines returns exactly the specified reading of the current settings |
| DataFrameReaders.ReadBody | src/lib/dataframe/dataframe-reader.ts:126-162 | the loop succeeds exactly when the column count is not negative or no line is kept; then the rows are those of the kept lines and the index their first tokens when there is an index column |
| DataFrameReaders.KeptSkip | src/lib/dataframe/dataframe-reader.ts:130 | an ignored or empty line leaves the kept lines as they were |
| DataFrameReaders.KeptAppend | src/lib/dataframe/dataframe-reader.ts:130-159 | a kept line extends the kept lines, the rows and the index by its own |
| DataFrameReaders.KeptNonEmpty | src/lib/dataframe/dataframe-reader.ts:130 | a kept line makes the kept lines non-empty |
| DataFrameReaders.FillRow | src/lib/dataframe/dataframe-reader.ts:149-157 | the default cells overwritten token by token give exactly the specified row |
| DataFrameUtils.FilterNA | src/lib/dataframe/dataframe-utils.ts:274-279 | the positions, in increasing order, are exactly those whose value is not a NaN number |
| DataFrameUtils.Subset | src/lib/dataframe/dataframe-utils.ts:281-283 | one value per requested position, the value held there |
| DataFrameUtils.SubsetFilterNA | src/lib/dataframe/dataframe-utils.ts:274-283 | the subset at the filterNA positions holds no NaN |
| DataFrameUtils.FindCols | src/lib/dataframe/dataframe-utils.ts:534-539 | the columns, in increasing order, are exactly those whose non-empty name contains the id, both lower cased |
| DataFrameUtils.Candidates | src/lib/dataframe/dataframe-utils.ts:548-558 | the matches of each id, in id order |
| DataFrameUtils.FirstHit | src/lib/dataframe/dataframe-utils.ts:553-565 | -1 or the head of one of the lists |
| DataFrameUtils.FirstHitMeaning | src/lib/dataframe/dataframe-utils.ts:553-565 | -1 exactly when every list is empty; otherwise the head of the first non-empty list |
| DataFrameUtils.FirstMatch | src/lib/dataframe/dataframe-utils.ts:541-566 | -1 or a column of the table |
| DataFrameUtils.FirstMatchMeaning | src/lib/dataframe/dataframe-utils.ts:541-566 | -1 exactly when no id matches a column; otherwise the first column matched by the earliest id that matches any |
| DataFrameUtils.FindCol | src/lib/dataframe/dataframe-utils.ts:541-566 | a number is returned as given; for names the loop returns exactly the first match of the earliest matching id |
| DataFrameUtils.KeyMap | src/lib/dataframe/dataframe-utils.ts:395-409 | no more keys than positions |
| DataFrameUtils.KeyMapLast | src/lib/dataframe/dataframe-utils.ts:395-409 | a key maps to a position holding it, and no later position holds it |
| DataFrameUtils.KeyMapHas | src/lib/dataframe/dataframe-utils.ts:395-409 | every key held somewhere is in the map |
| DataFrameUtils.KeyMapSpec | src/lib/dataframe/dataframe-utils.ts:395-409 | the map sends each key to its last position, and holds every key present |
| DataFrameUtils.RowKeys | src/lib/dataframe/dataframe-utils.ts:401-405 | a truthy value gives its text, lower cased on request; another value gives no key |
| DataFrameUtils.RowIdxMap | src/lib/dataframe/dataframe-utils.ts:395-409 | the loop builds exactly the key map of the row index |
| DataFrameUtils.RowIdxMapMeaning | src/lib/dataframe/dataframe-utils.ts:395-409 | a key maps to the last truthy row whose text is that key; a key absent from the map is the text of no truthy row |
| DataFrameUtils.AllKeys | src/lib/dataframe/dataframe-utils.ts:436-452 | every column name is a key, lower cased unless matching is case sensitive |
| DataFrameUtils.Hits | src/lib/dataframe/dataframe-utils.ts:455-473 | at most one position per id, each a position of the map |
| DataFrameUtils.HitsOrder | src/lib/dataframe/dataframe-utils.ts:455-473 | an unknown id adds nothing; a known id adds its position at the end |
| DataFrameUtils.HitsAllKnown | src/lib/dataframe/dataframe-utils.ts:455-473 | when every id is known, the positions follow the ids one for one |
| DataFrameUtils.FilterColsMeaning | src/lib/dataframe/dataframe-utils.ts:423-477 | without keepOrder the kept columns are exactly those whose name is selected, in table order, and every row is kept |
| DataFrameUtils.IlocAllRows | src/lib/dataframe/dataframe.ts:310-312 | selecting every row with ":" succeeds and keeps every row of the table, whichever columns are selected |
| DataFrameUtils.FilterRowsKeepOrder | src/lib/dataframe/dataframe-utils.ts:479-532 | with keepOrder and every id a known row name, the kept rows are the named rows in id order |
| DataFrameUtils.SharedNames | src/lib/dataframe/dataframe-utils.ts:590-602 | every shared name comes from the first list |
| DataFrameUtils.CountNames | src/lib/dataframe/dataframe-utils.ts:594-599 | the loop counts each name exactly as often as it occurs, and only names that occur |
| DataFrameUtils.SharedNamesMeaning | src/lib/dataframe/dataframe-utils.ts:590-602 | when no list repeats a name, a name is shared exactly when every list holds it |
| DataFrameUtils.CountEvery | src/lib/dataframe/dataframe-utils.ts:594-602 | with no repeats a name is counted at most once per list, and as often as there are lists exactly when every list holds it |
| DataFrameUtils.NamePositions | src/lib/dataframe/dataframe-utils.ts:609-622 | every position found lies in the table |
| DataFrameUtils.KeepCols | src/lib/dataframe/dataframe-utils.ts:609-620 | the cut table holds exactly the chosen columns of every row |
| DataFrameUtils.KeepRows | src/lib/dataframe/dataframe-utils.ts:645-656 | the cut table holds one row per chosen row |
| DataFrameUtils.RowJoin | src/lib/dataframe/dataframe-utils.ts:590-627 | the join fails exactly when no table is given |
| DataFrameUtils.RowJoinStacks | src/lib/dataframe/dataframe-utils.ts:590-627 | the joined table holds as many rows as all tables together |
| DataFrameUtils.RowJoinParts | src/lib/dataframe/dataframe-utils.ts:608-627 | the joined rows are every table's rows cut to the shared columns, table after table |
| DataFrameUtils.RowJoinBlocks | src/lib/dataframe/dataframe-utils.ts:608-627 | row i of table k sits after the rows of the earlier tables and holds that row's cells at the shared columns' positions |
| DataFrameUtils.ColJoin | src/lib/dataframe/dataframe-utils.ts:629-665 | the join fails exactly when no table is given |
| DataFrameUtils.SideBySide | src/lib/dataframe/dataframe-utils.ts:629-665 | row r of the result is row r of every table side by side, a missing row read as one empty cell |
| DataFrameUtils.ColJoinRows | src/lib/dataframe/dataframe-utils.ts:629-665 | the joined table has one row per shared row name |
| DataFrameUtils.SharedInFirst | src/lib/dataframe/dataframe-utils.ts:645-656 | every shared name is found in the first table, so its cut keeps one row per shared name |
| DataFrameUtils.MakeGCT | src/lib/dataframe/dataframe-utils.ts:778-804 | a GCT table: the version line, the counts line, the header of Name, Description and the column names, then each row prefixed twice by its row name |
| DataFrameUtils.GCTCounts | src/lib/dataframe/dataframe-utils.ts:781-792 | the counts line reads back as the table's shape |
| DataFrames.WithIndex | src/lib/dataframe/dataframe.ts:190-202 | the cells, columns and name stay; an index is used as is, a list becomes a value-holding index and nothing gives the numeric index |
| DataFrames.WithColNames | src/lib/dataframe/dataframe.ts:230-248 | the cells, row index and name stay; the unbounded indexes are always taken, a value index or a list only when as long as the column count, anything else leaves the names |
| DataFrames.Construct | src/lib/dataframe/dataframe.ts:33-47 | the name and cells are those given; without columns the Excel column index is used |
| DataFrames.CopyFrame | src/lib/dataframe/dataframe.ts:329-336 | the copy has the same name, cells and row index, and equals the table when its column index fits |
| DataFrames.CopyIdempotent | src/lib/dataframe/dataframe.ts:329-336 | copying twice is copying once |
| DataFrames.GetCell | src/lib/dataframe/dataframe.ts:129-131 | the stored cell, or NaN outside the stored rows and cells or on an empty cell; never empty |
| DataFrames.SetAt | src/lib/dataframe/dataframe.ts:185-188 | a JavaScript array write: a negative position changes no element, a position past the end extends the row, the position holds v and every other element stays |
| DataFrames.WithCell | src/lib/dataframe/dataframe.ts:185-188 | only the cell at (row, col) changes, to makeCell(v); a negative column changes nothing |
| DataFrames.Column | src/lib/dataframe/dataframe.ts:417-429 | the column's cell of every row long enough |
| DataFrames.Transpose | src/lib/dataframe/dataframe.ts:339-341 | fails exactly on an empty table; otherwise one row per cell of the first row, row c holding column c |
| DataFrames.TransposeTwice | src/lib/dataframe/dataframe.ts:339-341 | transposing a rectangular non-empty table twice gives it back |
| DataFrames.TransposeFrame | src/lib/dataframe/dataframe.ts:318-327 | fails exactly on an empty table; otherwise the transposed cells under the old column index as row index |
| DataFrames.TransposeSwapsIndexes | src/lib/dataframe/dataframe.ts:318-327 | with a row index that fits, t() swaps the two indexes |
| DataFrames.MapCells | src/lib/dataframe/dataframe.ts:358-363 | fn of every cell and its position, same layout |
| DataFrames.RowMap | src/lib/dataframe/dataframe.ts:365-374 | fn of every row and its position |
| DataFrames.ColMap | src/lib/dataframe/dataframe.ts:417-429 | fails exactly on an empty table; otherwise fn of every column of the first row's width |
| DataFrames.ColumnSet | src/lib/dataframe/dataframe.ts:69-72 | the first rows get the value at the column, the rest stay |
| DataFrames.ColumnAppended | src/lib/dataframe/dataframe.ts:78-82 | the first rows are extended by the value, the rest stay |
| DataFrames.WithCol | src/lib/dataframe/dataframe.ts:57-97 | the row index and name stay |
| DataFrames.SetExistingColumn | src/lib/dataframe/dataframe.ts:57-72 | setting a full existing column changes that column only and keeps the shape and names |
| DataFrames.SetNewColumn | src/lib/dataframe/dataframe.ts:73-97 | a full column under a new name is appended to every row and adds one column name |
| DataFrames.WithRow | src/lib/dataframe/dataframe.ts:150-183 | the columns and name stay |
| DataFrames.SetRowMeaning | src/lib/dataframe/dataframe.ts:150-183 | an existing row is replaced and nothing else changes; a new non-empty row is appended and the row index gains one value |
| DataFrames.NewRowIndex | src/lib/dataframe/dataframe.ts:162-182 | when no row is found a non-empty row is appended and the old index values are kept in front |
| DataFrames.SelectPart | src/lib/dataframe/dataframe.ts:452-504 | a range selector gives only positions inside the table, and ':' gives every position |
| DataFrames.Cells | src/lib/dataframe/dataframe.ts:582 | one row per row position and one cell per column position, the cell stored there |
| DataFrames.CellsAll | src/lib/dataframe/dataframe.ts:582 | every row and column of a rectangular table, in order, is the table itself |
| DataFrames.SelectAll | src/lib/dataframe/dataframe.ts:462-498 | ':' selects every position |
| DataFrames.IlocCells | src/lib/dataframe/dataframe.ts:431-592 | the cells of a slice are the table's cells at the selected positions |
| DataFrames.IlocAll | src/lib/dataframe/dataframe.ts:310-312 | iloc(':', ':') gives back every cell of a rectangular table |
| DataFrames.Positions | src/lib/dataframe/dataframe.ts:446-504 | the loop over the selectors collects exactly the specified positions |
| DataFrames.CheckRows | src/lib/dataframe/dataframe.ts:582 | true exactly when every selected row exists |
| DataFrames.ILoc | src/lib/dataframe/dataframe.ts:431-592 | the loops give exactly the specified slice, failing where a missing row is read |
| DataFrames.IsinRows | src/lib/dataframe/dataframe.ts:594-607 | the rows, ascending, are exactly the existing ones asked for by number |
| DataFrames.IsinCols | src/lib/dataframe/dataframe.ts:594-607 | the columns, ascending, are exactly the existing ones asked for by number |
| DataFrames.IsinSucceeds | src/lib/dataframe/dataframe.ts:314-316 | isin never fails and keeps one row per requested existing row |
| DataFrames.SelectAtLocs | src/lib/dataframe/dataframe.ts:452-454 | selecting a list of numbers gives back the list |
| DataFrames.SetColumn | src/lib/dataframe/dataframe.ts:69-72 | the loop writes exactly the specified column values |
| DataFrames.AppendColumn | src/lib/dataframe/dataframe.ts:78-82 | the loop pushes exactly the specified values |
| DataFrames.DataFrame.constructor | src/lib/dataframe/dataframe.ts:33-47 | the object holds the constructed table |
| DataFrames.DataFrame.Shape | src/lib/dataframe/dataframe.ts:262-264 | the shape of the current table |
| DataFrames.DataFrame.Values | src/lib/dataframe/dataframe.ts:270-273 | one row per table row |
| DataFrames.DataFrame.Get | src/lib/dataframe/dataframe.ts:129-131 | the specified cell of the current table |
| DataFrames.DataFrame.Copy | src/lib/dataframe/dataframe.ts:329-336 | a fresh object holding the copy |
| DataFrames.DataFrame.T | src/lib/dataframe/dataframe.ts:318-327 | null exactly on an empty table (where the source throws); otherwise a fresh object holding the transposed table |
| DataFrames.DataFrame.Set | src/lib/dataframe/dataframe.ts:185-188 | the table becomes the one with that cell set |
| DataFrames.DataFrame.SetIndex | src/lib/dataframe/dataframe.ts:190-202 | in place the table gets the new index; otherwise this one is unchanged and a fresh copy gets it |
| DataFrames.DataFrame.SetColNames | src/lib/dataframe/dataframe.ts:230-248 | in place the table gets the new column names; otherwise this one is unchanged and a fresh copy gets them |
| DataFrames.DataFrame.SetName | src/lib/dataframe/dataframe.ts:49-55 | in place the name changes; otherwise this one is unchanged and a fresh copy is renamed |
| DataFrames.DataFrame.UpdateCol | src/lib/dataframe/dataframe.ts:64-97 | the table becomes the one with the column set |
| DataFrames.DataFrame.SetCol | src/lib/dataframe/dataframe.ts:57-97 | in place the column is set; otherwise this one is unchanged and a fresh copy gets the column |
| DataFrames.DataFrame.UpdateRow | src/lib/dataframe/dataframe.ts:157-182 | the table becomes the one with the row set |
| DataFrames.DataFrame.SetRow | src/lib/dataframe/dataframe.ts:150-183 | in place the row is set; otherwise this one is unchanged and a fresh copy gets the row |
| EventCounts.Added | src/components/pages/modules/oncoplot/oncoplot-utils.ts:277-282 | the event's count grows by the count given, starting from 0 |
| EventCounts.AddedSpec | src/components/pages/modules/oncoplot/oncoplot-utils.ts:277-282 | set keeps the map well formed, adds the count to the event, leaves every other count and keeps the old keys in order, a new event going last |
| EventCounts.TotalChanged | src/components/pages/modules/oncoplot/oncoplot-utils.ts:307-311 | changing one count changes the total over distinct keys by the change when the key is among them, and not otherwise |
| EventCounts.SumCountsAdded | src/components/pages/modules/oncoplot/oncoplot-utils.ts:277-311 | set(event, count) adds count to sum |
| EventCounts.Events | src/components/pages/modules/oncoplot/oncoplot-utils.ts:288-292 | one entry per event |
| EventCounts.EventsSpec | src/components/pages/modules/oncoplot/oncoplot-utils.ts:288-292 | the entries come in strictly increasing name order, each with its count, and name every event exactly once |
| EventCounts.FirstMax | src/components/pages/modules/oncoplot/oncoplot-utils.ts:299-305 | a position of the list |
| EventCounts.FirstMaxSpec | src/components/pages/modules/oncoplot/oncoplot-utils.ts:299-305 | the position holds the largest value, and no earlier position holds as much |
| EventCounts.KeyCounts | src/components/pages/modules/oncoplot/oncoplot-utils.ts:299-305 | one count per key, in insertion order |
| EventCounts.MaxEventSpec | src/components/pages/modules/oncoplot/oncoplot-utils.ts:299-305 | [NA, -1] for an empty map; otherwise an event with the largest count, inserted no later than any other event with that count |
| EventCounts.CountDistAll | src/components/pages/modules/oncoplot/oncoplot-utils.ts:322-329 | with keepZeros, one pair per id in order, each id with its count |
| EventCounts.CountDistKept | src/components/pages/modules/oncoplot/oncoplot-utils.ts:322-329 | every pair is an id with its count, positive unless keepZeros, and every id with a positive count keeps its pair |
| EventCounts.EventCountMap.constructor | src/components/pages/modules/oncoplot/oncoplot-utils.ts:262-275 | an empty, well formed map |
| EventCounts.EventCountMap.Set | src/components/pages/modules/oncoplot/oncoplot-utils.ts:277-282 | the map becomes the one with the count added, stays well formed, and its sum grows by the count |
| GeneBytes.Word | src/modules/tracks/genes-downloader.ts:166-200 | the value of k little-endian bytes is below 256^k |
| GeneBytes.ReadUInt | src/modules/tracks/genes-downloader.ts:193-203 | readUInt8/16LE/32LE succeed exactly when all k bytes lie in the buffer, with a value below 256^k |
| GeneBytes.Text | src/modules/tracks/genes-downloader.ts:205-218 | a zero length or a start past the end gives ""; a range inside the buffer gives the UTF-8 text of those bytes |
| GeneBytes.DecodeText | src/modules/tracks/genes-downloader.ts:204-207 | a string field decodes exactly when its length byte is in the buffer, and ends one byte plus its length later |
| GeneBytes.DecodeExon | src/modules/tracks/genes-downloader.ts:253-262 | an exon takes at least nine bytes |
| GeneBytes.DecodeExons | src/modules/tracks/genes-downloader.ts:253-267 | a decoded run has exactly the exons asked for |
| GeneBytes.DecodeExonsFail | src/modules/tracks/genes-downloader.ts:253-267 | once one exon fails, every longer run fails with the same error |
| GeneBytes.DecodeFixed | src/modules/tracks/genes-downloader.ts:193-203 | the fixed fields decode exactly when their 13 bytes lie in the buffer |
| GeneBytes.DecodeNames | src/modules/tracks/genes-downloader.ts:204-218 | the three string fields take at least three bytes |
| GeneBytes.DecodeTail | src/modules/tracks/genes-downloader.ts:250-267 | the exon count and exons take at least two bytes |
| GeneBytes.DecodeRecord | src/modules/tracks/genes-downloader.ts:166-281 | a decoded record lies in the buffer, has the requested chromosome, a '+' or '-' strand, and the next offset is offset + 4 + block size |
| GeneBytes.RecordLength | src/modules/tracks/genes-downloader.ts:281 | the block size written is the length of the record body |
| GeneBytes.DecodeParts | src/modules/tracks/genes-downloader.ts:166-281 | a record decodes once each of its parts does |
| GeneBytes.AtRead | src/modules/tracks/genes-downloader.ts:166-203 | reading back the bytes written for a value that fits gives the value |
| GeneBytes.AtText | src/modules/tracks/genes-downloader.ts:204-207 | reading back a written string field gives its text and the position after it |
| GeneBytes.AtExon | src/modules/tracks/genes-downloader.ts:253-262 | reading back a written exon gives it |
| GeneBytes.DecodeExonsStep | src/modules/tracks/genes-downloader.ts:253-265 | a run of exons extends by one more decoded exon |
| GeneBytes.AtExons | src/modules/tracks/genes-downloader.ts:253-267 | reading back written exons gives them all |
| GeneBytes.AtHead | src/modules/tracks/genes-downloader.ts:193-203 | reading back the written fixed fields gives index, start, end and strand |
| GeneBytes.AtNames | src/modules/tracks/genes-downloader.ts:204-218 | reading back the three written string fields gives their texts |
| GeneBytes.AtTail | src/modules/tracks/genes-downloader.ts:250-267 | reading back the written exon count and exons gives the exons |
| GeneBytes.EncodedParts | src/modules/tracks/genes-downloader.ts:166-281 | each part of a written record decodes, and together they make the transcript the record stands for |
| GeneBytes.DecodeEncode | src/modules/tracks/genes-downloader.ts:166-281 | decoding a written record anywhere in a buffer gives its transcript and the offset just past it |
| GeneRecords.TranscriptAt | src/modules/tracks/genes-downloader.ts:122-285 | offset 0 gives nothing; at most one transcript, with exons and the requested chromosome, and a next offset past the block size |
| GeneRecords.TranscriptAtFailure | src/modules/tracks/genes-downloader.ts:282-284 | a record that fails to decode leaves the offset where it was |
| GeneRecords.TranscriptAtEncoded | src/modules/tracks/genes-downloader.ts:122-285 | a written record gives its transcript when it has exons, and the offset just past it |
| GeneRecords.TranscriptAtDecoded | src/modules/tracks/genes-downloader.ts:269-281 | a decoded record is kept exactly when it has exons, and the offset moves to the next record |
| GeneRecords.GetTranscriptUsingOffset | src/modules/tracks/genes-downloader.ts:122-285 | the method gives exactly the specified transcripts and next offset |
| GeneRecords.ReadRecord | src/modules/tracks/genes-downloader.ts:166-281 | reading field by field with a cursor gives exactly the specified decoding |
| GeneRecords.ReadTail | src/modules/tracks/genes-downloader.ts:250-267 | the method gives exactly the specified exon count and exons |
| GeneRecords.ReadNames | src/modules/tracks/genes-downloader.ts:204-218 | the method gives exactly the specified three string fields |
| GeneRecords.ReadExons | src/modules/tracks/genes-downloader.ts:253-267 | the loop pushes exactly the specified exons |
| GeneRecords.RecordReaderOk | src/modules/tracks/genes-downloader.ts:122-285 | the buffer reader yields transcripts of its chromosome and never moves backwards past the buffer |
| GenesDownloader.ClosestPage | src/modules/tracks/genes-downloader.ts:51-54 | the page lies in [0, pages) when there are pages, 0 otherwise |
| GenesDownloader.ClosestPageHolds | src/modules/tracks/genes-downloader.ts:51-54 | the page chosen holds start whenever some page does |
| GenesDownloader.ClosestGeneOffset | src/modules/tracks/genes-downloader.ts:18-117 | 0 for an empty index; otherwise one of the indexed page offsets |
| GenesDownloader.ClosestGeneOffsetPage | src/modules/tracks/genes-downloader.ts:18-117 | when start falls inside the indexed range, the offset is the one stored for the page holding it |
| GenesDownloader.WalkSpec | src/modules/tracks/genes-downloader.ts:287-338 | every walked transcript has exons and the requested chromosome, and every one but the last starts before the end |
| GenesDownloader.DownloadGenes | src/modules/tracks/genes-downloader.ts:287-338 | the loop returns exactly the specified walk from the closest offset |
| GenesDownloader.Within | src/modules/tracks/genes-downloader.ts:340-391 | no more transcripts than walked |
| GenesDownloader.WithinSpec | src/modules/tracks/genes-downloader.ts:340-391 | a transcript is kept exactly when it was walked and meets the location |
| GenesDownloader.GetWithinTranscripts | src/modules/tracks/genes-downloader.ts:340-391 | the loop returns exactly the walked transcripts that meet the location |
| GenesDownloader.ClosestTranscript | src/modules/tracks/genes-downloader.ts:402-438 | at most one transcript |
| GenesDownloader.ClosestIsFirst | src/modules/tracks/genes-downloader.ts:402-438 | the closest transcript is the first one downloadGenes returns |
| GenesDownloader.ClosestAtFound | src/modules/tracks/genes-downloader.ts:440-496 | at most one transcript per slot, each with exons and the requested chromosome |
| GenesDownloader.ClosestAtAll | src/modules/tracks/genes-downloader.ts:440-496 | one transcript per slot when every slot's record has one |
| GenesDownloader.GetClosestTranscriptsUsingIndex | src/modules/tracks/genes-downloader.ts:440-496 | the loop returns exactly the transcripts of the n slots of the gene's block |
| GenesDownloader.ClosestTranscripts | src/modules/tracks/genes-downloader.ts:498-528 | nothing without a closest transcript; otherwise the closest genes listed for its index |
| Genomic.NewLocation | src/modules/genomic/genomic.ts:12-16 | the name always starts with "chr" and is kept when it already does; start and end are those given |
| Genomic.Overlaps | src/modules/genomic/genomic.ts:245-265 | an intersection needs both locations, on the same chromosome |
| Genomic.OverlapsWithin | src/modules/genomic/genomic.ts:245-265 | the intersection exists exactly when the chromosomes agree and the closed intervals, neither inverted, share a base; it lies within both and is not inverted |
| Genomic.OverlapsSymmetric | src/modules/genomic/genomic.ts:245-265 | the intersection does not depend on the order of the arguments |
| Genomic.OverlapsIffWithin | src/modules/genomic/genomic.ts:237-269 | locWithin holds exactly when overlaps finds an intersection, whose width (end - start + 1) is at least 1 and at most either location's |
| Genomic.OverlapsMissing | src/modules/genomic/genomic.ts:249-251 | a missing argument gives no intersection |
| Genomic.LineRunSpec | src/modules/genomic/genomic.ts:103 | the run is exactly the leading characters '.' matches |
| Genomic.LastNumsAtSpec | src/modules/genomic/genomic.ts:103 | the greedy group ends at the last place the two numbers match |
| Genomic.MatchLoc | src/modules/genomic/genomic.ts:103-117 | a match starts at or after i and its name has at least one character after "chr" |
| Genomic.CleanedReplaces | src/modules/genomic/genomic.ts:110 | the one pass is dropping commas, then turning ':' into '-' |
| Genomic.CleanedPunctuation | src/modules/genomic/genomic.ts:110 | the cleaned text has no ',' and no ':' |
| Genomic.CleanedAppend | src/modules/genomic/genomic.ts:110 | cleaning works piece by piece |
| Genomic.MatchedLocation | src/modules/genomic/genomic.ts:110-124 | fails with "invalid location" exactly when the pattern does not match; otherwise a formatted location |
| Genomic.LocationAt | src/modules/genomic/genomic.ts:119-123 | the name read is the matched text from "chr" up to the '-', and the location is formatted |
| Genomic.ParseLocation | src/modules/genomic/genomic.ts:105-124 | fails with "invalid location" exactly when the cleaned text does not match; otherwise a formatted location |
| Genomic.MatchOfDashed | src/modules/genomic/genomic.ts:103-117 | in "chr-a-b" the pattern matches at the start and the name ends where the name ends |
| Genomic.LocationOfDashed | src/modules/genomic/genomic.ts:119-123 | the match in "chr-a-b" reads the name and the values of a and b, moved by the paddings |
| Genomic.ParseLocationRoundTrip | src/modules/genomic/genomic.ts:105-124 | parsing a printed location gives it back, start moved left by the 5' padding and end right by the 3' padding, for a name without '-', ',', ':' or line break and coordinates not negative |
| Genomic.ParseOfPrinted | src/modules/genomic/genomic.ts:105-124 | parsing "chr:a-b" for digit strings a and b gives chr, a and b's values, moved by the paddings |
| GenomicLines.IsLocationIsChr | src/modules/genomic/genomic.ts:56-62 | every text isLocation accepts, isChr accepts too |
| GenomicLines.DigitsIsLocation | src/modules/genomic/genomic.ts:56-58 | "chr:a-b" with digits a and b is a location |
| GenomicLines.ReplaceFirst | src/modules/genomic/genomic.ts:155 | replace with a string pattern keeps the length and changes nothing when the character is absent |
| GenomicLines.LocTokens | src/modules/genomic/genomic.ts:155-159 | at least one piece |
| GenomicLines.ParseLoc | src/modules/genomic/genomic.ts:154-174 | a location read is formatted and comes from at least three pieces, the first passing isChr |
| GenomicLines.LocationOfTokens | src/modules/genomic/genomic.ts:157-174 | a location needs at least three pieces, the first passing isChr |
| GenomicLines.TokensOf | src/modules/genomic/genomic.ts:155-159 | the pieces of "chr:x-y" are the name, x and y |
| GenomicLines.ParseLocDigits | src/modules/genomic/genomic.ts:154-174 | parseLoc of "chr:a-b" for digits a and b is the location of chr and their values |
| GenomicLines.ParseLocRoundTrip | src/modules/genomic/genomic.ts:154-174 | parseLoc reads back what locStr prints, for a name without '-', ',', ':' or line break and coordinates not negative |
| GenomicLines.ParseLocNoSeparator | src/modules/genomic/genomic.ts:157-159 | a text with neither '-' nor ':' gives null |
| GenomicLines.ParseLocNaNStart | src/modules/genomic/genomic.ts:161-165 | with no digit between ':' and '-' the start is NaN and parseLoc gives null |
| GenomicLines.LineLocation | src/modules/genomic/genomic.ts:180-195 | a location a line gives is formatted |
| GenomicLines.LineOfTokens | src/modules/genomic/genomic.ts:181-195 | a location the pieces give is formatted |
| GenomicLines.ParsedLocations | src/modules/genomic/genomic.ts:176-199 | at most one location per line |
| GenomicLines.ParseLocations | src/modules/genomic/genomic.ts:176-199 | the loop returns exactly the specified locations, or the first exception a line raises |
| GenomicLines.PrefixFailure | src/modules/genomic/genomic.ts:176-199 | once some first lines throw, the whole list throws the same |
| GenomicLines.ParsedLocationsFormatted | src/modules/genomic/genomic.ts:176-199 | every location returned went through the constructor |
| GenomicLines.PrintedLine | src/modules/genomic/genomic.ts:183-184 | a location printed on its own line is read back |
| GenomicLines.LocationLine | src/modules/genomic/genomic.ts:183-184 | a line that is one location text gives what parseLocation reads from it |
| GenomicLines.ParsedLocationsRoundTrip | src/modules/genomic/genomic.ts:176-199 | printing locations one per line and reading them back gives the locations, in order |
| GenomicLines.ParsedSnoc | src/modules/genomic/genomic.ts:180-195 | one more line holding a location adds it at the end |
| History.GetSheetIndex | src/components/history-provider.tsx:30-46 | a number unchanged; a name gives -1 exactly when no sheet name contains it, otherwise the first sheet whose name does |
| History.MinAt | src/components/history-provider.tsx:197-208 | Math.min propagates NaN; otherwise the smaller of the two |
| History.MaxAt | src/components/history-provider.tsx:283-302 | Math.max propagates NaN; otherwise the larger of the two |
| History.Shift | src/components/history-provider.tsx:283-292 | adding to NaN gives NaN; otherwise the sum |
| History.MakeStep | src/components/history-provider.tsx:48-67 | a step with the given position, name and sheets whose selected sheet is the looked-up one, never past the last sheet |
| History.Loadeds | src/components/history-provider.tsx:210-223 | one loaded sheet per table, in order |
| History.GetStepIndexAsWritten | src/components/history-provider.tsx:6-22 | a number unchanged; a name among no steps gives -1; among some steps, undefined exactly when no step name contains it, otherwise the first step whose name does |
| History.MatchesMeaning | src/components/history-provider.tsx:9-18 | the matching positions are empty exactly when no step name contains the text, and otherwise begin with the first match |
| History.StepIndexAsWrittenUndefined | src/components/history-provider.tsx:9-21 | a name no step holds gives undefined, not -1 |
| History.GetStepIndex | src/components/history-provider.tsx:6-22 | as intended: a number unchanged; a name gives -1 exactly when no step name contains it, otherwise the first step whose name does |
| History.StepIndexAgrees | src/components/history-provider.tsx:6-22 | the written and intended look-ups agree except on a name no step holds |
| History.RemoveStep | src/components/history-provider.tsx:197-208 | as intended: an unknown name leaves the state; otherwise exactly that step is dropped and the cursor becomes min(cursor, step - 1) |
| History.Store | src/components/history-provider.tsx:260-270 | a JavaScript array write: inside it replaces one element, past the end it extends through holes, a negative position changes nothing |
| History.UndoRedo | src/components/history-provider.tsx:283-292 | undo steps back but not below the first step, redo forward but not past the last; neither touches the steps |
| History.GotoClamps | src/components/history-provider.tsx:293-302 | goto a number or a known name lands on the looked-up step when it exists, otherwise the nearer end; an unknown name makes the cursor NaN |
| History.UnknownStepName | src/components/history-provider.tsx:283-302 | a name no step holds: goto leaves the cursor NaN, remove doubles the steps and leaves it NaN, undo and redo keep it NaN and add_sheets fails, until a goto that finds its step |
| History.RemoveUnknownIntended | src/components/history-provider.tsx:197-208 | with the intended look-up, removing an unknown name leaves the history as it was |
| History.AddStepTruncates | src/components/history-provider.tsx:183-195 | add_step drops the steps after the cursor, appends the new step, makes it current and last, and records its position |
| History.UndoAddStep | src/components/history-provider.tsx:283-292 | undoing an added step returns to the step before it and redoing comes back |
| History.ResetClear | src/components/history-provider.tsx:312-322 | reset leaves one step at position 0 holding the given sheets; clear the same with the default sheet |
| History.GotoSheetOnlySelects | src/components/history-provider.tsx:225-248 | goto_sheet with an unknown sheet changes nothing; otherwise only the selected sheet of the current step changes |
| History.AddSheetsAppends | src/components/history-provider.tsx:210-223 | add_sheets appends to the current step's sheets only; the other steps, the cursor and the step's name stay |
| History.ReplaceSheetMeaning | src/components/history-provider.tsx:250-280 | replace_sheet drops the steps after the cursor and makes the rebuilt step current and last: a sheet found by name is replaced in place, an unknown name appends it |
| History.RemoveDrops | src/components/history-provider.tsx:197-208 | removing an existing step drops exactly that step; the cursor becomes min(cursor, step - 1) |
| History.RemoveFirstStep | src/components/history-provider.tsx:197-208 | removing the first step puts the cursor at -1, off the steps, where add_sheets, goto_sheet and replace_sheet fail |
| History.ReducePreservesValid | src/components/history-provider.tsx:179-326 | every action but remove, and but goto of a name no step holds, keeps the cursor on a step and every step at its own position |
| LocationBins.BinOfMonotone | src/modules/genomic/genomic.ts:280-281 | floor division by the bin size keeps the order of positions, so a location's first bin is at most its last |
| LocationBins.AddToBinsBin | src/modules/genomic/genomic.ts:287-293 | pushing onto the bins of a range adds the location at the end of exactly those bins |
| LocationBins.BinnedBins | src/modules/genomic/genomic.ts:275-296 | the constructor files each location under every bin it spans, in input order, and under no other |
| LocationBins.BinnedKeys | src/modules/genomic/genomic.ts:283-285 | a chromosome has a bin map exactly when some location is on it |
| LocationBins.InBinHas | src/modules/genomic/genomic.ts:275-296 | bin b of a chromosome holds exactly its locations that span b |
| LocationBins.HitsHas | src/modules/genomic/genomic.ts:316-320 | the hits of a bin are its locations that overlap the query |
| LocationBins.RepeatHitsLength | src/modules/genomic/genomic.ts:311-321 | visiting the same bin n times gives its hits n times over |
| LocationBins.SearchAsWrittenHits | src/modules/genomic/genomic.ts:304-326 | search as written returns exactly the stored locations that overlap the query and span its first bin, each once per bin the query spans |
| LocationBins.SearchBinsHits | src/modules/genomic/genomic.ts:304-326 | scanning bin b on the visit to bin b finds exactly the stored locations that overlap the query |
| LocationBins.SearchBinsSound | src/modules/genomic/genomic.ts:304-326 | every location the corrected search returns is stored and overlaps the query |
| LocationBins.SearchBinsComplete | src/modules/genomic/genomic.ts:304-326 | every stored location that overlaps the query is returned by the corrected search |
| LocationBins.SearchBinsSpec | src/modules/genomic/genomic.ts:304-326 | the corrected search returns exactly the stored locations that overlap the query |
| LocationBins.SearchMissesOverlap | src/modules/genomic/genomic.ts:311-313 | chr1:1500-1600 overlaps the query chr1:900-1600 but search as written misses it; the corrected search finds it |
| LocationBins.LocationBinMap.constructor | src/modules/genomic/genomic.ts:275-296 | the object files the given locations under the given bin size |
| LocationBins.LocationBinMap.Search | src/modules/genomic/genomic.ts:304-326 | the loop returns exactly search as written |
| LocationBins.LocationBinMap.SearchAllBins | src/modules/genomic/genomic.ts:304-326 | the corrected loop returns exactly the stored locations that overlap the query |
| LollipopData.ParseVariantSpec | src/components/pages/modules/lollipop/lollipop-utils.ts:373-388 | the classification ignores case, with priority missense, frameshift, in frame, splice, and anything else nonsense |
| LollipopData.SubAtSpec | src/components/pages/modules/lollipop/lollipop-utils.ts:331 | the substitution pattern matches at k exactly when SubAt finds it, with the longest last group |
| LollipopData.SubAtOnly | src/components/pages/modules/lollipop/lollipop-utils.ts:331 | any match at k has the non-digit and digit runs SubAt takes as its first two groups |
| LollipopData.FirstSub | src/components/pages/modules/lollipop/lollipop-utils.ts:432 | the first match of the substitution pattern at or after k; none when no position matches |
| LollipopData.LastGt | src/components/pages/modules/lollipop/lollipop-utils.ts:332 | the last '>' with something after it, or -1 when there is none |
| LollipopData.FirstSubV2 | src/components/pages/modules/lollipop/lollipop-utils.ts:442 | the first match of the second pattern at or after k; none when no position matches |
| LollipopData.ReplaceFirst | src/components/pages/modules/lollipop/lollipop-utils.ts:430 | replace with a literal pattern changes nothing when the pattern is absent and otherwise swaps one occurrence |
| LollipopData.ParseChangeAsWritten | src/components/pages/modules/lollipop/lollipop-utils.ts:418-438 | a row throws exactly when its text has no substitution match |
| LollipopData.ParseChange | src/components/pages/modules/lollipop/lollipop-utils.ts:418-453 | as intended: no change exactly when neither pattern matches; a change keeps the row's text and sample and the parsed variant |
| LollipopData.ParseChangeAgrees | src/components/pages/modules/lollipop/lollipop-utils.ts:418-453 | wherever the code as written does not throw, the intended reading gives the same change |
| LollipopData.SecondPatternUnused | src/components/pages/modules/lollipop/lollipop-utils.ts:432-450 | "p.600V>E" makes the code as written throw, where the intended reading is V to E at residue 600 |
| LollipopData.Changes | src/components/pages/modules/lollipop/lollipop-utils.ts:418-455 | at most one change per row |
| LollipopData.ChangesSpec | src/components/pages/modules/lollipop/lollipop-utils.ts:418-455 | every change comes from a row, and every row with a change contributes it |
| LollipopData.ChangesAsWritten | src/components/pages/modules/lollipop/lollipop-utils.ts:418-455 | a failure is a TypeError; otherwise one change per row |
| LollipopData.ChangesAsWrittenThrows | src/components/pages/modules/lollipop/lollipop-utils.ts:418-455 | the map throws exactly when some row has no substitution match |
| LollipopData.ChangesAsWrittenAgree | src/components/pages/modules/lollipop/lollipop-utils.ts:418-455 | where the map does not throw, its changes are the intended ones |
| LollipopData.SamplesAtSpec | src/components/pages/modules/lollipop/lollipop-utils.ts:470-472 | a sample carries an event at residue p exactly when one of the changes at p says so |
| LollipopData.EventsAtValid | src/components/pages/modules/lollipop/lollipop-utils.ts:470-472 | the event list and the sample map of a residue stay in step |
| LollipopData.MakeFeatures | src/components/pages/modules/lollipop/lollipop-utils.ts:399-416 | no features without a feature table; otherwise one feature per row, in order |
| LollipopData.NewStats | src/components/pages/modules/lollipop/lollipop-utils.ts:466-468 | one fresh, empty LollipopStats per residue, numbered from 1 and tagged with its letter |
| LollipopData.ApplyChanges | src/components/pages/modules/lollipop/lollipop-utils.ts:470-472 | succeeds exactly when every change lies on a residue; then each residue holds exactly the changes at it |
| LollipopData.MakeLollipopData | src/components/pages/modules/lollipop/lollipop-utils.ts:390-481 | succeeds exactly when every row has a substitution match and every change lies on a residue; then one feature per feature row, no labels, and one LollipopStats per residue holding the changes at it |
| LollipopPlot.PlotReducer | src/components/pages/modules/lollipop/plot-context.tsx:49-75 | the protein and statistics never change; each action replaces its own part (features, labels or display properties) and leaves the others |
| LollipopPlot.RunAppend | src/components/pages/modules/lollipop/plot-context.tsx:49-75 | running two runs of actions one after the other is running their concatenation |
| LollipopPlot.RunSpec | src/components/pages/modules/lollipop/plot-context.tsx:49-75 | along any run the protein and statistics stay and the features are those of the last features action |
| LollipopPlot.Commute | src/components/pages/modules/lollipop/plot-context.tsx:51-64 | a features action and a labels action commute |
| LollipopStatistics.RecordedOnce | src/components/pages/modules/lollipop/lollipop-utils.ts:293-299 | recording adds the event, adds the sample to its set, keeps every other event, and recording a pair already there changes nothing |
| LollipopStatistics.SizeSumPerm | src/components/pages/modules/lollipop/lollipop-utils.ts:315-319 | the total does not depend on the order of the events |
| LollipopStatistics.SizeSumExcept | src/components/pages/modules/lollipop/lollipop-utils.ts:315-319 | changing one event's samples changes the total by the change of its count |
| LollipopStatistics.RecordedSum | src/components/pages/modules/lollipop/lollipop-utils.ts:293-319 | set adds one to the total exactly when the pair is new |
| LollipopStatistics.FirstMax | src/components/pages/modules/lollipop/lollipop-utils.ts:307-313 | the first entry with the largest count, which a stable sort by decreasing count puts first |
| LollipopStatistics.CountsTotalKeys | src/components/pages/modules/lollipop/lollipop-utils.ts:315-319 | the counts listed against the keys add up to the keys' total |
| LollipopStatistics.LollipopStats.constructor | src/components/pages/modules/lollipop/lollipop-utils.ts:276-279 | position and letter as given, nothing recorded |
| LollipopStatistics.LollipopStats.Set | src/components/pages/modules/lollipop/lollipop-utils.ts:293-299 | the sample joins the event's set, a new event is listed last, and sum grows by one exactly when the pair is new |
| LollipopStatistics.LollipopStats.EventCounts | src/components/pages/modules/lollipop/lollipop-utils.ts:301-305 | one entry per event, in name order, each with its number of distinct samples |
| LollipopStatistics.EventCountsSpec | src/components/pages/modules/lollipop/lollipop-utils.ts:301-305 | eventCounts lists every event exactly once, in strictly increasing name order, with the size of its sample set |
| LollipopStatistics.MaxEventSpec | src/components/pages/modules/lollipop/lollipop-utils.ts:307-313 | [NA, -1] exactly when nothing is recorded; otherwise an event with the largest count, the first in name order among those sharing it |
| LollipopStatistics.SumTotal | src/components/pages/modules/lollipop/lollipop-utils.ts:315-319 | sum is the number of recorded samples over all events |
| MatcalcPlots.Removed | src/components/pages/modules/matcalc/plots-context.tsx:89-95 | exactly the plots whose id differs, in order |
| MatcalcPlots.PlotsReducer | src/components/pages/modules/matcalc/plots-context.tsx:53-102 | add appends one plot numbered with the counter and advances it; set leaves one plot named "<style> 1" stamped with the old counter and puts the counter at 1; remove drops the plots with that id; clear empties the list |
| MatcalcPlots.CounterAboveKept | src/components/pages/modules/matcalc/plots-context.tsx:53-102 | add, remove, clear and unknown actions keep the counter above every plot index |
| MatcalcPlots.SetLowersCounter | src/components/pages/modules/matcalc/plots-context.tsx:75-88 | set from a counter of 2 stamps index 2 and leaves the counter at 1, below it |
| MatcalcPlots.RunCounterAbove | src/components/pages/modules/matcalc/plots-context.tsx:53-102 | along any run without set, the counter stays above every plot index |
| MemoSort.InsertDesc | src/components/pages/modules/oncoplot/oncoplot-utils.ts:967 | inserting an index keeps every other index and adds it once |
| MemoSort.InsertDescRanked | src/components/pages/modules/oncoplot/oncoplot-utils.ts:967 | inserting a new index keeps the order ranked |
| MemoSort.SortDesc | src/components/pages/modules/oncoplot/oncoplot-utils.ts:1011-1014 | a stable sort by decreasing key of the indices 0..n-1 lists each exactly once |
| MemoSort.SortDescSpec | src/components/pages/modules/oncoplot/oncoplot-utils.ts:1011-1014 | the sort is a permutation, keys never increase along it and equal keys keep the order of their indices |
| MemoSort.RankedUnique | src/components/pages/modules/oncoplot/oncoplot-utils.ts:1013 | any two ranked orderings of the same indices are equal, so the stable sort is determined |
| MemoSort.Weight | src/components/pages/modules/oncoplot/oncoplot-utils.ts:1001 | the weight of gene position ri is 2^(MAX_MEMO_POWER - ri), and 1 from MAX_MEMO_POWER on |
| MemoSort.Scores | src/components/pages/modules/oncoplot/oncoplot-utils.ts:985-1009 | one score per sample |
| MemoSort.MemoSortSpec | src/components/pages/modules/oncoplot/oncoplot-utils.ts:960-1023 | both orders are permutations; gene sums never increase along the gene order and scores never increase along the sample order |
| MemoSort.ScoreFromBound | src/components/pages/modules/oncoplot/oncoplot-utils.ts:993-1006 | with at most 51 genes, the weight at a position exceeds the score of all later positions together |
| MemoSort.MemoSortFirstDifference | src/components/pages/modules/oncoplot/oncoplot-utils.ts:960-1023 | with at most 51 genes, of two samples the one holding the first gene on which they differ comes first |
| MemoSort.FirstDifferenceScores | src/components/pages/modules/oncoplot/oncoplot-utils.ts:993-1006 | the sample with the first differing gene scores higher |
| Messages.IdSet | src/components/pages/message-context.tsx:62 | a list of ids gives its ids; a single string gives its one-character strings |
| Messages.Kept | src/components/pages/message-context.tsx:65 | no more messages than the queue |
| Messages.KeptSpec | src/components/pages/message-context.tsx:61-66 | a message stays exactly when its id is among the action's ids |
| Messages.KeptAppend | src/components/pages/message-context.tsx:65 | keeping works message by message, in queue order |
| Messages.MessagesReducer | src/components/pages/message-context.tsx:43-73 | add appends the message with its id or a fresh one; set leaves just it; remove keeps exactly the messages named; clear empties the queue |
| Messages.MessageFileFormat | src/components/pages/message-context.tsx:96-102 | without a ':' the default format |
| Messages.MessageFileFormatSpec | src/components/pages/message-context.tsx:96-102 | with a ':' the format is the piece right after the first ':', holding no ':' and followed by ':' or the end |
| Motifs.Pick | src/components/pages/modules/gene/motifs/motifs-provider.tsx:65-70 | the motif at each index, in order |
| Motifs.KeptIndices | src/components/pages/modules/gene/motifs/motifs-provider.tsx:64-67 | fails exactly when an index is not a position of the list; otherwise indices of the order, no more than it holds |
| Motifs.KeptIndicesSpec | src/components/pages/modules/gene/motifs/motifs-provider.tsx:64-67 | the kept indices are exactly the indices of the order whose motif is not removed, in order |
| Motifs.WithoutIds | src/components/pages/modules/gene/motifs/motifs-provider.tsx:66 | no more motifs than shown |
| Motifs.PickKept | src/components/pages/modules/gene/motifs/motifs-provider.tsx:64-67 | picking the kept indices shows the shown motifs without the removed ones |
| Motifs.Removed | src/components/pages/modules/gene/motifs/motifs-provider.tsx:59-72 | remove fails exactly when an order index is not a position of the list |
| Motifs.RemovedSpec | src/components/pages/modules/gene/motifs/motifs-provider.tsx:59-72 | after remove the order is the kept indices sorted by their decimal strings, and the motifs are the motifs at them |
| Motifs.MotifReducer | src/components/pages/modules/gene/motifs/motifs-provider.tsx:45-76 | set shows every motif in load order, order replaces the order, remove is as above, anything else leaves the state |
| Motifs.SetShowable | src/components/pages/modules/gene/motifs/motifs-provider.tsx:52-56 | set leaves a showable state listing each motif once in load order |
| Motifs.RemoveBreaksOrder | src/components/pages/modules/gene/motifs/motifs-provider.tsx:59-72 | with motifs a, b shown as [0, 1], removing a leaves motifs [b] and order [1], which points past the end |
| Motifs.RemovedInOrder | src/components/pages/modules/gene/motifs/motifs-provider.tsx:59-72 | the intended remove fails exactly when an order index is not a position of the list |
| Motifs.RemovedInOrderShows | src/components/pages/modules/gene/motifs/motifs-provider.tsx:59-72 | the intended remove keeps the state showable and shows what was shown before without the removed motifs, in the same order |
| OncoplotEvents.GetEventLabelSpec | src/components/pages/modules/oncoplot/oncoplot-utils.ts:376-397 | no label exactly when the cell has no event; one kind of event labels the cell with it (through the aliases); several kinds are "Multi" unless drawn one by one |
| OncoplotEvents.GetEventLabelMax | src/components/pages/modules/oncoplot/oncoplot-utils.ts:391-396 | drawn one by one, a cell is labelled with the first inserted of its most frequent events |
| OncoplotEvents.FilterIn | src/components/pages/modules/oncoplot/oncoplot-utils.ts:516-522 | exactly the elements whose membership is as asked, in order, keeping no-repeats and sortedness |
| OncoplotEvents.OrderEventsSpec | src/components/pages/modules/oncoplot/oncoplot-utils.ts:514-526 | the legend lists every event and nothing else, each once, the known ones first in plot order, the others sorted |
| OncoplotEvents.OrderEventsUnknown | src/components/pages/modules/oncoplot/oncoplot-utils.ts:514-526 | a plot order naming none of the events sorts them |
| OncoplotEvents.LegendColors | src/components/pages/modules/oncoplot/oncoplot-utils.ts:949-954 | every legend entry gets its default colour, or the colour of OTHER when it has none |
| OncoplotFrame.Data | src/components/pages/modules/oncoplot/oncoplot-utils.ts:493-495 | a cell exactly when both orders and the table reach the position |
| OncoplotFrame.GeneStats | src/components/pages/modules/oncoplot/oncoplot-utils.ts:497-499 | one entry per position of the gene order |
| OncoplotFrame.SampleStats | src/components/pages/modules/oncoplot/oncoplot-utils.ts:501-503 | one entry per position of the sample order |
| OncoplotFrame.LastNamed | src/components/pages/modules/oncoplot/oncoplot-utils.ts:425-451 | the last position holding the name, or -1 when none does |
| OncoplotFrame.NamedPositions | src/components/pages/modules/oncoplot/oncoplot-utils.ts:429-455 | positions of the statistics, at most one per name |
| OncoplotFrame.NewFrameSpec | src/components/pages/modules/oncoplot/oncoplot-utils.ts:408-422 | a new frame without orders shows the whole table as it is |
| OncoplotFrame.PermutedView | src/components/pages/modules/oncoplot/oncoplot-utils.ts:485-503 | orders that are permutations show every cell of the table at exactly one position |
| OncoplotFrame.NewFrameHasOrders | src/components/pages/modules/oncoplot/oncoplot-utils.ts:418-421 | the constructor always gives non-empty orders or the natural ones |
| OncoplotFrame.SettersSpec | src/components/pages/modules/oncoplot/oncoplot-utils.ts:436-470 | the order setters touch only their own order, the last setting wins and the two commute |
| OncoplotFrame.EmptyOrderResets | src/components/pages/modules/oncoplot/oncoplot-utils.ts:418-434 | an empty order, or genes none of which is known, brings back every gene in its original position |
| OncoplotFrame.SetGenesSpec | src/components/pages/modules/oncoplot/oncoplot-utils.ts:424-434 | setGenes shows exactly the requested known genes, in the order requested |
| OncoplotFrame.ResetSampleOrderDropsSamples | src/components/pages/modules/oncoplot/oncoplot-utils.ts:481-483 | with one gene and two samples, resetSampleOrder as written shows only one sample, where the intended reset shows both |
| OncoplotFrame.ResetSampleOrderIntendedSpec | src/components/pages/modules/oncoplot/oncoplot-utils.ts:476-483 | the intended reset shows every sample in its original position |
| OncoplotMake.TallyRect | src/components/pages/modules/oncoplot/oncoplot-utils.ts:806-841 | the tallied table is rectangular |
| OncoplotMake.GeneMargins | src/components/pages/modules/oncoplot/oncoplot-utils.ts:887 | the statistics of each gene are its row margin |
| OncoplotMake.SampleMargins | src/components/pages/modules/oncoplot/oncoplot-utils.ts:887 | the statistics of each sample are its column margin |
| OncoplotMake.KeptSamples | src/components/pages/modules/oncoplot/oncoplot-utils.ts:892-896 | exactly the samples whose statistics sum above 0, ascending |
| OncoplotMake.Pick | src/components/pages/modules/oncoplot/oncoplot-utils.ts:898-906 | the elements at the kept positions, in order |
| OncoplotMake.PickColumns | src/components/pages/modules/oncoplot/oncoplot-utils.ts:903 | every row cut to the kept columns |
| OncoplotMake.Cells | src/components/pages/modules/oncoplot/oncoplot-utils.ts:808-811 | one cell per gene and sample, with its gene and sample |
| OncoplotMake.Named | src/components/pages/modules/oncoplot/oncoplot-utils.ts:814-820 | each margin under its name |
| OncoplotMake.PresentOf | src/components/pages/modules/oncoplot/oncoplot-utils.ts:995 | a cell is present exactly when its sum is above 0 |
| OncoplotMake.AddKeys | src/components/pages/modules/oncoplot/oncoplot-utils.ts:926-928 | the events collected so far and the new keys, each once |
| OncoplotMake.CollectEvents | src/components/pages/modules/oncoplot/oncoplot-utils.ts:917-945 | exactly the events in use in the gene statistics, the cells and the sample statistics, each once |
| OncoplotMake.MakeOncoPlot | src/components/pages/modules/oncoplot/oncoplot-utils.ts:780-957 | the frame is the specified one; the legend lists the events in use in legend order, each with its colour |
| OncoplotMake.MakeFrame | src/components/pages/modules/oncoplot/oncoplot-utils.ts:788-915 | the loops build exactly the specified frame |
| OncoplotMake.MakeTables | src/components/pages/modules/oncoplot/oncoplot-utils.ts:788-887 | the names, the table and the margins are those specified |
| OncoplotMake.MakeLegend | src/components/pages/modules/oncoplot/oncoplot-utils.ts:917-954 | the events in use, each once, and the legend names them in legend order with their colours |
| OncoplotMake.PickAll | src/components/pages/modules/oncoplot/oncoplot-utils.ts:898-906 | keeping every position keeps everything |
| OncoplotMake.PlotFrameArranged | src/components/pages/modules/oncoplot/oncoplot-utils.ts:887-915 | the frame is arranged from all samples, or from those removeEmpty keeps |
| OncoplotMake.PlotFrameParts | src/components/pages/modules/oncoplot/oncoplot-utils.ts:806-915 | a row of cells per gene with the cell of each kept sample, the statistics of every gene and of every kept sample |
| OncoplotMake.PlotCells | src/components/pages/modules/oncoplot/oncoplot-utils.ts:828-841 | each cell belongs to a gene and a sample of the rows and counts, for every type, the rows of its gene, sample and type; the cells of the first gene count nothing |
| OncoplotMake.PlotGeneMargins | src/components/pages/modules/oncoplot/oncoplot-utils.ts:887 | a gene's statistics add up to the number of samples in which it has a counted row, whatever the multi mode |
| OncoplotMake.PlotSampleMargins | src/components/pages/modules/oncoplot/oncoplot-utils.ts:887 | a kept sample's statistics add up to the number of genes with a counted row in it, whatever the multi mode |
| OncoplotMake.RemoveEmptyKeeps | src/components/pages/modules/oncoplot/oncoplot-utils.ts:889-907 | removeEmpty keeps exactly the samples with a row of a named gene other than the first in sorted order |
| OncoplotMake.ColumnSum | src/components/pages/modules/oncoplot/oncoplot-utils.ts:887-894 | a sample's statistics sum above 0 exactly when a row of a listed gene other than the first names it |
| OncoplotMake.SampleHasEvents | src/components/pages/modules/oncoplot/oncoplot-utils.ts:887-894 | a sample's statistics sum above 0 exactly when it has a row of a named gene other than the first |
| OncoplotMake.KeptHasRow | src/components/pages/modules/oncoplot/oncoplot-utils.ts:892-906 | a kept sample has a row of a counted gene |
| OncoplotMake.RowIsKept | src/components/pages/modules/oncoplot/oncoplot-utils.ts:892-906 | a row of a counted gene keeps its sample |
| OncoplotMake.SortedOrders | src/components/pages/modules/oncoplot/oncoplot-utils.ts:960-1023 | sorting orders genes by non-increasing sum and samples by non-increasing memo score, both as permutations |
| OncoplotMake.PlotOrders | src/components/pages/modules/oncoplot/oncoplot-utils.ts:909-915 | sorted, the orders are those permutations; unsorted, the natural orders |
| OncoplotMake.ArrangeOrders | src/components/pages/modules/oncoplot/oncoplot-utils.ts:909-915 | the orders of an arranged frame, sorted or natural |
| OncoplotMargins.Contribute | src/components/pages/modules/oncoplot/oncoplot-utils.ts:536-561 | the contribution of one cell to a margin is the specified one: MULTI once for several events in multi mode, equal shares in equalbar mode, count over sum otherwise |
| OncoplotMargins.CreateMarginals | src/components/pages/modules/oncoplot/oncoplot-utils.ts:528-564 | every gene's statistics are its row margin and every sample's statistics its column margin |
| OncoplotMargins.ContributeGene | src/components/pages/modules/oncoplot/oncoplot-utils.ts:535-562 | the cells of one gene complete its row margin and move every sample's margin on by that gene |
| OncoplotMargins.GenesStep | src/components/pages/modules/oncoplot/oncoplot-utils.ts:536-561 | one more cell extends the gene's margin by that cell |
| OncoplotMargins.SamplesStep | src/components/pages/modules/oncoplot/oncoplot-utils.ts:536-561 | one more cell extends the sample's margin by that cell |
| OncoplotMargins.GenesNext | src/components/pages/modules/oncoplot/oncoplot-utils.ts:534-535 | a finished gene row moves on to the next gene |
| OncoplotMargins.SamplesNext | src/components/pages/modules/oncoplot/oncoplot-utils.ts:534-535 | after a gene row every sample's margin covers that gene |
| OncoplotMargins.TotalPositive | src/components/pages/modules/oncoplot/oncoplot-utils.ts:551 | positive counts add up to a positive total unless there are none |
| OncoplotMargins.TotalRemoveAt | src/components/pages/modules/oncoplot/oncoplot-utils.ts:550-554 | taking a key out of a total takes out exactly its count |
| OncoplotMargins.TotalPermutation | src/components/pages/modules/oncoplot/oncoplot-utils.ts:550-554 | the total of a map's counts does not depend on the order of the keys |
| OncoplotMargins.EventsTotal | src/components/pages/modules/oncoplot/oncoplot-utils.ts:550-554 | the events of a map add up to its sum |
| OncoplotMargins.EntriesTotal | src/components/pages/modules/oncoplot/oncoplot-utils.ts:550-554 | entries pairing names with counts add up to the total of the names |
| OncoplotMargins.AddEventsSum | src/components/pages/modules/oncoplot/oncoplot-utils.ts:545-554 | adding the shares of a cell's events keeps the margin well formed and adds their total to its sum |
| OncoplotMargins.ShareTotalValue | src/components/pages/modules/oncoplot/oncoplot-utils.ts:543-552 | k equal shares make k/n, k fractions make their counts over the sum |
| OncoplotMargins.ContributionSum | src/components/pages/modules/oncoplot/oncoplot-utils.ts:536-561 | every cell with events adds exactly 1 to the sum of a margin in every mode, an empty cell adds nothing |
| OncoplotMargins.RowMarginSum | src/components/pages/modules/oncoplot/oncoplot-utils.ts:534-563 | a gene's statistics add up to the number of its cells with events |
| OncoplotMargins.ColMarginSum | src/components/pages/modules/oncoplot/oncoplot-utils.ts:534-563 | a sample's statistics add up to the number of its cells with events |
| OncoplotMargins.CountNonEmpty | src/components/pages/modules/oncoplot/oncoplot-utils.ts:534-563 | the count of cells with events is at most the number of cells |
| OncoplotMargins.CountNonEmptyPositive | src/components/pages/modules/oncoplot/oncoplot-utils.ts:534-563 | the count is positive exactly when some cell has events |
| OncoplotMargins.Column | src/components/pages/modules/oncoplot/oncoplot-utils.ts:535-536 | the column of a sample holds the cell of every gene for it |
| OncoplotMargins.SampleSumPositive | src/components/pages/modules/oncoplot/oncoplot-utils.ts:534-563 | a sample's statistics sum above 0 exactly when some gene has events in it |
| OncoplotPlot.PlotReducer | src/components/pages/modules/oncoplot/plot-context.tsx:45-60 | "clinical" replaces the tracks, "display" the display properties; everything else is kept |
| OncoplotPlot.RunSpec | src/components/pages/modules/oncoplot/plot-context.tsx:45-60 | no action changes the mutation frame; without "clinical" actions the tracks are kept |
| OncoplotPlot.SetTwice | src/components/pages/modules/oncoplot/plot-context.tsx:47-51 | setting the tracks twice keeps the second |
| OncoplotTable.Distinct | src/components/pages/modules/oncoplot/oncoplot-utils.ts:788-794 | the set of values, each once |
| OncoplotTable.NamesSpec | src/components/pages/modules/oncoplot/oncoplot-utils.ts:788-796 | the samples and the non-empty genes of the rows, sorted, each once |
| OncoplotTable.Find | src/components/pages/modules/oncoplot/oncoplot-utils.ts:798-833 | the index of a name, or none exactly when it is not listed |
| OncoplotTable.EmptyTable | src/components/pages/modules/oncoplot/oncoplot-utils.ts:806-811 | one empty cell per gene and sample |
| OncoplotTable.Tally | src/components/pages/modules/oncoplot/oncoplot-utils.ts:828-841 | the table is genes by samples |
| OncoplotTable.CountedGenes | src/components/pages/modules/oncoplot/oncoplot-utils.ts:833-835 | the genes a tally counts are among the listed ones |
| OncoplotTable.CountedGenesSpec | src/components/pages/modules/oncoplot/oncoplot-utils.ts:835 | passing over index 0 counts exactly the listed genes other than the first |
| OncoplotTable.TallyCounts | src/components/pages/modules/oncoplot/oncoplot-utils.ts:828-841 | each cell counts, per type, the rows of its gene, sample and type; as written the first gene's cells count nothing |
| OncoplotTable.FindNoDups | src/components/pages/modules/oncoplot/oncoplot-utils.ts:798-804 | without repeats a name is found at an index exactly when it is there |
| OncoplotTable.CellEvents | src/components/pages/modules/oncoplot/oncoplot-utils.ts:828-841 | a cell has events exactly when a row names its gene and sample (and it is not the first gene, as written) |
| OncoplotTable.SomeGeneMentioned | src/components/pages/modules/oncoplot/oncoplot-utils.ts:828-841 | some counted gene has a row with the sample exactly when some row of a counted gene names it |
| OncoplotTable.NamesNoDups | src/components/pages/modules/oncoplot/oncoplot-utils.ts:788-796 | neither name list repeats a name |
| OncoplotTable.TallyCellOk | src/components/pages/modules/oncoplot/oncoplot-utils.ts:838 | every cell is a well-formed map of positive counts |
| OncoplotTable.AddedPositive | src/components/pages/modules/oncoplot/oncoplot-utils.ts:838 | one more event keeps a map well formed and positive |
| OncoplotTable.TallyOk | src/components/pages/modules/oncoplot/oncoplot-utils.ts:828-841 | the whole table is made of well-formed maps of positive counts |
| OncoplotTable.FirstGeneEmpty | src/components/pages/modules/oncoplot/oncoplot-utils.ts:835 | `if (geneIndex)` leaves every cell of the first gene empty |
| OncoplotTable.FirstGeneDropped | src/components/pages/modules/oncoplot/oncoplot-utils.ts:835 | a single row of the only gene is counted by the intended tally and dropped by the one as written |
| OncoplotTable.Bump | src/components/pages/modules/oncoplot/oncoplot-utils.ts:838 | one more of the type in that cell, every other cell unchanged |
| OncoplotTable.TallyStep | src/components/pages/modules/oncoplot/oncoplot-utils.ts:828-841 | counting one more row as the loop does extends the tally by that row |
| OncoplotTable.BuildTable | src/components/pages/modules/oncoplot/oncoplot-utils.ts:828-841 | the loop builds exactly the tally as written |
| Overlap.ParseUid | src/modules/genomic/overlap.ts:25-27 | splitting always gives at least one piece |
| Overlap.ParseUidMakeUid | src/modules/genomic/overlap.ts:21-27 | the sample id comes back out of a uid when it holds no '=', and so does the location text when that holds none either |
| Overlap.ParseUidNamed | src/modules/genomic/overlap.ts:21-27 | a sample id that is not empty and does not start with '=' gives a uid whose first piece is not empty |
| Overlap.AddTo | src/modules/genomic/overlap.ts:44 | adding to a set keeps its members and adds the new one, never twice |
| Overlap.AddToBinsMembers | src/modules/genomic/overlap.ts:199-205 | exactly the bins from binStart to binEnd gain the uid |
| Overlap.FilePeaks | src/modules/genomic/overlap.ts:186-187 | one peak per location of a file |
| Overlap.UidList | src/modules/genomic/overlap.ts:189 | one uid per peak |
| Overlap.UidListSpec | src/modules/genomic/overlap.ts:183-189 | `uids` lists every peak's uid, in input order |
| Overlap.LocMapSpec | src/modules/genomic/overlap.ts:194 | every peak's uid has a location, and every stored location is that of a peak with that uid |
| Overlap.BinIndexMembers | src/modules/genomic/overlap.ts:196-205 | each bin holds exactly the peaks spanning it, in input order |
| Overlap.SpannersNoDups | src/modules/genomic/overlap.ts:200-204 | a bin lists each uid once |
| Overlap.SpannersWitness | src/modules/genomic/overlap.ts:196-205 | a uid in a bin belongs to a peak spanning the bin |
| Overlap.SpannersHave | src/modules/genomic/overlap.ts:196-205 | every peak spanning a bin has its uid in the bin |
| Overlap.PeakStep | src/modules/genomic/overlap.ts:186-206 | one more peak appends its uid, stores its location and adds it to its bins |
| Overlap.AllPeaksStep | src/modules/genomic/overlap.ts:183-207 | one more file appends its peaks |
| Overlap.IndexPeaks | src/modules/genomic/overlap.ts:178-207 | the loops build exactly the uid list, the location map and the bin index of the peaks |
| Overlap.AddToAllBins | src/modules/genomic/overlap.ts:199-205 | the loop adds the uid to every bin from binStart to binEnd |
| Overlap.AddAllExceptHas | src/modules/genomic/overlap.ts:40-46 | the candidates of a bin are those collected and the bin's uids other than uid1 |
| Overlap.AddAllExceptNoDups | src/modules/genomic/overlap.ts:40-46 | adding a bin keeps the candidates free of repeats |
| Overlap.BinsUnionWitness | src/modules/genomic/overlap.ts:36-47 | every candidate is in one of the peak's bins and is not the peak itself |
| Overlap.BinsUnionHave | src/modules/genomic/overlap.ts:36-47 | every other uid in one of the peak's bins is a candidate |
| Overlap.BinsUnionNoDups | src/modules/genomic/overlap.ts:34-47 | the candidates hold no uid twice |
| Overlap.GetTestUids | src/modules/genomic/overlap.ts:29-50 | the loops collect exactly the candidates of the peak's bins other than the peak, in iteration order |
| OverlapGroups.GroupSpec | src/modules/genomic/overlap.ts:115-134 | the running intersection lies inside the first peak and every member grown with it; every member is an unused candidate with a location; without members it is the first peak |
| OverlapGroups.GroupNoDups | src/modules/genomic/overlap.ts:121-134 | a round never lists a candidate twice |
| OverlapGroups.GroupMembers | src/modules/genomic/overlap.ts:121-134 | every member of a round is a candidate |
| OverlapGroups.FormGroup | src/modules/genomic/overlap.ts:112-134 | the group is uid1 followed by the round's members, under the round's intersection |
| OverlapGroups.NamedHas | src/modules/genomic/overlap.ts:147-149 | the members marked used are exactly those with a sample id |
| OverlapGroups.FileAllSound | src/modules/genomic/overlap.ts:145-156 | filing members that have locations keeps every filed uid a known peak |
| OverlapGroups.FileSound | src/modules/genomic/overlap.ts:151 | filing one member with a location keeps the map sound |
| OverlapGroups.FileAllOthers | src/modules/genomic/overlap.ts:145-156 | filing a group leaves the rows of the other keys alone |
| OverlapGroups.FileAllEntries | src/modules/genomic/overlap.ts:145-156 | after filing, every named member's sample has an entry under the key |
| OverlapGroups.NamedWithin | src/modules/genomic/overlap.ts:147-154 | the members marked used are members of the group |
| OverlapGroups.FileSnoc | src/modules/genomic/overlap.ts:145-156 | one more member is filed under its sample when it has one |
| OverlapGroups.NamedSnoc | src/modules/genomic/overlap.ts:149-154 | one more member is marked used when it has a sample id |
| OverlapGroups.FileGroup | src/modules/genomic/overlap.ts:145-156 | the loop files exactly the named members and marks exactly them used and allocated |
| OverlapGroups.CandidatesNamed | src/modules/genomic/overlap.ts:29-50 | every candidate has a sample id when every uid in the bins has one |
| OverlapGroups.Mcr | src/modules/genomic/overlap.ts:61-173 | every peak with a location ends up allocated, only peaks with locations are allocated, and every filed uid is a known peak |
| OverlapGroups.AllPeaksWitness | src/modules/genomic/overlap.ts:183-189 | every peak of the input is the uid and location of a location of some file |
| OverlapGroups.IndexFacts | src/modules/genomic/overlap.ts:175-207 | every uid in the bins has a sample id, and every stored location comes from the input |
| OverlapGroups.OverlappingPeaks | src/modules/genomic/overlap.ts:175-212 | the location map is that of the input peaks and the grouped map files only known peaks |
| OverlapTable.Titled | src/modules/genomic/overlap.ts:228-230 | each sample id under a column title |
| OverlapTable.Header | src/modules/genomic/overlap.ts:221-232 | "Genomic Location", "Width", "# Overlapping Peaks", the sample, peak and overlap columns of every sample, then "Region" |
| OverlapTable.SpanBounds | src/modules/genomic/overlap.ts:296-299 | the region spans every found peak and its ends are attained |
| OverlapTable.SampleCells | src/modules/genomic/overlap.ts:261-263 | one uid cell per sample |
| OverlapTable.PeakCells | src/modules/genomic/overlap.ts:267-277 | one peak cell per sample |
| OverlapTable.PercentCells | src/modules/genomic/overlap.ts:281-292 | one overlap cell per sample |
| OverlapTable.OverlapRow | src/modules/genomic/overlap.ts:239-303 | a row exists only for a key that parses and has a sample with a peak, and then has one cell per header column |
| OverlapTable.RowCells | src/modules/genomic/overlap.ts:239-303 | the key, its width, the number of samples under it, the sample, peak and overlap cells, then the spanning region |
| OverlapTable.OverlapRowParsed | src/modules/genomic/overlap.ts:239-303 | a key that parses with a sample that has a peak gives its row, whose region covers every peak found |
| OverlapTable.KeyList | src/modules/genomic/overlap.ts:236 | every key of the map, each once |
| OverlapTable.OverlapRows | src/modules/genomic/overlap.ts:236-304 | all rows exactly when every key's row succeeds, each the row of its key |
| OverlapTable.CreateOverlapTable | src/modules/genomic/overlap.ts:214-307 | the keys sorted; a table exactly when no key is undefined and every row succeeds, with the header and one row per sorted key |
| PlotLists.WithoutId | src/components/pages/modules/oncoplot/plots-context.tsx:86 | removing never lengthens the list |
| PlotLists.WithoutIdSpec | src/components/pages/modules/oncoplot/plots-context.tsx:86 | exactly the plots with another id stay |
| PlotLists.WithoutIdAppend | src/components/pages/modules/oncoplot/plots-context.tsx:86 | the plots that stay keep their order |
| PlotLists.WithoutIdIdempotent | src/components/pages/modules/oncoplot/plots-context.tsx:83-87 | removing the same id twice removes nothing more |
| PlotLists.PlotsReducer | src/components/pages/modules/oncoplot/plots-context.tsx:50-94 | "add" appends one plot and keeps the others, "set" leaves only the new plot, "remove" keeps the plots with another id, "clear" empties the list, anything else keeps it |
| PlotLists.AddDefaults | src/components/pages/modules/oncoplot/plots-context.tsx:61-62 | a plot added without a name or id is named "<prefix> n", n the new number of plots, and gets the fresh id |
| PlotLists.OncoplotPlotsReducer | src/components/pages/modules/oncoplot/plots-context.tsx:55-68 | an added plot without a name is called "Oncoplot n" |
| PlotLists.LollipopPlotsReducer | src/components/pages/modules/lollipop/plots-context.tsx:60-71 | an added plot without a name is called "Lollipop n" |
| PlotProps.PropsMap.constructor | src/components/pages/modules/matcalc/plot-props-context.tsx:36 | the Map holds the given entries |
| PlotProps.PropsMap.Set | src/components/pages/modules/matcalc/plot-props-context.tsx:73 | `set` replaces the entry of the id and keeps the others |
| PlotProps.FromEntries | src/components/pages/modules/matcalc/plot-props-context.tsx:47-53 | every entry's id is in the Map, and every value in it was given for its id |
| PlotProps.FromEntriesLast | src/components/pages/modules/matcalc/plot-props-context.tsx:47-53 | the value kept for an id is the one of its last entry |
| PlotProps.Fresh | src/components/pages/modules/matcalc/plot-props-context.tsx:50-61 | exactly the entries whose ids are absent from the Map, in order |
| PlotProps.AddedSpec | src/components/pages/modules/matcalc/plot-props-context.tsx:44-54 | "add" keeps every existing entry and adds exactly the absent ids, each with a value given for it |
| PlotProps.SetFrom | src/components/pages/modules/matcalc/plot-props-context.tsx:56-64 | "set" holds only entries given for ids that were absent, and all of them |
| PlotProps.PlotPropsReducer | src/components/pages/modules/matcalc/plot-props-context.tsx:39-82 | "update" writes into the Map the state shares and returns that Map; every other action leaves the old Map alone and builds the specified new one |
| Proteins.ResultAt | src/components/pages/modules/lollipop/protein-context.tsx:63-69 | a result exactly when the index is inside the list, and then one of the results |
| Proteins.ProteinReducer | src/components/pages/modules/lollipop/protein-context.tsx:54-83 | "set" replaces the search and picks the result at the index or 0; "selected" picks from the current search; "update" replaces the protein; "clear" restores the defaults |
| Proteins.SelectAfterSet | src/components/pages/modules/lollipop/protein-context.tsx:59-70 | selecting the result the last "set" chose changes nothing |
| Proteins.RunKeepsSearch | src/components/pages/modules/lollipop/protein-context.tsx:54-83 | without "set" and "clear" the search never changes, and the protein is the old one, undefined, a result, or one some "update" gave |
| Search.Precedence | src/lib/search.ts:3-11 | AND binds tighter than OR, both associate to the left, and "(" is never popped by an operator |
| Search.AndRun | src/lib/search.ts:53 | a run of " AND" lies within the text |
| Search.DropSpaces | src/lib/search.ts:57 | `trimStart` leaves no leading space |
| Search.SqueezeSpaces | src/lib/search.ts:56 | every run of spaces becomes one space, and the first character stays |
| Search.Tokens | src/lib/search.ts:48-61 | at least one token, none holding a space (which tokens two words give is stated by Search.SpaceMeansAnd, Search.AndKept, Search.PlusMeansAnd, Search.OrKept and Search.AndOrKept) |
| Search.TokensNonEmpty | src/lib/search.ts:48-61 | every token but the last is a non-empty word |
| Search.AndRunsCollapse | src/lib/search.ts:49-53 | "w AND v" becomes "w AND AND v" and then "w AND v" again |
| Search.CollapseAfter | src/lib/search.ts:53 | text without an 'A' is passed over unchanged |
| Search.AndRunMiddle | src/lib/search.ts:53 | " AND AND v" becomes " AND v" |
| Search.CollapseKeeps | src/lib/search.ts:53 | a character other than 'A' is kept |
| Search.CollapseRun | src/lib/search.ts:53 | "AND AND v" becomes "AND v" |
| Search.RunPieces | src/lib/search.ts:53 | where the pieces of "AND AND v" are |
| Search.CollapsePlain | src/lib/search.ts:53 | text without an 'A' is unchanged |
| Search.CollapseAndStep | src/lib/search.ts:53 | at "AND AND" the run of ANDs after the first is dropped |
| Search.AndRunOne | src/lib/search.ts:53 | the run after "AND" in "AND AND v" is one " AND" |
| Search.AndRunSpace | src/lib/search.ts:53 | a space followed by text without 'A' starts no run |
| Search.CollapseAndWord | src/lib/search.ts:53 | "AND v" with no 'A' in v is left alone |
| Search.CollapseSingle | src/lib/search.ts:53 | a single " AND " between words survives the collapse |
| Search.CollapseRun3 | src/lib/search.ts:53 | "AND AND AND v" becomes "AND v" |
| Search.Run3Pieces | src/lib/search.ts:53 | where the pieces of "AND AND AND v" are |
| Search.AndRunTwo | src/lib/search.ts:53 | the run after "AND" in "AND AND AND v" is two " AND"s |
| Search.CollapseRunOr | src/lib/search.ts:53 | "AND AND OR v" becomes "AND OR v" |
| Search.RunOrPieces | src/lib/search.ts:53 | where the pieces of "AND AND OR v" are |
| Search.AndRunBeforeOr | src/lib/search.ts:53 | the run after "AND" in "AND AND OR v" is one " AND" |
| Search.MiddlePieces | src/lib/search.ts:53 | where the pieces of " AND AND v" are |
| Search.CollapseTriple | src/lib/search.ts:53 | three ANDs between two words collapse to one |
| Search.CollapseAndOr | src/lib/search.ts:53 | "AND AND OR" between two words collapses to "AND OR" |
| Search.PlainReplacements | src/lib/search.ts:50-55 | text with no '+', 'O' or parenthesis passes the replacements after the first unchanged |
| Search.NoParens | src/lib/search.ts:54-55 | text with no parenthesis passes the parenthesis replacements unchanged |
| Search.SpacedOne | src/lib/search.ts:49 | the space between two words becomes " AND " |
| Search.SpacedFrom | src/lib/search.ts:49 | " m v" for space-free m and v becomes " AND m AND v" |
| Search.SpacedMiddle | src/lib/search.ts:49 | "w m v" for space-free words becomes "w AND m AND v" |
| Search.SpacedAnd | src/lib/search.ts:49 | "w AND v" becomes "w AND AND AND v" |
| Search.SpacedPlus | src/lib/search.ts:49 | "w + v" becomes "w AND + AND v" |
| Search.SpacedOr | src/lib/search.ts:49 | "w OR v" becomes "w AND OR AND v" |
| Search.PlusReplaced | src/lib/search.ts:50 | in "w AND + AND v" the " + " becomes " AND " |
| Search.OrReplaced | src/lib/search.ts:51-52 | "AND OR" and then "OR AND" each become "OR", leaving "w OR v" |
| Search.AndOrSpaced | src/lib/search.ts:49 | "w AND OR v" becomes "w AND AND AND OR AND v" |
| Search.AndOrFirst | src/lib/search.ts:51 | only the AND right before OR is removed |
| Search.AndOrSecond | src/lib/search.ts:52 | then only the AND right after OR is removed |
| Search.NotAndOr | src/lib/search.ts:51 | "AND" followed by another "AND" does not start "AND OR" |
| Search.TripleRest | src/lib/search.ts:50-55 | with three ANDs between two words the later replacements leave one AND |
| Search.SqueezeJoin | src/lib/search.ts:56 | the squeeze leaves words joined by single spaces unchanged |
| Search.TokensOfRewrite | src/lib/search.ts:56-61 | when the rewrite gives space-free words joined by single spaces, those words are the tokens |
| Search.RewriteSteps | src/lib/search.ts:48-55 | the rewrite is its seven replacements in order |
| Search.TokensAnd | src/lib/search.ts:56-61 | a query rewritten to "w AND v" splits into w, AND, v |
| Search.TokensOr | src/lib/search.ts:56-61 | a query rewritten to "w OR v" splits into w, OR, v |
| Search.TokensAndOr | src/lib/search.ts:56-61 | a query rewritten to "w AND OR v" splits into w, AND, OR, v |
| Search.SpaceMeansAnd | src/lib/search.ts:48-61 | for two plain words, "w v" gives the tokens w, AND, v |
| Search.AndKept | src/lib/search.ts:48-61 | "w AND v" gives the tokens w, AND, v: the extra ANDs added by the spaces collapse away |
| Search.PlusMeansAnd | src/lib/search.ts:48-61 | "w + v" gives the tokens w, AND, v |
| Search.OrKept | src/lib/search.ts:48-61 | "w OR v" gives the tokens w, OR, v: the ANDs added around OR are removed |
| Search.AndOrRewrite | src/lib/search.ts:48-55 | "w AND OR v" is rewritten to itself |
| Search.AndOrKept | src/lib/search.ts:48-61 | "w AND OR v" gives the tokens w, AND, OR, v, so it does not mean the same as "w OR v" |
| Search.OrWordLosesAnd | src/lib/search.ts:48-61 | for plain words w and x, "w ORx" gives just the tokens w and "ORx", with no AND between them, because the replacements ignore word boundaries; "EGFR ORF1" gives "EGFR" and "ORF1" |
| Search.PopToOpen | src/lib/search.ts:86-92 | popping stops with "(" on top |
| Search.BalancedPrefix | src/lib/search.ts:63-100 | a prefix of a balanced token list is balanced |
| Search.Run | src/lib/search.ts:63-100 | the stack holds as many "(" as are still open |
| Search.PopWhileCount | src/lib/search.ts:70-79 | popping operators leaves the count of "(" alone |
| Search.PopToOpenCount | src/lib/search.ts:86-92 | popping down to "(" leaves the count of "(" alone |
| Search.StepCount | src/lib/search.ts:64-99 | one token adds one "(" for "(", removes one for ")", and leaves the count alone otherwise |
| Search.OpCount | src/lib/search.ts:65-81 | an operator leaves the count of "(" alone |
| Search.CloseCount | src/lib/search.ts:86-95 | ")" takes one "(" from the stack |
| Search.PushCount | src/lib/search.ts:80-84 | pushing adds one to the count exactly for "(" |
| Search.PopOpenCount | src/lib/search.ts:94 | popping the "(" on top takes one from the count |
| Search.RunSnoc | src/lib/search.ts:63-100 | the loop over one more token is one more step |
| Search.PopOperators | src/lib/search.ts:68-79 | the loop pops exactly the operators that bind before o1 |
| Search.PopToParen | src/lib/search.ts:87-92 | the loop pops exactly down to the nearest "(" |
| Search.FlushStack | src/lib/search.ts:102-104 | the final loop pops every operator left, top first |
| Search.RunTokens | src/lib/search.ts:63-100 | the loop computes the specified output and stack |
| Search.ToRPN | src/lib/search.ts:39-107 | the output is the postfix form of the rewritten tokens |
| Search.PopOne | src/lib/search.ts:77-103 | moving the top operator to the output keeps the terms, the operators and the open count |
| Search.PopWhileKeeps | src/lib/search.ts:70-79 | popping operators keeps the terms and every operator either output or on the stack |
| Search.PopToOpenKeeps | src/lib/search.ts:86-92 | popping to "(" keeps the terms and every operator either output or on the stack |
| Search.FlushKeeps | src/lib/search.ts:102-104 | the final flush outputs every operator left and keeps the terms |
| Search.ScanBalanced | src/lib/search.ts:63-100 | a well-built query is balanced and its open count is the "(" minus the ")" |
| Search.StepKeeps | src/lib/search.ts:64-99 | one token adds a term to the output or an operator to output and stack, and keeps the rest |
| Search.OpKeeps | src/lib/search.ts:65-81 | an operator joins the output or stack and lowers the value height by one |
| Search.OpenKeeps | src/lib/search.ts:83-85 | "(" changes no output and no operator |
| Search.CloseKeeps | src/lib/search.ts:86-95 | ")" moves operators to the output and keeps the terms |
| Search.TermKeeps | src/lib/search.ts:96-98 | a term is output in order and raises the value height by one |
| Search.StepDepth | src/lib/search.ts:64-99 | how one accepted token moves the value height |
| Search.RunKeeps | src/lib/search.ts:63-100 | after the loop the terms are output in order and every operator token is output or waiting |
| Search.RunDepth | src/lib/search.ts:63-100 | the value height is the number of waiting operators, plus one after a term |
| Search.RunDepthStep | src/lib/search.ts:63-100 | the value height after one more accepted token |
| Search.RunLast | src/lib/search.ts:63-100 | the loop over a non-empty list is one more step after its prefix |
| Search.ScanLast | src/lib/search.ts:63-100 | the scan state after a well-built prefix follows from its last token |
| Search.FlushOperands | src/lib/search.ts:102-104 | the final flush adds no term |
| Search.TermsInOrder | src/lib/search.ts:39-107 | the terms appear in the output in input order |
| Search.NoParensInOutput | src/lib/search.ts:39-107 | with every parenthesis closed, the output holds only terms and AND/OR, one operator node per AND/OR token |
| Search.FlushComplete | src/lib/search.ts:102-104 | the final flush of a complete query leaves exactly one value |
| Search.ValidPostfix | src/lib/search.ts:39-107 | for a well-built query the output is valid postfix that evaluates to exactly one value |
| StrOrder.LexLeRefl | src/modules/genomic/overlap.ts:237 | the default sort order is reflexive |
| StrOrder.LexLeTotal | src/modules/genomic/overlap.ts:237 | any two strings are ordered one way or the other |
| StrOrder.LexLeTrans | src/modules/genomic/overlap.ts:237 | the order is transitive |
| StrOrder.LexLeAntisym | src/modules/genomic/overlap.ts:237 | strings ordered both ways are equal |
| StrOrder.InsertBy | src/modules/genomic/overlap.ts:237 | inserting adds one element |
| StrOrder.SortBy | src/modules/genomic/overlap.ts:237 | sorting keeps the length |
| StrOrder.InsertByElements | src/modules/genomic/overlap.ts:237 | inserting adds exactly that element |
| StrOrder.InsertBySorted | src/modules/genomic/overlap.ts:237 | inserting into a sorted list keeps it sorted |
| StrOrder.SortBySpec | src/modules/genomic/overlap.ts:237 | the sort is sorted and rearranges exactly the elements |
| StrOrder.SortedUnique | src/modules/genomic/overlap.ts:237 | two sorted arrangements of the same strings are equal |
| StrOrder.SortStrings | src/modules/genomic/overlap.ts:236-237 | sorting keys keeps their number |
| StrOrder.SortedKeys | src/modules/genomic/overlap.ts:236-237 | sorting distinct keys gives the same keys sorted and distinct |
| Tabs.TabId | src/components/tab-provider.tsx:55-57 | the id, else the name, else "" for no tab |
| Tabs.FirstMatch | src/components/tab-provider.tsx:88-95 | the first tab from k whose id or name contains the value, or -1 when none does |
| Tabs.SelectedIndex | src/components/tab-provider.tsx:80-97 | 0 without a value; otherwise the first matching tab, or 0 when none matches |
| Tabs.GetTabFromValue | src/components/tab-provider.tsx:71-98 | undefined exactly when there are no tabs; otherwise the selected index and its tab |
| Tabs.FirstMatchAt | src/components/tab-provider.tsx:88-95 | the first match is at i when i matches and nothing before it does |
| Tabs.SelectById | src/components/tab-provider.tsx:71-98 | selecting by a tab's own id picks it, or an earlier tab that also contains that id |
| Urls.AmpSpec | src/lib/urls.ts:12 | every character is from "and" or a character of the tag other than '&'; without '&' the tag is unchanged |
| Urls.AmpEnds | src/lib/urls.ts:12 | the ends stay, with '&' spelled out |
| Urls.AmpIsReplaceAll | src/lib/urls.ts:12 | spelling '&' out is `replaceAll("&", "and")` |
| Urls.DashRun | src/lib/urls.ts:13 | the run of spaces and hyphens starting at k |
| Urls.CollapseSpec | src/lib/urls.ts:13 | each run of spaces and hyphens becomes one hyphen, other characters stay |
| Urls.CollapseLast | src/lib/urls.ts:13 | the last character stays, or becomes a hyphen for a trailing run |
| Urls.CollapseNoDoubleDash | src/lib/urls.ts:13 | no two hyphens in a row |
| Urls.CollapseFixed | src/lib/urls.ts:13 | a string without spaces or doubled hyphens is unchanged |
| Urls.LowerCharSpace | src/lib/urls.ts:10-11 | lower-casing neither makes nor removes a space |
| Urls.TagSpec | src/lib/urls.ts:8-14 | a URL-friendly tag is trimmed, lower-case, without '&', space or doubled hyphen |
| Urls.LowerTrimmed | src/lib/urls.ts:10-11 | lower-casing keeps a string trimmed |
| Urls.AmpTrimmed | src/lib/urls.ts:11-12 | spelling '&' out keeps a trimmed lower-case string so |
| Urls.CollapseTrimmed | src/lib/urls.ts:12-13 | collapsing keeps a trimmed lower-case string so and leaves no space or doubled hyphen |
| Urls.TrimFixed | src/lib/urls.ts:10 | trimming a trimmed string changes nothing |
| Urls.LowerFixed | src/lib/urls.ts:11 | lower-casing a lower-case string changes nothing |
| Urls.TagIdempotent | src/lib/urls.ts:8-14 | `getUrlFriendlyTag` is idempotent |
| Urls.TagKeepsOut | src/lib/urls.ts:8-14 | no step adds a character other than letters, "and" and '-' |
| Urls.FriendlyImgSpec | src/lib/urls.ts:16-26 | a single size names the image as that width and height; the name is the tag, '-' and the width |
| Urls.ImgParts | src/lib/urls.ts:25 | where the parts of an image name sit |
| Urls.StripMd | src/lib/urls.ts:34 | the path, or the path without its final ".md" |
| Urls.Segments | src/lib/urls.ts:33-36 | the segments hold no separator |
| Urls.JoinHolds | src/lib/urls.ts:38 | every piece is part of the join |
| Urls.Tags | src/lib/urls.ts:28-37 | the tag of each segment, in order |
| Urls.SlugSegments | src/lib/urls.ts:32-39 | a slug splits back into the tags of the path's segments |
| Urls.JoinSnoc | src/lib/urls.ts:38 | joining one more piece adds the separator and the piece |
| Urls.SlugDirSpec | src/lib/urls.ts:41-44 | the directory is the tags of all segments but the last |
| Urls.SlugDirLast | src/lib/urls.ts:41-44 | with two or more segments the slug is the directory, '/', and the last tag |
| Urls.SlugJoin | src/lib/urls.ts:38-43 | the slug in terms of its directory and last tag |
| Urls.JoinInit | src/lib/urls.ts:38-43 | a join is the join of all but the last, the separator, and the last |
| Urls.LineEnd | src/lib/urls.ts:47 | the first line terminator, or the end |
| Urls.LastSlashBelow | src/lib/urls.ts:47 | the last '/' with a character before it on the first line, or -1 |
| Urls.DropDir | src/lib/urls.ts:47 | `replace(/^.+\//, "")` drops up to the last such '/' |
| Urls.CanonicalSlugSpec | src/lib/urls.ts:46-48 | the canonical slug is the last tag when the directory is not empty, the slug otherwise |
| Urls.DropDirNoSlash | src/lib/urls.ts:47 | a string without '/' is unchanged |
| Urls.DropDirLast | src/lib/urls.ts:47 | dropping the directory of dir/last leaves last when dir is not empty |
| Urls.FirstDate | src/lib/urls.ts:51 | the first position where a date matches, or -1 |
| Urls.DateFromSlug | src/lib/urls.ts:50-53 | a date: the matched text, or "2022-01-01" |
| Urls.DateFromSlugFirst | src/lib/urls.ts:50-53 | the date of the first match, and the default when nothing matches |
| Utils.Without | src/lib/utils.ts:23-26 | the array without the element at moveIndex |
| Utils.MovePlaces | src/lib/utils.ts:22-32 | `move` keeps the length, puts the item at toIndex and the others in order |
| Utils.MoveSplices | src/lib/utils.ts:22-32 | `move` inserts the item at toIndex into the rest |
| Utils.InsertPieces | src/lib/utils.ts:27-31 | inserting x at t puts it there and removing it gives back the rest |
| Utils.MovePermutes | src/lib/utils.ts:22-32 | `move` is a permutation |
| Utils.RemovePieces | src/lib/utils.ts:23-26 | removing and re-inserting at the same place gives back the array |
| Utils.InsertMultiset | src/lib/utils.ts:27-31 | inserting adds exactly one x |
| Utils.MoveInPlace | src/lib/utils.ts:22-32 | moving an item to its own position changes nothing |
| Utils.Zip | src/lib/utils.ts:75-79 | one row per element of the first column holding the i-th of every column; no columns fails |
| Utils.ZipTwice | src/lib/utils.ts:75-79 | zipping equal non-empty columns twice gives them back |
| Utils.MakeRandId | src/lib/utils.ts:71-73 | the prefix, ':' and a 12-character id |
| Genomic.Cleaned | src/modules/genomic/genomic.ts:110-112 | dropping commas and turning ':' into '-' never lengthens the text |
| GenomicLines.NoDigitsNaN | src/modules/genomic/genomic.ts:161-165 | `parseInt` of a text without digits is NaN |
| GenomicLines.PrintedLines | src/modules/genomic/genomic.ts:52-54 | one printed line per location |
| GenomicLines.DigitsLineLocation | src/modules/genomic/genomic.ts:183-184 | the line "chr:a-b" gives what parseLocation reads from it |
| LollipopData.MissenseIsMissense | src/components/pages/modules/lollipop/lollipop-utils.ts:373-388 | the variant "missense" reads as a missense change |
| LollipopData.V2In600 | src/components/pages/modules/lollipop/lollipop-utils.ts:332 | "600V>E" reads as 600, V and E in the second notation |
| LollipopData.NoSubIn600 | src/components/pages/modules/lollipop/lollipop-utils.ts:331 | "600V>E" has no match of the first substitution pattern |
| MemoSort.SortDescRanked | src/components/pages/modules/oncoplot/oncoplot-utils.ts:965-968 | the stable descending sort is ranked |
| MemoSort.RankedSorted | src/components/pages/modules/oncoplot/oncoplot-utils.ts:965-968 | a ranked order has no repeats, its keys never increase and equal keys keep index order |
| OncoplotMake.Kept | src/components/pages/modules/oncoplot/oncoplot-utils.ts:889-907 | the kept positions are positions of samples |
| OncoplotMake.SumsOf | src/components/pages/modules/oncoplot/oncoplot-utils.ts:911-913 | the sum of every gene's statistics |
| OncoplotMake.ArrangeParts | src/components/pages/modules/oncoplot/oncoplot-utils.ts:909-915 | the frame holds the cells and margins it is built from, sorted or not |
| OncoplotEvents.FilterAll | src/components/pages/modules/oncoplot/oncoplot-utils.ts:516-522 | a filter that passes everything keeps the list |

## Left out

- GenomicLines.ParsedLocations: coordinates are integers, so a line whose start or end does not read as a number makes the whole list a Failure("NaN"). In src/modules/genomic/genomic.ts:176-199 such a line gives a location with NaN coordinates, and reading goes on with the next line.
- GenomicLines.LineOfTokens: the same difference for one line. A NaN coordinate gives Failure("NaN") instead of a location holding NaN.
- EventCounts.Events: sorts event names by UTF-16 code unit. The source sorts them with `localeCompare` (src/components/pages/modules/oncoplot/oncoplot-utils.ts:289-290), so orders differ for mixed case and accented letters, and so does the order in which margins receive their shares.
- LollipopStatistics.LollipopStats.EventCounts: the same code-unit order instead of `localeCompare` (src/components/pages/modules/lollipop/lollipop-utils.ts:304).
- GenesDownloader.ClosestGeneOffset: requires a well-formed `.gbi` header: three words, a positive page size and one offset per page. On a short index the source reads `undefined` and goes on with NaN offsets.
- GenesDownloader.DownloadGenes: requires the same well-formed `.gbi` header.
- GenesDownloader.GetWithinTranscripts: requires the same well-formed `.gbi` header.
- GenesDownloader.ClosestTranscript: requires the same well-formed `.gbi` header.
- GenesDownloader.ClosestTranscripts: requires the same well-formed `.gbi` header, and the gene's block of 11 offsets inside the `.gbc` table.
- GenesDownloader.GetClosestTranscriptsUsingIndex: requires the block of offsets it reads to lie inside the `.gbc` table. Past the end the source reads `undefined`.
- DataFrames.DataFrame.SetCol: requires the new column to be no longer than the table. With a longer column the source throws a TypeError when it writes past the last row (src/lib/dataframe/dataframe.ts:70-82).
- DataFrames.DataFrame.UpdateCol: the same bound as SetCol.
- Strs.Lower: lower-cases ASCII letters only. JavaScript `toLowerCase` also maps other Unicode letters.
- Strs.LowerChar: ASCII only, as for Strs.Lower. Through it, Urls.Tag (`getUrlFriendlyTag`), ClinicalHeaders.IsMulti and the case-insensitive name look-ups treat non-ASCII letters as they are.
- Strs.IsSpace: space, tab, line feed, carriage return, vertical tab and form feed only. JavaScript `trim` also removes the other Unicode white space. This affects Strs.Trim, Urls.Tag and Cell.IsNA.
- EventCounts.Added: counts are `real`. The tallies of the oncoplot and the clinical tracks are whole numbers and the margins add fractions, so one number type serves both. There is no limit on the size of a count.
- Cell.ToText: an infinite cell's text ("Infinity", "-Infinity") is not modelled, since the model has no infinite cells. The exponent form from 10^21 on is modelled, as the host's `toString` printer.
- Cell.ToText: JavaScript `null` and `undefined` are both the cell Null, whose text is "null". Calling `.toString()` on them in src/components/pages/modules/oncoplot/clinical-utils.ts:205 and :222 throws instead.
- ClinicalTracks.LoadCellInto: a numeric track stores the number read from the cell. The source stores the raw cell value once it reads as a number (clinical-utils.ts:218), so a text cell such as "42" is stored as text there.
- HCluster.LinkOf: the linkage is a function to `real`. The NaN and Infinity that the source's reduce can produce from an empty or NaN list of distances are not modelled.
- Search.ToRPN: requires the tokens to have balanced parentheses. On a `)` without an open `(` the source's loop (src/lib/search.ts:88-92) never ends, and a run that does not end has no result to model.
- Search.RunTokens: the same requirement as Search.ToRPN.
- OverlapGroups.OverlappingPeaks: requires sample ids that are not empty and do not start with '='. With an empty sample id a group member is never marked used, and the source repeats the same round forever (src/modules/genomic/overlap.ts:111-167).
- OverlapGroups.Mcr: requires what OverlappingPeaks establishes, namely that every uid in the bins has a sample id and every location is formatted.
- History.ReducePreservesValid: does not cover `remove`, nor `goto` of a name no step holds. Those actions break the cursor in the source; History.RemoveFirstStep and History.UnknownStepName state what they do instead.
- LollipopData.MakeLollipopData: always takes the protein. The source's fallback, which takes the protein length from the largest position when no protein is given, is not modelled.
- LollipopStatistics.LollipopStats.EventCounts: the `countMap` getter returns a shallow copy whose sets are shared with the object. That aliasing is not modelled: the model returns values.
- Cell.MakeCell: JavaScript `Number()` text parsing and date parsing (`parseISO`) are parameters (`Parsers`). Non-integer number formatting (`toFixed`) is a parameter too (`Formats`).
- Cell.MakeCell: `Number(arg)` turns "Infinity", "-Infinity" and "1e400" into the numbers Infinity and -Infinity (src/lib/dataframe/cell.ts:32-36). `Number` has no value for them, so the model's parser cannot return them and no cell of the model holds an infinity.
- Cell.CellStr: an infinite cell prints as "Infinity" or "-Infinity" in the source (src/lib/dataframe/cell.ts:63-66); the model has no infinite cells, so this case is not modelled. The exponent form from 10^21 on is modelled, as the host's `toString` printer (`Formats.plain`).
- OverlapTable.PercentCells: the overlap percentage is floating point (`overlapFraction`, `toFixed(2)`), so the cell it makes is a parameter.
- GeneBytes.DecodeRecord: UTF-8 decoding of names is a parameter (`Utf8`).
- Utils.MakeRandId: the random `nanoid` is a parameter. Fresh plot and message ids are parameters of their reducers for the same reason.
- Indexes.Index: data-index.ts is not part of this model. The value-holding index is taken to be the list of its values.
- DnaRecords.DnaToJson: the record structure only. The JSON text that `JSON.stringify` writes is not part of this model.
- Alerts.AlertReducer: icons, close callbacks and React nodes of an alert are not modelled; its content is text.
- Tabs.GetTabFromValue: icons, content and callbacks of a tab are not modelled.
- Console output (`console.log` in `makeOncoPlot`), the network, rendering, node coordinates for drawing (`clusterToCoords`, `_getNodeX`) and the statistics routines are outside this model.
- DataFrames.WithCell: requires the row to exist. For a row index at or past the end, negative or not an integer, `this._data[row]` is undefined and the source throws a TypeError (src/lib/dataframe/dataframe.ts:185-187); the model has no such failure.
- DataFrames.DataFrame.Set: requires the row to exist, as DataFrames.WithCell does; the source throws a TypeError for a missing row.
- ChrNames.HumanChrToNum: models the index map as a map. The source tests `chr in CHR_INDEX_MAP` on a plain object (src/modules/genomic/dna.ts:58-59), so inherited keys such as "toString" or "constructor" pass the test and return a function instead of 1000.
- DataFrameUtils.RowIdxMap: models the result as a map. In the source's plain object a row named "__proto__" sets the prototype and adds no key (src/lib/dataframe/dataframe-utils.ts:399-404).
- DataFrameUtils.CountNames: counts in a map. The source counts in a plain object (src/lib/dataframe/dataframe-utils.ts:591-598 and 630-634), where a name such as "constructor" starts from an inherited function, becomes a string count and is never shared. This affects DataFrameUtils.SharedNames, DataFrameUtils.RowJoin and DataFrameUtils.ColJoin.
- OncoplotEvents.Alias: models the aliases as a map. The source reads `aliases[event]` on a plain object (src/components/pages/modules/oncoplot/oncoplot-utils.ts:394), so an event named like an inherited key ("toString", say) is replaced by a function.
- GenesDownloader.DownloadGenes: leaves out the `setData(dataSet, ret)` call that stores the result in the caller's state (src/modules/tracks/genes-downloader.ts:335); it returns the result only.
- OncoplotTable.OncoRow: holds every sample and gene as text. The source builds its sample and gene lists from the cells' display text (`.strs`, which gives "NA" for an empty cell and four decimals for a non-integer, src/components/pages/modules/oncoplot/oncoplot-utils.ts:788 and 794), but looks each row up by `.toString()` (lines 829 and 832). A non-integer sample cell therefore finds no column and the source throws at `oncotable[g][undefined]`, and a null cell throws at `.toString()`. The model assumes the two texts agree.
- OncoplotMake.MakeOncoPlot: the same assumption as OncoplotTable.OncoRow.
- StrOrder.LexLe: orders characters by Unicode scalar value, where JavaScript compares UTF-16 code units. The two orders differ only between characters above U+FFFF and those from U+E000 to U+FFFF.

## Findings

| source | as written | input that shows it | evidently intended | confidence | as-written member | corrected member |
|---|---|---|---|---|---|---|
| src/components/history-provider.tsx:14-18 | `getStepIndex` tests `steps.length > 0` instead of the match list, so a name no step holds gives `ms[0]`, which is `undefined` | `goto` "zzz" on a history whose steps are named "Load" and "Sort": the cursor becomes NaN, and `remove` of "zzz" doubles the steps | a name no step holds gives -1, so `goto` keeps to the steps and `remove` changes nothing | not executed | History.UnknownStepName | History.RemoveUnknownIntended |
| src/components/pages/modules/lollipop/lollipop-utils.ts:432-442 | `[...aa.matchAll(SUB_REGEX)]` is an array and always truthy, so the second pattern is never tried, and `matchArray[0]` is `undefined` when nothing matches | a row whose protein change is "p.600V>E" throws a TypeError | a change that the first pattern misses is read with the second pattern, V to E at residue 600 | not executed | LollipopData.SecondPatternUnused | LollipopData.ParseChange |
| src/components/pages/modules/oncoplot/oncoplot-utils.ts:835 | `if (geneIndex)` is false for index 0, so the rows of the first gene in sorted order are never counted | one row: sample "S1", gene "A", type "SNP" gives an empty table | every row of a listed gene is counted, whatever its index | not executed | OncoplotTable.FirstGeneDropped | OncoplotTable.TallyCounts |
| src/components/pages/modules/oncoplot/oncoplot-utils.ts:482 | `resetSampleOrder` builds the sample order from `this._geneStats.length`, the number of genes | one gene and two samples: after the reset only the first sample is shown | the order runs over every sample (`this._sampleStats.length`) | not executed | OncoplotFrame.ResetSampleOrderDropsSamples | OncoplotFrame.ResetSampleOrderIntendedSpec |
| src/modules/genomic/genomic.ts:312-315 | `search` loops over the bins b from s to e but reads bin `s` on every visit | chr1:1500-1600 is stored with bin size 1000, and the query chr1:900-1600 does not return it | every bin from s to e is read, so every stored location that overlaps the query is returned | not executed | LocationBins.SearchMissesOverlap | LocationBins.SearchBinsSpec |
| src/components/pages/modules/gene/motifs/motifs-provider.tsx:64-71 | `remove` keeps the old indices of the remaining motifs in `motifOrder`, while `motifs` shrinks | motifs a, b shown as [0, 1]: removing a leaves motifs [b] and the order [1], which points past the end | the order is re-indexed into the new motif list | not executed | Motifs.RemoveBreaksOrder | Motifs.RemovedInOrderShows |
