# Table filtering, initialisation and page rendering (Athens / UWDOEM Framework core)

This project is a Dafny model of the core of a PHP web framework: its
table-filtering and initialisation logic.

- **Filter chain** (`filters.dfy`, `filter_statements.dfy`). Filters form a singly linked
  chain that ends in a `DummyFilter` sentinel. `queryFilter` recurses to the tail first.
  Each node then pushes its statements into the query until a statement names a field the
  query lacks, or until the next node already holds row statements. From then on the
  remaining statements are *deferred* to `_rowStatements`. `rowFilter` replays the deferred
  statements over in-memory rows, again tail first.
  - `Filter` is a class. Its chain is a linked structure with a `Repr` footprint, and
    `QueryFilter` updates `rowStatements` on the node; its statement loop is the method
    `RouteStatements`.
  - `QueryFilter` and `RowFilter` are proved against the specification functions
    `ChainQueryFilter` and `ChainRowFilter`. The routing rules are lemmas about those
    functions.
- **Initializer** (`initializers.dfy`). A visitor over the writable tree:
  - a page visits its one child;
  - a section visits all its children;
  - a field bearer visits its nested bearers and then suffixes its own fields by position;
  - a form initialises its bearer and, on POST only, checks validity and runs exactly one
    of `onValid` and `onInvalid`.
  The tree is a value. Each visit method returns the updated node and the callbacks it ran.
- **TableForm** (`table_forms.dfy`). It rebuilds rows from the submitted POST keys by
  substring match and slug stripping, then runs the external validators. Validity is
  memoised and errors are appended.
- **Page** (`pages.dfy`):
  - the `excelRow` column lettering, as written, plus a corrected lettering (see Findings);
  - the cell layout of each exported table;
  - the "no tables" error;
  - the default render function chosen by page type;
  - initialisation before rendering.
- **Supporting values**:
  - `Row` (`rows.dfy`) and `Field` / `FieldBearer` (`fields.dfy`);
  - the PHP string functions the core relies on (`strings.dfy`): integer-to-string
    conversion, `implode`, `trim` with one character, `strpos(...) !== false`, and
    `str_replace(..., "", ...)`.

External behaviour is passed in as parameters:

- the ORM query is a trace of the columns it exposes and the statements applied to it;
- `applyToRows` of a statement;
- `Field::getSlug`, `Field::validate` and `Field::isValid`;
- the external validators;
- a form's `isValid`;
- the request method and the POST data;
- the `Settings` defaults.

## Model

| member | source | states |
|---|---|---|
| FilterStatements.Code | src/filter-statement/FilterStatementInterface.php:10-17 | every condition has a code between 1 and 8 |
| FilterStatements.ConditionOf | src/filter-statement/FilterStatementInterface.php:10-17 | an integer names a condition exactly when it lies in 1..8 |
| FilterStatements.CodeRoundTrip | src/filter-statement/FilterStatementInterface.php:10-17 | decoding a condition's code gives the condition back |
| FilterStatements.CodeOfDecoded | src/filter-statement/FilterStatementInterface.php:10-17 | every code in 1..8 decodes to a condition whose code it is |
| FilterStatements.CodesDistinct | src/filter-statement/FilterStatementInterface.php:10-17 | no two conditions share a code |
| FilterStatements.SortAndPaginationCodes | src/filter-statement/FilterStatementInterface.php:10-11 | the sort conditions are exactly codes 1 and 2, ascending is 1, pagination is 8 |
| FilterStatements.ApplyAllExtends | src/filter-statement/FilterStatementInterface.php:39-43 | applying statements in turn keeps the query's columns and appends exactly those statements, in order |
| Filters.FirstBreak | src/filter/Filter.php:111-116 | the index of the first statement naming a non-falsy field the query lacks, or the count when there is none |
| Filters.ChainQueryFilter | src/filter/Filter.php:101-127 | queryFilter over a chain keeps the chain's length and every node's statements |
| Filters.RouteWhenBroken | src/filter/Filter.php:111-125 | once the broken flag is set, every later statement goes to rowStatements and none reaches the query |
| Filters.RouteWhenUnbroken | src/filter/Filter.php:111-125 | starting unbroken, the query becomes the statements before the first breaking one applied in turn; that one and all after it are appended to rowStatements, and the node ends broken exactly when one was found |
| Filters.NodeWhenNextDegraded | src/filter/Filter.php:104-125 | when the next node holds row statements, the query is untouched and rowStatements becomes the statements twice over |
| Filters.NodeWhenNextClean | src/filter/Filter.php:104-125 | when the next node holds none, the leading unbroken statements are applied to the query in turn and the rest are appended to the old rowStatements |
| Filters.ChainQueryExtends | src/filter/Filter.php:101-127 | queryFilter only appends statements to the query and never changes its columns |
| Filters.RowStatementsAccumulate | src/filter/Filter.php:106-120 | rowStatements are never reset: either the statements twice over or the old list with more appended |
| Filters.DegradationPropagates | src/filter/Filter.php:102-109 | when a node ends up holding row statements, its predecessor defers all its statements, which it then holds twice over |
| Filters.DegradationSpreads | src/filter/Filter.php:102-125 | within one call, degradation reaches every predecessor of a node holding row statements back to the nearest node without statements: each of them holds its statements twice over |
| Filters.DegradedPrefixLeavesQuery | src/filter/Filter.php:101-127 | when every node before a node holding row statements has statements, none of them reaches the query: the chain returns the query the rest of the chain produced |
| Filters.NodeAllPresent | src/filter/Filter.php:111-125 | a node whose fields are all present applies all its statements to the query and defers none |
| Filters.ChainAllPresent | src/filter/Filter.php:101-127 | on a chain with no row statements whose fields are all present, the query is every statement applied in turn, tail node first, and no node changes |
| Filters.RowFilterIdentity | src/filter/Filter.php:145-153 | rowFilter over a chain holding no row statements returns the rows unchanged |
| Filters.Filter.constructor | src/filter/Filter.php:48-58 | a filter built without a next filter gets a fresh DummyFilter as next; otherwise next is the given filter; no row statements yet |
| Filters.Filter.Dummy | src/filter/Filter.php:186-188 | the sentinel has no next filter, no statements, no row statements |
| Filters.Filter.GetNextFilter | src/filter/Filter.php:86-88 | only the sentinel returns null; any other node returns a valid filter further down the chain |
| Filters.Filter.Combine | src/filter/Filter.php:71-74 | combine makes the argument the next filter and returns the receiver; on the sentinel it returns the argument and changes nothing |
| Filters.RouteStatements | src/filter/Filter.php:111-125 | the statement loop ends in the routing Route gives: statements reach the query until one breaks, and from then on are appended to the row statements |
| Filters.Filter.QueryFilter | src/filter/Filter.php:101-127 | the returned query and the chain's new row statements are those of ChainQueryFilter on the old chain; the sentinel returns the query as it is |
| Filters.Filter.RowFilter | src/filter/Filter.php:145-153 | the rows are those of replaying the chain's row statements tail first; the sentinel returns them as they are |
| Rows.GettersReturnConstructorArguments | src/row/Row.php:37-62 | each getter returns the value given to the constructor |
| Strings.DecimalRoundTrip | src/initializer/Initializer.php:38-40 | the decimal suffix of a position reads back as that position |
| Strings.TrimSplits | src/table/TableForm.php:89 | trimming removes exactly the leading and trailing runs of "-" and leaves an end that is not "-" |
| Strings.ContainsAt | src/table/TableForm.php:70-72 | a key matches the slug exactly when the slug occurs in it at some position |
| Strings.RemoveAllAbsent | src/table/TableForm.php:74-76 | removing a slug that does not occur leaves the key unchanged |
| Initializers.VisitChild | src/initializer/Initializer.php:14-20 | a writable that is not initialisable is left alone; any other is initialised as Initialize says |
| Initializers.VisitPage | src/initializer/Initializer.php:22-24 | only the page's single writable is initialised; the page's own data is unchanged |
| Initializers.VisitSection | src/initializer/Initializer.php:26-30 | every writable of the section is initialised, in order, and their callbacks follow that order |
| Initializers.VisitFieldBearer | src/initializer/Initializer.php:32-42 | nested bearers are initialised, then the bearer's own fields are suffixed by position |
| Initializers.VisitForm | src/initializer/Initializer.php:44-52 | the form's bearer is initialised; on POST exactly one validity check and then onValid or onInvalid by its result; otherwise nothing runs |
| Initializers.InitBearerSuffixesByPosition | src/initializer/Initializer.php:38-40 | the field at position k gains exactly the suffix "k" and nothing else about it changes |
| Initializers.SecondPassSuffixesAgain | src/initializer/Initializer.php:38-40 | nothing guards a second pass: it appends the positional suffix again |
| Initializers.InitBearerOnlySuffixes | src/initializer/Initializer.php:32-42 | initialising a bearer changes nothing but suffixes |
| Initializers.InitializeOnlySuffixes | src/initializer/Initializer.php:14-52 | initialising a whole tree changes nothing but field suffixes |
| Initializers.EventsPerForm | src/initializer/Initializer.php:44-52 | on POST every form in the tree yields one check and then exactly one callback, two events per form; otherwise no events |
| TableForms.MatchingKeys | src/table/TableForm.php:68-72 | the matches are the POST keys containing the slug, no more and no fewer |
| TableForms.CollectRowPrefixes | src/table/TableForm.php:66-76 | one prefix per matching key, in POST order, with the slug removed |
| TableForms.BuildRow | src/table/TableForm.php:79-99 | every prototype field gets its joined suffixes as a new suffix and the trimmed prefix as a new prefix, takes its POST value when one is submitted under its slug, then validates itself |
| TableForms.CheckRows | src/table/TableForm.php:103-112 | every field whose name has registered validators goes through them; other fields are unchanged |
| TableForms.RunFieldValidators | src/table/TableForm.php:106-110 | the registered validators are applied first to last |
| TableForms.ValidatorsRunInOrder | src/table/TableForm.php:107-109 | the first registered validator is the first to see the field |
| TableForms.UnregisteredFieldUnchecked | src/table/TableForm.php:106 | a field whose name has no validators is not touched |
| TableForms.ValidIffAllFieldsValid | src/table/TableForm.php:114-123 | the form is valid exactly when every field of every row is valid, and there are never more errors than rows |
| TableForms.BuildRows | src/table/TableForm.php:66-101 | one rebuilt row per matching POST key, in POST order, each built as BuildRow describes |
| TableForms.MatchingKeysDistinct | src/table/TableForm.php:68-72 | distinct POST keys give distinct matches |
| TableForms.RowCountIsMatchingKeyCount | src/table/TableForm.php:66-101 | the form holds exactly as many rows as there are submitted POST keys containing the first field's slug |
| TableForms.ReconstructedRows | src/table/TableForm.php:66-101 | there is one row per POST key containing the first slug; field k of row i is renamed after key i and given its submitted value |
| TableForms.TableForm.constructor | src/table/TableForm.php:155-169 | a new form holds its validators, has not been validated, and has no rows and no errors |
| TableForms.TableForm.AddError | src/table/TableForm.php:151-153 | the error goes to the end of the list and nothing else changes |
| TableForms.TableForm.GetFilter | src/table/TableForm.php:46-48 | always a fresh sentinel filter |
| TableForms.TableForm.GetSubForms | src/table/TableForm.php:54-56 | a table form has no sub-forms |
| TableForms.FlagInvalidRows | src/table/TableForm.php:114-123 | validity ends false exactly when some row holds an invalid field, and one generic error is appended per such row, however many of its fields are invalid |
| TableForms.TableForm.GetErrors | src/table/TableForm.php:143-145 | returns the stored error list entry for entry; AddError and Validate only append to that list, so it lists the errors in the order they were added |
| TableForms.TableForm.Validate | src/table/TableForm.php:62-124 | the rows are the rebuilt and externally validated rows; validity holds exactly when no row has an invalid field; one generic error is appended per such row |
| TableForms.TableForm.IsValid | src/table/TableForm.php:126-131 | validation runs on the first call only; later calls return the cached answer and change nothing |
| Pages.PhpLetter | src/page/Page.php:219-220 | remainder 0 selects "Z" because offset -1 counts from the end; remainder r selects the r-th letter |
| Pages.ExcelRow | src/page/Page.php:210-228 | the loop builds the letters of ExcelRowOf(j), at least one |
| Pages.ExcelRowSingleLetter | src/page/Page.php:216-225 | columns 0 to 23 are the single letters A to X |
| Pages.NoY | src/page/Page.php:218-225 | "Y" never appears in any output |
| Pages.ExcelRowSkipsY | src/page/Page.php:218-225 | column 24 is "Z" and column 25 is "AA" |
| Pages.ExcelRowCollision | src/page/Page.php:218-225 | columns 25 and 50 both get "AA" |
| Pages.ColumnLetters | src/page/Page.php:210-228 | every column has a non-empty name |
| Pages.ColumnIndexOfLetters | src/page/Page.php:210-228 | every column's name consists of capital letters and reads back as that column |
| Pages.ColumnLettersOfIndex | src/page/Page.php:210-228 | every non-empty string of capital letters names exactly one column |
| Pages.ColumnLettersInjective | src/page/Page.php:210-228 | distinct columns have distinct names |
| Pages.ColumnLettersAroundZ | src/page/Page.php:210-228 | the corrected names run "Y", "Z", "AA" at columns 24 to 26 |
| Pages.ExcelRowAgreesBelow24 | src/page/Page.php:210-228 | for columns 0 to 23 the code as written gives the corrected name |
| Pages.ExcelRowAA | src/page/Page.php:210-228 | only columns 25 and 50 are written "AA" |
| Pages.ExcelRowZ | src/page/Page.php:210-228 | only column 24 is written "Z" |
| Pages.WriteSheet | src/page/Page.php:275-297 | the sheet is SheetBy(t, name): for a table without rows, "No records found" at A1 and nothing else; otherwise the header writes, then the data writes row by row, each write replacing any earlier value of its cell |
| Pages.CorrectedLayout | src/page/Page.php:275-297 | with the corrected names every table's sheet holds exactly its header cells and non-empty data cells, each with its own value |
| Pages.ColumnLettersBijective | src/page/Page.php:210-228 | the corrected naming is a bijection between column numbers and column names |
| Pages.BijectiveLayout | src/page/Page.php:275-297 | with any naming that is a bijection between column numbers and names, the written sheet holds exactly the table's header cells and non-empty data cells, each with its own value |
| Pages.LayoutCells | src/page/Page.php:279-293 | in that layout the header cell of column j in row 1 holds the j-th label; the cell of column j in row i + 2 exists exactly when field j of row i has a non-empty initial value, and holds it |
| Pages.LayoutUnique | src/page/Page.php:275-297 | a table has exactly one layout |
| Pages.LastHeaderWriteWins | src/page/Page.php:279-283 | a header cell holds the label of the last column written to it |
| Pages.DataCellsKeepHeader | src/page/Page.php:286-293 | the data writes never touch row 1 |
| Pages.AsWrittenHeaderOverwrite | src/page/Page.php:279-283 | with the code as written, a table of 51 or more columns loses the label of column 25: cell AA1 ends with column 50's label, and Z1 holds column 24's |
| Pages.NarrowTablesUnaffected | src/page/Page.php:275-297 | for tables of at most 24 columns the code as written writes exactly the corrected sheet, so they are laid out correctly |
| Pages.RenderExcel | src/page/Page.php:266-300 | without tables it fails with "No tables found in writables."; otherwise one sheet per table, in order, each the sheet WriteSheet writes, once sheet 0 is removed |
| Pages.DefaultRenderFunction | src/page/Page.php:338-360 | "pdf" selects the PDF renderer and "excel" the Excel renderer; every other type echoes the writer's output |
| Pages.Render | src/page/Page.php:368-387 | defaults replace the missing arguments; the initializer visits the page first, and the render function then gets the initialised page |

## Left out

- The ORM query. It is modelled only as the columns it exposes and the statements applied to it. `applyToQuery` appends a statement and does not change the columns. `ORMUtils::queryContainsFieldName` is membership in those columns. Propel's own semantics are not part of this model.
- `applyToRows` of concrete statements is external and is passed in as a function. The ordering and pagination semantics of the conditions are not modelled.
- `setOptionsByQuery` and `setFeedbackByQuery` are empty in the source. `getFeedback`, `getOptions`, `getHandle` and `getStatements` are plain getters of fields that `queryFilter` never assigns. They are not modelled.
- Filters.Filter.QueryFilter: chains with a cycle are excluded by `Valid()`. The source would recurse forever on one.
- Filters.Filter.QueryFilter: the loop appends to a local copy of `_rowStatements` that is written back to the node once, after the loop. Nothing reads the field while the loop runs, so the final state is the same.
- TableForms.TableForm.Validate: `_rows`, `_isValid` and the errors are written together at the end. The source writes `_rows` before the validators run and updates `_isValid` and the errors during the last pass; the model's validators do not see the form, so the final state is the same.
- Filters.Filter.Combine: the model requires the argument chain not to contain the receiver, so that the chain stays acyclic.
- Aliasing of PHP objects is not captured. The writable tree, fields and rows are values, and every visit returns the updated value. Two tree positions that share one field object are modelled as independent copies.
- TableForms.TableForm.Validate: the row builder's `build()` is modelled as a fresh copy of the prototype row. Fields are matched by position rather than by name. Before the first validation the model's rows are empty, where the source's `_rows` is null.
- TableForms.TableForm.Validate: the validators also receive the form itself. The model's validators see only the field, so a validator that reads or changes the form is not captured.
- TableForms.TableForm.Validate: the model requires a prototype row with at least one field, because the source calls `getSlug` on `current()` of an empty array, which fails.
- `strpos` with an empty needle counts as a match, as in PHP 8. PHP 7 returned false with a warning.
- The POST data is a list of distinct keys in submission order plus a map of values, with exactly those keys (`PostData.WellFormed`, which `Validate` requires, as `array_keys($_POST)` guarantees). PHP's conversion of numeric string keys to integers is not modelled.
- The table-collection worklist of `renderExcel` (src/page/Page.php:250-264) is not modelled. It uses reflection (`method_exists`, `instanceof`), and `$writables += ...` is a key union rather than an append. `RenderExcel` takes the collected tables as its input. Each table is the list of visible fields of each row, so `getVisibleFields` is external.
- PHPExcel and DOMPDF: HTTP headers, the dated file name, bold header styling, column auto-size, the PDF document name and streaming the output are foreign libraries and I/O. They are not modelled. A sheet is a map from (column, row) to value. Writing the same cell twice keeps the later value, as `setCellValue` does.
- Pages.Render: the initializer and writer are recorded by class name. The only initializer modelled is `Initializer`, and writers are not modelled (Twig templates). Render therefore records the two steps and their order, not the output of the render function.
- `renderPDF` and the echo renderer produce writer output. They are represented only by the `RenderFunction` they are chosen as.
- Builders, Twig templates and their filters, sections and the test files are not part of this model.

Behaviour of the code worth noting:

- Row statements are never cleared between `queryFilter` calls. A node whose next node holds row statements gets its statements twice (`NodeWhenNextDegraded`).
- Degradation spreads within a single call. Once a node holds row statements, every predecessor back to the nearest node without statements defers all its statements (`DegradationSpreads`). Each node whose next node holds row statements leaves the query as it received it (`NodeWhenNextDegraded`). When this reaches the head of the chain, the chain returns the query that the nodes after the degraded prefix produced (`DegradedPrefixLeavesQuery`). A node without statements stops it, since its row statements stay empty.
- `combine` replaces the next filter rather than appending to the chain, so combining is not associative.

## Findings

| source | as written | input that shows it | evidently intended | confidence | as-written member | corrected member |
|---|---|---|---|---|---|---|
| src/page/Page.php:218-225 | the column letter is chosen by `$number % 25` while the number is divided by 26, so "Y" is unreachable and names repeat | `excelRow(25)` and `excelRow(50)` both give "AA", so those two header cells and data cells overwrite each other; `excelRow(24)` gives "Z" where "Y" is due | spreadsheet column names in bijective base 26: A to Z, then AA, AB, and so on, one distinct name per column | high; not executed | Pages.AsWrittenHeaderOverwrite | Pages.CorrectedLayout |

`WriteSheet` and `RenderExcel` take the column naming as a parameter. `ExcelRowOf` is the
code as written: `ExcelRowCollision` and `AsWrittenHeaderOverwrite` show the lost header.
`ColumnLetters` is the corrected naming: `ColumnLettersInjective` and `CorrectedLayout`
show that every cell then lands in its own place. `NarrowTablesUnaffected` shows that
the two write the same sheet for tables of at most 24 columns.
