# scone-fu spreadsheet formula model

This project models the formula core of the scone-fu spreadsheet converters in Dafny.
The converters turn spreadsheets into XML. Each plain cell is annotated with the formulas that read it, directly or through other formulas.

- **FormulaRenderer** (Java) turns a formula's parsed tokens into infix text in the OpenDocument formula syntax, for example `[.A1]`, `[.A1:.B2]` and `SUM([.A1];[.B1])`. The tokens are POI "Ptg"s in Reverse Polish order. The renderer makes one pass over them with a stack of strings and fails on an empty input, on a stack underflow and on leftover operands.
  - It is modelled as the specification functions `Step`, `Run` and `Render`, in module `FormulaRenderer`.
  - The Java loops are methods proved against those functions.
  - A reference model of formula trees, in module `RpnRoundTrip`, proves that rendering the RPN of any tree gives that tree's infix text.
- **The two `ToXML` converters** (Java) build a per-sheet dependency graph. Both share the reference scan in module `Dependencies`.
  - `parseFormula` files the formula's address under every cell it reads, an area fanning out to every cell of its rectangle. It also records the formula as a parent of every formula cell it reads.
  - `uk.ac.liverpool.spreadsheet.ToXML`, module `LiverpoolToXml`, keeps a list of parents per cell. It expands them level by level with `visit`, deduplicates with `cleanup`, which keeps the rightmost copy, and joins the texts with ` || `.
  - `org.apache.poi.ss.examples.html.ToXML`, module `PoiToXml`, keeps one parent per cell and walks parent chains with a visited set.
  - The converters are modelled as classes whose fields are the three maps (`seq`/`map` values the methods reassign).
  - The helpers for column bounds, column headers and per-sheet file names are in `ColumnBounds`.
- **`convertODS2XML.py`** (Python), the OpenDocument variant:
  - Cell ids and the range test `inLimit` are in `OdsIds`.
  - The `Cell` record, `SpreadSheet.storeCol`, `cellInRow`, `fillMissingCells` and the `formula` attribute of `insertCell` are in `OdsSheet`.
  - `processFormula` and the fixpoint loop `applyFormulaToCells` are in `OdsFormulas`.

`CellLabels` models POI's `CellReference.formatAsString`: bijective base-26 column letters, optional `$` sigils and a one-based row. `Text` holds string joining, decimal numerals and the Python string operations used.

On these points the model follows the code:

- **Reference keys.** Both `parseFormula`s file a single-cell reference under `RefPtg.toFormulaString()`, which keeps the `$` sigils, and a cell of an area under its relative label. `ParseFormula` and `RecordToken` in both converters do the same (`RefKeying.FormulaText`). Keying by relative labels is proved separately (`Dependencies.RelativeScanFilesEveryLabel`).
- **Range test.** `processFormula` tests a range argument with `inLimit`, which compares column names as Python strings. `ProcessFormula`, `ReferenceRange` and `ApplyFormulaToCells` use that test (`OdsFormulas.Limit` is `InLimitAsWritten`). The test in column order is proved separately (`OdsIds.InLimitOfCellIds`).
- **Column headers.** `printColumnHeads` prints the headers of its do-while loop, and `ColumnHeads` returns those (`HeaderAsWritten`). The bijective letters are the separate `ColumnHead`.

- **Missing converted texts.** A formula whose text is missing from the converted map (its rendering threw) is annotated as the text `null`, which is what Java's `StringBuffer.append` of a null gives. It is not skipped.
- **Cycles.** `visit` and the POI parent walk do not terminate on a cyclic parent graph. The model bounds them: `visit` by a `depth` (the JVM stack), giving `StackOverflow`, and the walk by a step `fuel`, giving `Diverges`.
- **Failed scans.** A formula whose scan or rendering fails keeps the references it filed before the failure. It just gets no converted text.
- **Column bounds.** They are computed once, from the first sheet (`gotBounds` is never reset), and reused for later sheets.

## Model

| member | source | states |
|---|---|---|
| CellLabels.ColumnIndexOfLabel | src/main/java/uk/ac/liverpool/spreadsheet/FormulaRenderer.java:111-115 | reading back the column letters of a reference gives the column: the labels are a bijective base-26 numbering |
| CellLabels.ColumnLabelOfIndex | src/main/java/uk/ac/liverpool/spreadsheet/FormulaRenderer.java:111-115 | every non-empty string of capital letters is the label of exactly the column it reads as |
| CellLabels.LabelInjective | src/main/java/uk/ac/liverpool/spreadsheet/ToXML.java:309-312 | distinct cells have distinct relative labels, so a label used as a map key names one cell |
| CellLabels.LabelExamples | src/main/java/uk/ac/liverpool/spreadsheet/FormulaRenderer.java:111-115 | (0,0) is `A1`, (5,2) is `C6`, columns 25/26/52 are `Z`/`AA`/`BA`, an absolute (0,0) is `$A$1` |
| FormulaRenderer.GetOperands | src/main/java/uk/ac/liverpool/spreadsheet/FormulaRenderer.java:177-189 | succeeds iff the stack holds at least n strings; returns the top n in push order (index 0 pushed earliest) and the stack below them; otherwise the too-few-operands error with n and the depth |
| FormulaRenderer.AppendArgs | src/main/java/uk/ac/liverpool/spreadsheet/FormulaRenderer.java:157-166 | appends `(`, the operands from firstArgIx on separated by `;` with no leading separator, and `)` |
| FormulaRenderer.FunctionToFormulaString | src/main/java/uk/ac/liverpool/spreadsheet/FormulaRenderer.java:144-155 | a built-in function renders as `name(op0;op1;...)`; an external one uses operand 0 as its name and the rest as arguments; an external call with no operands is an error |
| FormulaRenderer.ToFormulaString | src/main/java/uk/ac/liverpool/spreadsheet/FormulaRenderer.java:57-143 | the token loop over an explicit stack returns exactly Render(ptgs), and rejects an empty token array before any stack work |
| FormulaRenderer.StepEffect | src/main/java/uk/ac/liverpool/spreadsheet/FormulaRenderer.java:63-130 | a token fails iff it cannot be rendered or finds too few operands; otherwise it replaces the top Consumed strings by Produced strings and leaves the rest of the stack alone; Mem tokens and skipped attr kinds leave the stack as it is; other non-sum attrs raise |
| FormulaRenderer.RunSucceedsIffFits | src/main/java/uk/ac/liverpool/spreadsheet/FormulaRenderer.java:63-130 | the pass over the tokens succeeds iff no token underflows the stack, and then leaves FinalDepth strings |
| FormulaRenderer.RenderSucceedsIff | src/main/java/uk/ac/liverpool/spreadsheet/FormulaRenderer.java:131-142 | a result comes back iff the tokens are non-empty, fit the stack and leave exactly one string; an empty stack at the end is a stack underflow, more than one string is "too much stuff left" |
| FormulaRenderer.AreaTextIdentifiesArea | src/main/java/uk/ac/liverpool/spreadsheet/FormulaRenderer.java:168-176 | `[.topLeft:.bottomRight]` names its area: two relative, not whole-column areas with the same text are the same area |
| RpnRoundTrip.RenderToRpn | src/main/java/uk/ac/liverpool/spreadsheet/FormulaRenderer.java:57-143 | rendering the Reverse Polish tokens of any formula tree gives exactly the tree's infix text (operands in order, parentheses, functions, references) |
| RpnRoundTrip.RunToRpn | src/main/java/uk/ac/liverpool/spreadsheet/FormulaRenderer.java:63-130 | the tokens of a tree push exactly that tree's text on top of whatever stack they start from |
| RpnRoundTrip.RunArgsRpn | src/main/java/uk/ac/liverpool/spreadsheet/FormulaRenderer.java:177-189 | the tokens of a list of arguments push their texts in order, which is the order getOperands hands them back in |
| RpnRoundTrip.RunConcat | src/main/java/uk/ac/liverpool/spreadsheet/FormulaRenderer.java:63-130 | the pass over two token runs is the pass over the first followed by the pass over the second, an error stopping it |
| RpnRoundTrip.StepParenthesis | src/main/java/uk/ac/liverpool/spreadsheet/FormulaRenderer.java:72-76 | a parenthesis token wraps the top string in `(` `)` and keeps the depth |
| RpnRoundTrip.StepOperator | src/main/java/uk/ac/liverpool/spreadsheet/FormulaRenderer.java:122-129 | an operator replaces its operands on top of the stack by its rendering of them |
| RpnRoundTrip.StepFunction | src/main/java/uk/ac/liverpool/spreadsheet/FormulaRenderer.java:124-127 | a function token replaces its arity operands by the function text |
| RpnRoundTrip.RenderDifferenceExample | src/main/java/uk/ac/liverpool/spreadsheet/FormulaRenderer.java:106-129 | A1, B1, minus renders as `[.A1]-[.B1]`: the earlier operand is on the left |
| RpnRoundTrip.RenderAddInExample | src/main/java/uk/ac/liverpool/spreadsheet/FormulaRenderer.java:144-149 | an add-in call with name MYFUNC and arguments X, Y renders as `MYFUNC(X;Y)` |
| ColumnBounds.MinFirstIsMinimum | src/main/java/uk/ac/liverpool/spreadsheet/ToXML.java:216-232 | firstColumn is at most every non-negative first cell index and equals one of them when some row has cells; with none it is Integer.MAX_VALUE |
| ColumnBounds.MaxEndIsMaximum | src/main/java/uk/ac/liverpool/spreadsheet/ToXML.java:216-232 | endColumn is non-negative, at least every last cell index of a row with cells, and 0 or one of them |
| ColumnBounds.NoCellsNoColumns | src/main/java/uk/ac/liverpool/spreadsheet/ToXML.java:220-231 | rows without cells leave firstColumn at Integer.MAX_VALUE and endColumn at 0, so no column is printed |
| ColumnBounds.ColumnHeadAsWritten | src/main/java/uk/ac/liverpool/spreadsheet/ToXML.java:240-247 | the do-while header loop as written computes HeaderAsWritten(i) |
| ColumnBounds.HeaderAsWrittenOvershoots | src/main/java/uk/ac/liverpool/spreadsheet/ToXML.java:240-247 | the header as written names column i for i < 26, and a column at least 26 further right for every i from 26 on |
| ColumnBounds.HeaderAsWrittenMatchesIff | src/main/java/uk/ac/liverpool/spreadsheet/ToXML.java:240-247 | the header as written is the column's label iff i < 26 |
| ColumnBounds.HeaderAsWrittenExample | src/main/java/uk/ac/liverpool/spreadsheet/ToXML.java:240-247 | column 26 is headed `BA` as written, where its label is `AA` |
| ColumnBounds.ColumnHead | src/main/java/uk/ac/liverpool/spreadsheet/ToXML.java:240-247 | the corrected header loop yields the column's label |
| ColumnBounds.ColumnHeads | src/main/java/uk/ac/liverpool/spreadsheet/ToXML.java:234-253 | one header per column from firstColumn up to endColumn, each the header the do-while loop builds (`BA` for column 26), none when endColumn <= firstColumn |
| ColumnBounds.LastIndexOf | src/main/java/uk/ac/liverpool/spreadsheet/ToXML.java:178-179 | lastIndexOf gives the last position of the character, or none when it does not occur |
| ColumnBounds.SheetFileName | src/main/java/uk/ac/liverpool/spreadsheet/ToXML.java:176-187 | the per-sheet file name fails (StringIndexOutOfBounds) iff the input name has no `.` |
| ColumnBounds.SheetFileNameShape | src/main/java/uk/ac/liverpool/spreadsheet/ToXML.java:178-187 | the sheet's file name is the input up to its last `.`, the sheet number, then the extension from the last `.` on |
| ColumnBounds.SheetFileNamesDistinct | src/main/java/uk/ac/liverpool/spreadsheet/ToXML.java:181-187 | distinct sheets get distinct file names |
| Dependencies.CellReferenceTo | src/main/java/uk/ac/liverpool/spreadsheet/ToXML.java:407-420 | a referenced cell is filed under its key and reports a parent edge iff it holds a formula, that edge naming the cell's own label |
| Dependencies.AppendAllEffect | src/main/java/uk/ac/liverpool/spreadsheet/ToXML.java:421-427 | filing appends the formula's address to the end of each key's list once per occurrence, creates absent lists, and changes no other key |
| Dependencies.PutAllEffect | src/main/java/org/apache/poi/ss/examples/html/ToXML.java:386-390 | after the puts a key put at least once maps to the reader, others keep their value: one parent per cell, the last writer wins |
| Dependencies.ColumnRefsOk | src/main/java/uk/ac/liverpool/spreadsheet/ToXML.java:434-457 | the scan of one column of an area completes iff every row it visits exists |
| Dependencies.ColumnFanOut | src/main/java/uk/ac/liverpool/spreadsheet/ToXML.java:434-457 | a completed column scan files the label of each of its cells exactly once and no other label, and a parent edge for exactly its formula cells |
| Dependencies.AreaFanOut | src/main/java/uk/ac/liverpool/spreadsheet/ToXML.java:433-458 | a completed area scan files every cell of the inclusive rectangle exactly once, and a parent edge exactly once for each of its formula cells |
| Dependencies.AreaRefsOk | src/main/java/uk/ac/liverpool/spreadsheet/ToXML.java:433-458 | the area scan completes iff every row of the rectangle exists |
| Dependencies.ScanFilesEveryRef | src/main/java/uk/ac/liverpool/spreadsheet/ToXML.java:406-429 | a completed scan files something under the key of every single-cell reference of the formula, whichever way references are keyed |
| Dependencies.RelativeScanFilesEveryLabel | src/main/java/uk/ac/liverpool/spreadsheet/ToXML.java:406-429 | keyed by relative labels, a completed scan files something under the label of every cell a single-cell reference reads, so that cell's annotation finds the formula |
| Dependencies.RefKeyAsWrittenMatchesIff | src/main/java/uk/ac/liverpool/spreadsheet/ToXML.java:421-425 | the key RefPtg.toFormulaString gives is the cell's relative label iff the reference has no `$` |
| Dependencies.AbsoluteRefExample | src/main/java/uk/ac/liverpool/spreadsheet/ToXML.java:421-425 | the scan of a formula reading `$A$1` files it under `$A$1`, not under `A1`, the key the annotation of A1 looks up; keyed by labels it files it under `A1` |
| Dependencies.ScanSticks | src/main/java/uk/ac/liverpool/spreadsheet/ToXML.java:406-460 | once a token hits a missing row (a NullPointerException) the scan stops and later tokens file nothing |
| LiverpoolToXml.KeepLastNoDupSameValues | src/main/java/uk/ac/liverpool/spreadsheet/ToXML.java:372-380 | cleanup leaves no value twice and keeps the same set of values |
| LiverpoolToXml.KeepLastOfNoDup | src/main/java/uk/ac/liverpool/spreadsheet/ToXML.java:372-380 | cleanup leaves a list without duplicates unchanged |
| LiverpoolToXml.KeepLastIdempotent | src/main/java/uk/ac/liverpool/spreadsheet/ToXML.java:372-380 | cleaning up twice is cleaning up once |
| LiverpoolToXml.KeepLastSnoc | src/main/java/uk/ac/liverpool/spreadsheet/ToXML.java:367-380 | the rightmost copy survives: a value appended last ends the cleaned list, and the others keep their order |
| LiverpoolToXml.KeepLastCons | src/main/java/uk/ac/liverpool/spreadsheet/ToXML.java:374-378 | one backward step: an entry survives iff its value does not occur to its right |
| LiverpoolToXml.KeepLastExample | src/main/java/uk/ac/liverpool/spreadsheet/ToXML.java:372-380 | `[X, Y, X, Z]` cleans up to `[Y, X, Z]` |
| LiverpoolToXml.ParentsHaveChildren | src/main/java/uk/ac/liverpool/spreadsheet/ToXML.java:385-392 | the next level holds every parent of every formula of this level and nothing else |
| LiverpoolToXml.LevelsClosed | src/main/java/uk/ac/liverpool/spreadsheet/ToXML.java:382-396 | what visit collects starts with the given formulas and holds every parent of everything it holds |
| LiverpoolToXml.LevelsSound | src/main/java/uk/ac/liverpool/spreadsheet/ToXML.java:382-396 | everything visit collects is a given formula or a parent of something it collects |
| LiverpoolToXml.AnnotationCoversReaders | src/main/java/uk/ac/liverpool/spreadsheet/ToXML.java:325-339 | the cleaned list has each formula once, every direct reader, and the parents of all it holds |
| LiverpoolToXml.ToXml.constructor | src/main/java/uk/ac/liverpool/spreadsheet/ToXML.java:104-114 | a new converter has no bounds and empty maps |
| LiverpoolToXml.ToXml.BeginSheet | src/main/java/uk/ac/liverpool/spreadsheet/ToXML.java:259-261 | each sheet starts with fresh maps; the bounds are kept |
| LiverpoolToXml.ToXml.EnsureColumnBounds | src/main/java/uk/ac/liverpool/spreadsheet/ToXML.java:216-232 | the first call sets firstColumn and endColumn to the sheet's bounds; later calls change nothing |
| LiverpoolToXml.ToXml.Record | src/main/java/uk/ac/liverpool/spreadsheet/ToXML.java:407-428 | one referenced cell: the address is appended to its list, and to its parent list when it holds a formula |
| LiverpoolToXml.ToXml.RecordColumn | src/main/java/uk/ac/liverpool/spreadsheet/ToXML.java:434-457 | the inner row loop files the cells of the column scan into both maps |
| LiverpoolToXml.ToXml.RecordAreaColumn | src/main/java/uk/ac/liverpool/spreadsheet/ToXML.java:433-458 | one pass of the column loop extends the area's scan by one column, or ends it at a missing row |
| LiverpoolToXml.ToXml.RecordArea | src/main/java/uk/ac/liverpool/spreadsheet/ToXML.java:430-459 | the two area loops, columns outer and rows inner, file exactly the area scan |
| LiverpoolToXml.ToXml.RecordToken | src/main/java/uk/ac/liverpool/spreadsheet/ToXML.java:406-459 | one token files its references: a cell reference under its toFormulaString text, `$` included, each cell of an area under its label; a missing row stops it; other tokens file nothing |
| LiverpoolToXml.ToXml.ParseFormula | src/main/java/uk/ac/liverpool/spreadsheet/ToXML.java:398-467 | files the references of the toFormulaString-keyed scan in both maps and, when the scan and the rendering succeed, sets the converted text to `[.cr]=` plus the rendering; otherwise the converted map is unchanged |
| LiverpoolToXml.ToXml.Visit | src/main/java/uk/ac/liverpool/spreadsheet/ToXML.java:382-396 | refs keeps its prefix and gains the level-by-level expansion Levels; too deep a parent chain is a stack overflow |
| LiverpoolToXml.ToXml.CollectParents | src/main/java/uk/ac/liverpool/spreadsheet/ToXML.java:385-392 | the for-loop appends the level to refs and gathers the parents' lists in order |
| LiverpoolToXml.ToXml.Cleanup | src/main/java/uk/ac/liverpool/spreadsheet/ToXML.java:372-380 | the backward scan with a visited set leaves KeepLast(refs) |
| LiverpoolToXml.ToXml.AnnotationText | src/main/java/uk/ac/liverpool/spreadsheet/ToXML.java:326-339 | appending each text and ` \|\| `, then dropping the last four characters, is the join with ` \|\| `; no attribute when there are no refs |
| LiverpoolToXml.ToXml.FormulaAnnotation | src/main/java/uk/ac/liverpool/spreadsheet/ToXML.java:325-339 | a plain cell's annotation is the joined texts of its cleaned-up expansion; none when no formula reads it |
| PoiToXml.ChainShape | src/main/java/org/apache/poi/ss/examples/html/ToXML.java:333-343 | the walk from a reader visits it, then each cell's recorded parent, and ends at a cell without one |
| PoiToXml.CircularNeverEnds | src/main/java/org/apache/poi/ss/examples/html/ToXML.java:333-343 | with two formulas each the parent of the other the walk never ends, whatever the bound |
| PoiToXml.EmitFacts | src/main/java/org/apache/poi/ss/examples/html/ToXML.java:330-339 | the visited set writes each formula at most once, keeps what was written, and writes every value walked |
| PoiToXml.WalkAllNoDup | src/main/java/org/apache/poi/ss/examples/html/ToXML.java:328-343 | starting from a list without repeats, the walk writes no formula twice |
| PoiToXml.WalkAllCovers | src/main/java/org/apache/poi/ss/examples/html/ToXML.java:328-343 | the walk keeps everything written before it and writes every reader |
| PoiToXml.WalkAllParentClosed | src/main/java/org/apache/poi/ss/examples/html/ToXML.java:328-343 | starting from a list that holds the parent of each of its cells, the walk writes the parent of everything it writes |
| PoiToXml.WalkAllSound | src/main/java/org/apache/poi/ss/examples/html/ToXML.java:328-343 | everything the walk writes is a reader or the parent of something it writes |
| PoiToXml.GluedOfChain | src/main/java/org/apache/poi/ss/examples/html/ToXML.java:339-342 | for one chain ending at a cell without parent, the text as written is the join with ` \|\| ` |
| PoiToXml.GluedPlusSep | src/main/java/org/apache/poi/ss/examples/html/ToXML.java:339-342 | when every written formula has a parent, the text as written is the join plus a trailing ` \|\| ` |
| PoiToXml.SeparateChainsWalk | src/main/java/org/apache/poi/ss/examples/html/ToXML.java:331-343 | two readers without parents are written one after the other |
| PoiToXml.SeparateChainsGlued | src/main/java/org/apache/poi/ss/examples/html/ToXML.java:331-345 | as written, their texts are glued with no separator: `[.B1]=1[.C1]=2` |
| PoiToXml.SeparateChainsJoined | src/main/java/org/apache/poi/ss/examples/html/ToXML.java:328-345 | the joined annotation separates them: `[.B1]=1 \|\| [.C1]=2` |
| PoiToXml.TrailingSeparatorWalk | src/main/java/org/apache/poi/ss/examples/html/ToXML.java:331-343 | a reader whose parent was written already is written after it |
| PoiToXml.TrailingSeparatorGlued | src/main/java/org/apache/poi/ss/examples/html/ToXML.java:331-345 | as written, the text then ends with a dangling ` \|\| ` |
| PoiToXml.ChainStep | src/main/java/org/apache/poi/ss/examples/html/ToXML.java:333-343 | the chain from a cell is the cell followed by the chain from its parent |
| PoiToXml.WalkChainStep | src/main/java/org/apache/poi/ss/examples/html/ToXML.java:333-343 | one step of the inner loop writes the cell unless already visited, and moves to its parent |
| PoiToXml.AnnotationCoversReaders | src/main/java/org/apache/poi/ss/examples/html/ToXML.java:328-345 | a plain cell's walk lists each formula once, every direct reader, and the parent of everything listed |
| PoiToXml.ToXml.constructor | src/main/java/org/apache/poi/ss/examples/html/ToXML.java:144-157 | a new converter has no bounds and empty maps |
| PoiToXml.ToXml.BeginSheet | src/main/java/org/apache/poi/ss/examples/html/ToXML.java:263-265 | each sheet starts with fresh maps; the bounds are kept |
| PoiToXml.ToXml.EnsureColumnBounds | src/main/java/org/apache/poi/ss/examples/html/ToXML.java:220-236 | the first call sets firstColumn and endColumn to the sheet's bounds; later calls change nothing |
| PoiToXml.ToXml.Record | src/main/java/org/apache/poi/ss/examples/html/ToXML.java:383-398 | one referenced cell: the address is appended to its list, and becomes its only parent when it holds a formula, replacing an earlier one |
| PoiToXml.ToXml.RecordColumn | src/main/java/org/apache/poi/ss/examples/html/ToXML.java:403-421 | the inner row loop files the column scan: appended lists, overwritten parents |
| PoiToXml.ToXml.RecordAreaColumn | src/main/java/org/apache/poi/ss/examples/html/ToXML.java:402-422 | one pass of the column loop extends the area's scan by one column, or ends it at a missing row |
| PoiToXml.ToXml.RecordArea | src/main/java/org/apache/poi/ss/examples/html/ToXML.java:400-423 | the two area loops, columns outer and rows inner, file exactly the area scan |
| PoiToXml.ToXml.RecordToken | src/main/java/org/apache/poi/ss/examples/html/ToXML.java:381-423 | one token files its references: a cell reference under its toFormulaString text, `$` included, each cell of an area under its label; a missing row stops it; other tokens file nothing |
| PoiToXml.ToXml.ParseFormula | src/main/java/org/apache/poi/ss/examples/html/ToXML.java:373-431 | files the references of the toFormulaString-keyed scan (single parent map) and, when the scan and the rendering succeed, sets the converted text to `[.cr]=` plus the rendering; otherwise the converted map is unchanged |
| PoiToXml.ToXml.AnnotationAsWritten | src/main/java/org/apache/poi/ss/examples/html/ToXML.java:328-345 | the traversal as written yields the glued text of the walk, absent when empty; a chain longer than the bound diverges |
| PoiToXml.ToXml.GlueChain | src/main/java/org/apache/poi/ss/examples/html/ToXML.java:333-343 | the inner while-loop as written follows one chain to its end, keeping visited equal to what was written and formula equal to the glued text |
| PoiToXml.ToXml.FormulaAnnotation | src/main/java/org/apache/poi/ss/examples/html/ToXML.java:328-345 | the corrected traversal yields the texts of the same walk joined with ` \|\| `, absent when none |
| PoiToXml.ToXml.JoinChain | src/main/java/org/apache/poi/ss/examples/html/ToXML.java:333-343 | the corrected inner loop follows one chain to its end, keeping the visited set and the joined text in step with what was written |
| PoiToXml.ToXml.GlueOne | src/main/java/org/apache/poi/ss/examples/html/ToXML.java:334-342 | the loop body as written: a cell not visited yet is added to visited and written once, its text followed by " \|\| " exactly when it has a parent; a visited cell changes nothing |
| PoiToXml.ToXml.JoinOne | src/main/java/org/apache/poi/ss/examples/html/ToXML.java:334-342 | a cell not visited yet is written once, with a separator before it when it is not the first |
| OdsIds.CellIdAsWrittenMatchesIff | code/python/convertODS2XML.py:248-257 | getCellID's id and letters are the column's own iff col < 52 |
| OdsIds.CellIdAsWrittenExample | code/python/convertODS2XML.py:248-257 | column 52 of row 1 is `.AAA1` as written, where its id is `.BA1` |
| OdsIds.CellIdInjective | code/python/convertODS2XML.py:248-257 | the corrected ids of distinct cells differ |
| OdsIds.ExampleIds | code/python/convertODS2XML.py:248-257 | cells (26,1), (0,1), (1,3) have ids `.AA1`, `.A1`, `.B3` |
| OdsIds.SplitId | code/python/convertODS2XML.py:60-65 | the letters and the row of an id are found, or an IndexError is raised iff the id has no letter or no digit |
| OdsIds.SplitCellId | code/python/convertODS2XML.py:60-65 | splitting a cell's id gives back its column letters and row |
| OdsIds.ColumnOrder | code/python/convertODS2XML.py:67-77 | the corrected column comparison orders names as their columns |
| OdsIds.InLimitOfCellIds | code/python/convertODS2XML.py:49-79 | with the corrected comparison, a cell is in the range iff it lies in the rectangle between the corners' columns and rows |
| OdsIds.InLimitAsWrittenOfCellIds | code/python/convertODS2XML.py:49-79 | as written, on cell ids the test holds iff the row lies between the corners' rows and the column name lies between theirs as Python strings |
| OdsIds.InLimitAsWrittenOneLength | code/python/convertODS2XML.py:49-79 | when the three column names have one length, the test as written is the rectangle test |
| OdsIds.InLimitAsWrittenExample | code/python/convertODS2XML.py:67-79 | as written `.AA1` is inside `.A1:.B3`; the corrected test puts it outside |
| OdsSheet.SpreadSheet.constructor | code/python/convertODS2XML.py:156-160 | a new sheet has no columns |
| OdsSheet.SpreadSheet.StoreCol | code/python/convertODS2XML.py:168-172 | a column is appended only when absent, so the list stays duplicate-free in first-seen order |
| OdsSheet.FirstWithCol | code/python/convertODS2XML.py:462-465 | the first cell of the row in the column, or none when no cell is |
| OdsSheet.CellInRow | code/python/convertODS2XML.py:457-466 | true iff some cell has the column, with the first such cell; otherwise false with the last cell (None for an empty row) |
| OdsSheet.FillRow | code/python/convertODS2XML.py:337-351 | one cell per known column in column order: the row's own cell, or a fresh cell named after column and row |
| OdsSheet.FillMissingCells | code/python/convertODS2XML.py:331-357 | every row gets exactly one cell per known column, in order, rows numbered from 1 |
| OdsSheet.FilledKeepsCells | code/python/convertODS2XML.py:338-345 | a row's first cell in a known column keeps its place under that column |
| OdsSheet.FormulaAttribute | code/python/convertODS2XML.py:186-205 | the `formula` attribute is the formulas joined with ` \|\| `, absent iff there are none |
| OdsFormulas.NewFormulaOfDocumentFormula | code/python/convertODS2XML.py:87-95 | a formula `of:=body` is recorded as `[id]=body` |
| OdsFormulas.FirstIdFrom | code/python/convertODS2XML.py:126-141 | the search finds the first cell with the id row by row, or reports that none has it |
| OdsFormulas.FirstIdOfDistinct | code/python/convertODS2XML.py:126-141 | with distinct ids the search for a cell's id finds that cell |
| OdsFormulas.FindId | code/python/convertODS2XML.py:143-150 | the nested loops with break find the first cell with the id |
| OdsFormulas.RangeRow | code/python/convertODS2XML.py:108-124 | a range over one row raises iff the test raises on some cell; otherwise each cell is touched exactly when in range |
| OdsFormulas.RangeReferenced | code/python/convertODS2XML.py:105-124 | a range over the sheet raises iff the test raises on some cell; otherwise each row is its range row |
| OdsFormulas.ReferenceRangeRow | code/python/convertODS2XML.py:108-124 | the inner loop over a row computes RangeRow |
| OdsFormulas.ReferenceRange | code/python/convertODS2XML.py:105-124 | the nested loops of a range argument compute RangeReferenced with inLimit as written, columns compared as strings |
| OdsFormulas.RangeRowStops | code/python/convertODS2XML.py:108-115 | an inLimit error in a row ends the range argument with that error |
| OdsFormulas.RangeReferencedStops | code/python/convertODS2XML.py:107-115 | an inLimit error in a row ends the range argument over the sheet with that error |
| OdsFormulas.ApplyArgumentsStopsAtError | code/python/convertODS2XML.py:97-141 | once an argument raises, processFormula raises with its error |
| OdsFormulas.ProcessFormula | code/python/convertODS2XML.py:81-151 | applies each argument in order (ranges through inLimit as written, single cells by id, `a:b:c` a ValueError), then marks the formula cell processed |
| OdsFormulas.TouchReferenced | code/python/convertODS2XML.py:115-124 | a touched cell gains the new formula and changes only by it, its flag and readOnly |
| OdsFormulas.KeptFormula | code/python/convertODS2XML.py:116-124 | a formula already in a cell's list stays there |
| OdsFormulas.FirstIdKept | code/python/convertODS2XML.py:126-150 | the cells keep their ids, so the search by id finds the same cell afterwards |
| OdsFormulas.ApplyArgumentReferenced | code/python/convertODS2XML.py:105-141 | one argument only appends the new formula to cells |
| OdsFormulas.ApplyArgumentsReferenced | code/python/convertODS2XML.py:97-141 | all the arguments together only append the new formula to cells |
| OdsFormulas.FormulaProcessedFacts | code/python/convertODS2XML.py:81-151 | processFormula keeps ids and places, never resets processed, only appends the new formula, and leaves pending exactly the pending cells other than the formula cell |
| OdsFormulas.ArgumentReaches | code/python/convertODS2XML.py:105-141 | one argument gives the new formula to the first cell with its id, or to every cell inLimit as written puts in its range |
| OdsFormulas.ArgumentsReach | code/python/convertODS2XML.py:105-141 | every cell an argument names, or that inLimit as written puts in a range argument, gets the new formula |
| OdsFormulas.NamesKept | code/python/convertODS2XML.py:105-141 | cells keep their ids, so an argument names the same cells before and after a formula is processed |
| OdsFormulas.ProcessedReaches | code/python/convertODS2XML.py:81-151 | processFormula gives the new formula to every cell one of its arguments names |
| OdsFormulas.AppliedStep | code/python/convertODS2XML.py:359-382 | processing one pending formula cell keeps every formula applied so far and applies its own |
| OdsFormulas.ArgumentOnlyNamed | code/python/convertODS2XML.py:105-141 | a cell's list grows under one argument only when that argument names the cell |
| OdsFormulas.ArgumentsOnlyNamed | code/python/convertODS2XML.py:97-141 | a cell's list grows under the arguments only when one of them names the cell |
| OdsFormulas.NewFormulaFromNamed | code/python/convertODS2XML.py:359-382 | what processing a pending formula cell adds to a cell is that cell's formula, and only where one of its arguments names the cell |
| OdsFormulas.OnlyAppliedStep | code/python/convertODS2XML.py:359-382 | one processing step adds nothing but the processed cell's formula, and only to the cells it names |
| OdsFormulas.ProcessingPendingCell | code/python/convertODS2XML.py:359-382 | processing a pending formula cell removes exactly that cell from the pending ones |
| OdsFormulas.FindPending | code/python/convertODS2XML.py:366-376 | the first cell of a row with an unprocessed formula, or none |
| OdsFormulas.ApplyFormulaToCells | code/python/convertODS2XML.py:359-382 | on success, ranges tested by inLimit as written, every cell keeps its place, id, value and earlier formulas, processed is never reset, no cell with a formula is left unprocessed, every formula cell that was pending has had its formula copied onto every cell its arguments name, and every formula a cell gained is the formula of a pending cell one of whose arguments names it |
| Text.JoinSplit | code/python/convertODS2XML.py:105-106 | joining the pieces of a split with the separator gives back the argument |
| Text.TerminatedIsJoinPlusSep | src/main/java/uk/ac/liverpool/spreadsheet/ToXML.java:333-339 | each text followed by ` \|\| ` is the join plus one trailing ` \|\| `, which the substring drops |
| Text.DigitsValueOfNatToString | code/python/convertODS2XML.py:256 | the row numeral of an id reads back as the row |
| Text.FirstRun | code/python/convertODS2XML.py:60-65 | the longest run of matching characters starting at the first matching character (FirstWhere), non-empty; none iff no character matches |
| Text.FirstWhereIsFirst | code/python/convertODS2XML.py:60-65 | FirstWhere is the first position whose character matches: it matches and none before it does |
| Text.IndexOf | code/python/convertODS2XML.py:95 | the first occurrence of the pattern at or after a position, or none |

## Left out

- Input and output: workbook and ODF/lxml loading, file and stream writing, the `Formatter`/`PrintWriter` output, XML emission, `System.out` and `print` debugging, and `main`.
- POI internals: `FormulaParser.parse` is replaced by the token list it returns. Whole-column area rendering is a token field. Operators are binary, prefix or postfix with POI's text. `AttrPtg.toFormulaString` for a sum renders `SUM(a;b;...)`. `WorkbookDependentFormula` carries its text.
- Cell display values (`CellFormat.apply`), cell styles and the `evaluateFormulae` pre-pass are not modelled.
- The unused `colNumbers` map in `printColumnHeads` is not modelled.
- Python's regex `findall` over a formula is abstracted: `ProcessFormula` takes the bracketed arguments as `elements`, and `ApplyFormulaToCells` takes them per formula as `argsOf`.
- `insertCell`'s `origFormula.split("of:=")[1]`, `fillCell`, `processSheet` and `convertDocument` are not part of this model. They only shape output.
- Python `Cell` records are modelled as values in a sequence of rows, so aliasing between the cell lists is not captured. The loop of `applyFormulaToCells` keeps working on the updated sheet, which is what the shared references give.
- `processed` is modelled as a boolean; the source only stores 0 and 1 in it.
- Null entries in the Java lists are not modelled; the converters never store null.
- LiverpoolToXml.ToXml.Visit: the recursion depth is bounded by a `depth` parameter standing for the JVM stack, so a cyclic or very deep parent graph gives an error instead of the source's StackOverflowError.
- PoiToXml.ToXml.AnnotationAsWritten: each chain walk is bounded by `fuel` steps, so a circular parent chain gives an error where the source loops forever.
- PoiToXml.ToXml.FormulaAnnotation: bounded by the same `fuel`.
- OdsFormulas.ApplyFormulaToCells: requires distinct cell ids, because with a duplicated id the source can loop forever. Its error case is not characterised beyond being an error raised by some processFormula call.
- OdsIds.InLimitOfCellIds: requires the lower corner's row to be at most the upper corner's; ranges written the other way round are not characterised.
- OdsIds.InLimitAsWrittenOfCellIds: requires the lower corner's row to be at most the upper corner's, like InLimitOfCellIds.
- OdsIds.InLimitAsWrittenOneLength: the same requirement on the corners' rows.
- FormulaRenderer.AreaTextIdentifiesArea: shown for areas with relative corners only.

## Findings

| source | as written | input that shows it | evidently intended | confidence | as-written member | corrected member |
|---|---|---|---|---|---|---|
| src/main/java/uk/ac/liverpool/spreadsheet/ToXML.java:240-247 | the header loop divides by 26 without subtracting one, so from column 26 on the letters are one too far | column 26 gets header `BA` | bijective base-26: column 26 is `AA` | not executed | ColumnBounds.HeaderAsWrittenMatchesIff | ColumnBounds.ColumnHead |
| code/python/convertODS2XML.py:248-257 | getCellID repeats `A` col // 26 times before the last letter | column 52 gets `.AAA1` | the spreadsheet's own column letters, `.BA1` | not executed | OdsIds.CellIdAsWrittenExample | OdsIds.SplitCellId |
| src/main/java/org/apache/poi/ss/examples/html/ToXML.java:331-343 | ` \|\| ` is written only after a formula that has a parent, so separate chains are glued together and a chain cut short by the visited set leaves a trailing separator | a cell read by B1 and C1, neither read by a formula, is annotated `[.B1]=1[.C1]=2` | one ` \|\| ` between every two formulas, as the other converter writes | not executed | PoiToXml.SeparateChainsGlued | PoiToXml.ToXml.FormulaAnnotation |
| src/main/java/uk/ac/liverpool/spreadsheet/ToXML.java:421-425 | a single-cell reference is filed under RefPtg.toFormulaString, which keeps the `$` sigils, while plain cells are looked up by their relative label | a formula reading `$A$1` is never shown on A1 | filing under the cell's relative label, as area references do | not executed | Dependencies.AbsoluteRefExample | Dependencies.RelativeScanFilesEveryLabel |
| code/python/convertODS2XML.py:67-77 | inLimit compares column letters as strings, so multi-letter columns sort between single letters | `.AA1` is inside `.A1:.B3` | column order (shorter names first) | not executed | OdsIds.InLimitAsWrittenExample | OdsIds.InLimitOfCellIds |
