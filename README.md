# Aozora Bunko Parquet viewer — a verified model

The repository publishes the Aozora Bunko catalogue (with each work's
cleaned text) as six Parquet fragments and serves a browser page that loads
them into an in-browser DuckDB database and lets the reader query them. This
project models, in Dafny, the core of that system and proves what it
promises:

- **The browser loader** (`loadParquetParts` in `src/main.ts`). It opens one
  engine connection and walks the fragments in index order. For each it
  fetches `aozora_combined_partNN.parquet`, registers the bytes as the
  virtual file `partN.parquet`, creates the table from fragment 0 and
  appends every later fragment. It then counts the rows and closes the
  connection. Any failure is thrown to the caller and the connection is
  left open. The loader is a method over a `QueryEngine` and a `Network`
  object, and it is proved equal to a pure specification function
  (`LoadSpec`). Lemmas about that function give the success and abort
  traces.
- **The page around it.** The page disables its controls while loading and
  re-enables them only on success. Query handlers close their connection
  on every path. The search box issues no query for a blank term. Every
  string cell is HTML-escaped, and the escape is proved safe and
  reversible.
- **The offline splitter** (`tmp/chunk.py`). It computes the chunk sizes,
  the row range of every part and the part file names. The ranges tile
  the input and the `UNION ALL` verification view reads the rows back
  exactly.
- **The text preparation** (`tmp/aozora_data.py`). This covers ruby
  removal, the text cleaner, and the mapping from a work's URL to its
  local text file.

Every module is one file. `wrappers`, `strings`, `paths` and `seq_facts`
hold shared definitions. `part_names` is the naming scheme that the
splitter and the loader share. `engine` is the interface of the embedded
query engine and of `fetch`. The rest follow the source files.

## Model

| member | source | states |
|---|---|---|
| `Loader.LoadParquetParts` | src/main.ts:301-355 | Running the loader leaves the engine, the requests made and the outcome exactly as `LoadSpec` describes. `LoadSpec` connects once and fetches fragments 0..5 in order. It throws for a rejected or non-OK fetch, registers `partN.parquet`, and runs CREATE for fragment 0 or INSERT for later ones, throwing if the statement fails. Then it counts the rows, throwing on failure, and closes the connection. |
| `Loader.PartUrlInjective` | src/main.ts:310-313 | Distinct fragments are fetched from distinct URLs. |
| `Loader.PartStatement` | src/main.ts:329-339 | The statement is CREATE exactly for fragment 0 and INSERT exactly for later fragments. Both target `aozora_combined`. |
| `Loader.StatementReadsRegisteredFile` | src/main.ts:326-338 | Fragment i's statement reads exactly the virtual file registered for fragment i. |
| `Loader.UrlsAt` | src/main.ts:309-317 | The k-th request of a run is fragment lo+k's URL: ascending order, no gaps. |
| `Loader.UrlsDistinct` | src/main.ts:309-317 | No URL is requested twice in one run. |
| `Loader.BodiesAt` | src/main.ts:322-338 | The contents appended to the table hold fragment lo+k's bytes at position k. |
| `Loader.LoadFromStep` | src/main.ts:309-340 | A successful iteration for fragment i continues the loop at i+1 with the same connection count. |
| `Loader.StepCreate` | src/main.ts:326-333 | When fragment 0's bytes read as Parquet, its iteration on an engine without the table succeeds and creates the table with those bytes. It logs the registration and the CREATE and records one request. |
| `Loader.StepInsert` | src/main.ts:334-338 | When a later fragment's bytes read as Parquet and fit the table, its iteration succeeds and appends them to the table. It logs the registration and the INSERT. |
| `Loader.LoadFromSucceeds` | src/main.ts:309-350 | When every remaining fragment fetches OK, reads as Parquet and fits the table built so far, the loop from i>=1 appends fragments i..5 in order, runs the row count and closes the connection. The table, the log and the requests are stated exactly. |
| `Loader.LoadSucceeds` | src/main.ts:301-350 | On a fresh engine, when every fetch is OK and every fragment reads as Parquet and fits the table built from the fragments before it, the load passes. It opens and closes one connection and requests the six URLs in order. The log is `Connected`, then each fragment's registration and statement, then the count and `Closed`. The table holds the six fragments in order. |
| `Loader.LoadSpecFirst` | src/main.ts:305-333 | When fragment 0 fetches OK and reads as Parquet, the load continues at fragment 1 after one connection, one request, the registration and the CREATE, with the table holding fragment 0. |
| `Loader.FetchError` | src/main.ts:317-320 | The error thrown for a failed fetch of fragment k names k. It is a rejection exactly when the fetch was rejected, and otherwise carries the status text. |
| `Loader.AbortError` | src/main.ts:317-339 | The error thrown when the load stops at fragment k names k. It is the failed statement's error exactly when the fetch was OK, and the fetch error otherwise. |
| `Loader.LoadFromAborts` | src/main.ts:309-339 | From i>=1, when fragment k is the first that does not fetch OK or does not load, the loop appends i..k-1, requests k and throws for k. After a failed fetch nothing is registered for k; after a failed statement k is registered and its statement logged, and the table keeps fragments i..k-1 only. No later fragment is touched. |
| `Loader.LoadFromAbortsHere` | src/main.ts:316-339 | At fragment k, a failed fetch throws the fetch error with only the request recorded. An OK fetch whose bytes do not load is registered, its statement fails, and the loop throws `QueryFailed(k)` with the table unchanged and the connection open. |
| `Loader.LoadAborts` | src/main.ts:305-354 | When fragment k is the first that does not fetch OK, is not Parquet, or does not fit the table built from fragments 0..k-1, the whole load throws for k after requesting fragments 0..k only. The log holds nothing past fragment k's registration and failed statement, the table holds fragments 0..k-1 (no table when k is 0), and the connection stays open. |
| `Loader.LoadAbortsAtFirst` | src/main.ts:305-333 | A load that stops at fragment 0 (failed fetch, or a CREATE over bytes that are not Parquet) throws for 0 and creates no table. |
| `Loader.SecondLoadFails` | src/main.ts:329-333 | A second load in the same session fails at fragment 0's CREATE and keeps the existing table. |
| `Loader.LoadFromClosesOnlyOnSuccess` | src/main.ts:343-354 | From any index, the loop closes its connection exactly when it passes. |
| `Loader.LoadClosesOnlyOnSuccess` | src/main.ts:305-354 | The whole load leaves the connection count unchanged on success and one higher on every failure. The catch rethrows without closing. |
| `Loader.PartEventsAt` | src/main.ts:326-338 | Fragment lo+k's registration and statement are the events at positions 2k and 2k+1. The statement reads the file just registered. |
| `Loader.PartEventsLength` | src/main.ts:309-340 | Each fragment contributes exactly two engine events. |
| `Loader.PartEventsCounts` | src/main.ts:329-339 | A run of fragments from 0 issues one CREATE and hi-1 INSERTs. A run from lo>0 issues no CREATE and hi-lo INSERTs. |
| `Loader.SuccessfulLoadStatementCounts` | src/main.ts:303-339 | A successful load adds exactly one CREATE and `TotalParts - 1` INSERTs to the engine's log. |
| `Loader.LoadLogCounts` | src/main.ts:306-349 | Connecting, the row count and closing add no CREATE and no INSERT to the log. |
| `Engine.OpenConnection` | src/main.ts:306 | `db.connect()` adds one open connection, logs it, and touches no file or table. |
| `Engine.CloseConnection` | src/main.ts:349 | `conn.close()` releases one connection, logs it, and touches no file or table. |
| `Engine.Register` | src/main.ts:326 | `registerFileBuffer` makes the name denote the bytes, leaves every other registered file as it was, and changes no table. |
| `Engine.Execute` | src/main.ts:330-338 | A statement is logged whether or not it succeeds, and a failed one changes no table. CREATE succeeds exactly when the table is absent and the registered file reads as Parquet, and then sets the table to the file's contents. INSERT succeeds exactly when the table exists and the file reads as Parquet and fits it, and then appends the contents. An editor, statistics or search statement changes the tables as the engine decides. |
| `Engine.QueryEngine.Connect` | src/main.ts:306 | The engine object's new state is `OpenConnection` of its old state. |
| `Engine.QueryEngine.Close` | src/main.ts:349 | The engine object's new state is `CloseConnection` of its old state. |
| `Engine.QueryEngine.RegisterFileBuffer` | src/main.ts:326 | The engine object's new state is `Register` of its old state. |
| `Engine.QueryEngine.Query` | src/main.ts:330-338 | The engine object's new state and the success flag are those of `Execute`. |
| `Engine.Network.Fetch` | src/main.ts:317 | The response is the oracle's answer for the URL, and the URL is appended to the requests. |
| `PartNames.PartFileNameIndex` | src/main.ts:311 | The fragment index can be read back from its file name as a decimal number. |
| `PartNames.PartFileNameInjective` | tmp/chunk.py:51 | Distinct parts get distinct file names. |
| `PartNames.VirtualNameInjective` | src/main.ts:326 | Distinct fragments are registered under distinct virtual names. |
| `Strings.DecimalDigits` | src/main.ts:311 | `i.toString()` is a non-empty digit string, at most two digits below 100. |
| `Strings.DecimalRoundTrip` | src/main.ts:311 | Reading back `i.toString()` gives i. |
| `Strings.DecimalInjective` | src/main.ts:326 | Distinct numbers render differently. |
| `Strings.PadStartShape` | src/main.ts:311 | `padStart` keeps the string as a suffix, adds only the fill before it, and reaches the width without truncating. |
| `Strings.LeadingZeros` | tmp/chunk.py:51 | Zero padding does not change the value of a digit string. |
| `Strings.Pad2RoundTrip` | tmp/chunk.py:51 | The two-digit padded index (`{i:02d}`, `padStart(2, '0')`) is a digit string denoting i, of length two below 100. |
| `Strings.Pad2Injective` | src/main.ts:311 | Distinct indices get distinct padded renderings. |
| `Strings.ReplaceAllIdentity` | src/main.ts:258 | Replacing a pattern by itself changes nothing, so the chain's first replace is a no-op. |
| `Strings.ReplaceAllConcat` | src/main.ts:258-264 | A one-character global replace distributes over concatenation. |
| `Strings.ReplaceAllChars` | tmp/aozora_data.py:16 | After a one-character replace-all, the pattern character appears only if the replacement holds it. |
| `Strings.ReplaceAllSubset` | tmp/aozora_data.py:37 | A replace-all introduces no character beyond those of the replacement. |
| `Strings.ReplaceAllAbsent` | tmp/aozora_data.py:16 | A replace-all leaves a string without the pattern character unchanged. |
| `Strings.ReplaceAllSkip` | tmp/aozora_data.py:71-72 | A prefix holding no character that starts the pattern is copied unchanged before the rest is replaced. |
| `Strings.Trim` | src/main.ts:135 | The trimmed string has no white space at either end, and is empty exactly when the input is all white space. This is `trim()` or `strip()` depending on the white-space set passed. |
| `HtmlEscape.ChainConcat` | src/main.ts:256-265 | The replace chain distributes over concatenation. |
| `HtmlEscape.ChainChar` | src/main.ts:258-264 | On one character the chain gives that character's reference escape. No later replace alters a reference an earlier one produced. |
| `HtmlEscape.EscapeCellIsPerCharacter` | src/main.ts:256-265 | Because `&` is replaced first, the chain equals escaping each character independently. |
| `HtmlEscape.EscapeEachSafe` | src/main.ts:260-264 | The per-character escape yields no raw `<`, `>`, `"` or `'`, and every `&` begins one of the five references. |
| `HtmlEscape.EscapeCellSafe` | src/main.ts:256-265 | An escaped string cell contains no raw `<`, `>`, `"` or `'`, and every `&` in it begins `&amp;`, `&lt;`, `&gt;`, `&quot;` or `&#039;`. |
| `HtmlEscape.UnescapeStep` | src/main.ts:260-264 | Decoding an escaped character followed by anything gives the character followed by the decoded rest. |
| `HtmlEscape.EscapeRoundTrip` | src/main.ts:256-265 | Decoding the five references in the escaped cell gives back the original string. |
| `HtmlEscape.CellContent` | src/main.ts:254-265 | A null cell renders as the empty string. A string cell renders as markup-free text that decodes to the string. |
| `Page.SearchTerm` | src/main.ts:135-140 | No term exactly when the value is all white space. Otherwise the term is non-empty and has no white space at either end. |
| `Page.HandleQuery` | src/main.ts:83-92 | A handler opens a connection, runs one statement and always closes it (`finally`). The connection count is unchanged and the log gains `Connected`, the statement and `Closed`. The page shows results exactly when the statement succeeds, otherwise the error. A failure changes no table, and a successful editor statement changes the tables as the engine decides. |
| `Page.HandleSearch` | src/main.ts:134-159 | A blank value shows the empty result area. Otherwise the term's search runs through the connect/run/close shape. |
| `Page.BlankSearchIssuesNoQuery` | src/main.ts:135-140 | The engine is untouched exactly when the search value is blank, and then the results are cleared. |
| `Page.SetDisabled` | src/main.ts:125-127 | Every control that exists gets the flag, and missing (null) controls are skipped. |
| `Page.Page.RunQuery` | src/main.ts:163-184 | The engine's new state and the display are those of `HandleQuery`, and the editor's interactivity is unchanged. |
| `Page.Page.OnSearchInput` | src/main.ts:134-159 | The engine's new state and the display are those of `HandleSearch`. |
| `Page.Page.OnClear` | src/main.ts:208-211 | The result area is cleared. |
| `Page.Page.Start` | src/main.ts:124-228 | Start-up runs the loader (as `LoadSpec`). Afterwards every control is disabled exactly when the load failed and the editor is interactive exactly when it passed. The load error is shown on failure, and the display is otherwise untouched. |
| `Paths.PathJoin` | tmp/aozora_data.py:74 | `os.path.join(a, b)` ends with b. A relative b lands after a, and an absolute b replaces a. |
| `Paths.Basename` | tmp/aozora_data.py:73 | `os.path.basename` is the suffix after the last `/` and holds no `/`. |
| `Paths.BasenameAppend` | tmp/aozora_data.py:73-74 | Appending text without `/` extends the last path component by that text. |
| `Paths.BasenameOfJoin` | tmp/aozora_data.py:74 | Joining a directory with a name holding no `/` keeps the directory as a prefix, and the last component of the result is the name. |
| `Paths.PathJoinInjective` | tmp/chunk.py:51 | Joining one directory with distinct relative names gives distinct paths. |
| `Chunk.CeilDivBounds` | tmp/chunk.py:11 | `num_chunks` is the least number of target-sized chunks that covers the file, and is at most its size. |
| `Chunk.GetChunkSizes` | tmp/chunk.py:7-21 | Fails (division by zero) exactly when the size or the target is 0. Otherwise it gives `ceil(total / target)` chunks that sum to the total. Every chunk but the last is `total // n`, and the last is `total // n + total % n`. |
| `Chunk.ChunkSizesBounds` | tmp/chunk.py:11-19 | Every chunk has at least one byte. The last is at least the base and less than base + n. |
| `Chunk.LastChunk` | tmp/chunk.py:15-19 | What remains after n-1 base chunks is the base plus the remainder. |
| `Chunk.PartCountMatchesLoader` | tmp/chunk.py:7-11 | At the default 60 MiB target, the splitter produces the loader's six parts exactly when the input is over 300 MiB and at most 360 MiB. |
| `Chunk.SplitParquetFile` | tmp/chunk.py:43-51 | It fails exactly when `get_chunk_sizes` fails. Otherwise it plans one copy per chunk. The copies tile rows 0..total_rows and every copy but the last has `total_rows // n` rows. Copy i is part i, and distinct copies write distinct files under `output_dir`. |
| `Chunk.PartJobsTile` | tmp/chunk.py:44-49 | The `start_row`/`end_row` ranges start at 0, each starts where the previous ends, all are non-negative, and the last ends at the row count. |
| `Chunk.PartJobNext` | tmp/chunk.py:48-49 | A non-last range has `rows_per_chunk` rows and the next starts at its end. |
| `Chunk.LastPartNonNegative` | tmp/chunk.py:49 | The last range's start does not pass the row count. |
| `Chunk.PlanParts` | tmp/chunk.py:47-51 | The loop builds exactly the parts 0..n-1 in index order, each with the range `i * rows_per_chunk` up to the next part's start or the row count. |
| `Chunk.TimesIsProduct` | tmp/chunk.py:48 | The start carried by repeated addition of `rows_per_chunk` equals `i * rows_per_chunk`. |
| `Chunk.PartJobsAt` | tmp/chunk.py:47-51 | The j-th planned copy is part j. |
| `Chunk.UnionOfTiles` | tmp/chunk.py:53-58 | Ranges that tile rows lo..hi read back, with `LIMIT`/`OFFSET` and in order, exactly those rows, and their counts sum to hi-lo. |
| `Chunk.VerificationSources` | tmp/chunk.py:72-76 | The `combined` view reads the part files in index order. |
| `Chunk.VerificationReadsCopies` | tmp/chunk.py:51-76 | When copy i is part i, the view's i-th source is the file copy i wrote, and distinct copies write distinct files. |
| `Chunk.PartFileNamesRelative` | tmp/chunk.py:51 | Part file names are non-empty relative names. |
| `Chunk.SplitRoundTrip` | tmp/chunk.py:72-89 | When every copy succeeds, the union of the parts is the input rows in order, so the two counts the script compares are equal. |
| `AozoraRuby.DropReadings` | tmp/aozora_data.py:14 | Deleting readings introduces no character. |
| `AozoraRuby.DropReadingsNoGroup` | tmp/aozora_data.py:14 | After the second substitution no `《` is followed, anywhere later, by a `》`. |
| `AozoraRuby.DeleteKeepsNoGroup` | tmp/aozora_data.py:16 | Dropping every `｜` keeps that property. |
| `AozoraRuby.RemoveRubyClean` | tmp/aozora_data.py:8-17 | The output of `remove_ruby` holds no `｜` and no complete `《…》` reading. |
| `AozoraRuby.RubyGroup` | tmp/aozora_data.py:12 | A marked group `｜base《reading》` becomes its base, and the scan resumes after the `》`. |
| `AozoraRuby.SubRubyMatch` | tmp/aozora_data.py:12 | At a `｜` whose base and reading are both closed, the group becomes its base and the scan resumes after the `》`. |
| `AozoraRuby.ReadingDropped` | tmp/aozora_data.py:14 | A leftover `《reading》` is deleted, and the scan resumes after it. |
| `AozoraRuby.DropReadingsSkip` | tmp/aozora_data.py:14 | A prefix without `《` is copied unchanged by the second substitution, which then goes on with the rest. |
| `AozoraRuby.SubRubyAbsent` | tmp/aozora_data.py:12 | A string without `｜` is unchanged by the first substitution. |
| `AozoraRuby.RemoveRubyPlain` | tmp/aozora_data.py:8-17 | Text with no `｜` and no `《` comes back unchanged. |
| `AozoraRuby.RemoveRubyGroup` | tmp/aozora_data.py:8-17 | A whole marked group whose base has no `｜` or `《` comes out as its base. |
| `AozoraRuby.RemoveRubyExample` | tmp/aozora_data.py:10-12 | `｜漢字《かんじ》` becomes `漢字`. |
| `AozoraClean.DropControls` | tmp/aozora_data.py:31 | Only the spared characters (as written, the newline) and characters outside the control categories are kept, in order. |
| `AozoraClean.RemoveAnnotations` | tmp/aozora_data.py:34 | Removing annotations introduces no character. |
| `AozoraClean.UnifyNewlines` | tmp/aozora_data.py:37 | No carriage return is left, and only newlines are introduced. |
| `AozoraClean.CollapseBlankLines` | tmp/aozora_data.py:40 | Collapsing blank lines introduces only newlines. |
| `AozoraClean.CollapseSpaces` | tmp/aozora_data.py:41 | No tab and no two adjacent spaces are left, and only spaces are introduced. A leading run becomes one space. |
| `AozoraClean.CleanText` | tmp/aozora_data.py:19-46 | A missing text stays missing, and a text gives a text. |
| `AozoraClean.WhitespaceShape` | tmp/aozora_data.py:37-44 | The white-space steps leave no white space at either end, no tab, no CR and no double space, and add only newlines and spaces. |
| `AozoraClean.CleanTextShape` | tmp/aozora_data.py:19-46 | The cleaned text has no white space at either end, no tab, no `\r` and no two adjacent spaces. Every character except newline and space is outside the control categories. |
| `AozoraClean.CleanTextKeepsNoControls` | tmp/aozora_data.py:31 | With space not a control character, no control character but the newline survives. |
| `AozoraClean.AnnotationRemoved` | tmp/aozora_data.py:34 | A whole `［＃…］` annotation disappears, and the scan resumes after it. |
| `AozoraClean.BlankLinesCollapsed` | tmp/aozora_data.py:40 | A newline, white space holding a newline, and a non-space character become one empty line. |
| `AozoraClean.BlankRunCollapsed` | tmp/aozora_data.py:41 | A run of spaces and tabs becomes one space. |
| `AozoraClean.DropControlsKeeps` | tmp/aozora_data.py:31 | Text whose every character is spared or not a control character passes the filter unchanged. |
| `AozoraClean.DropControlsSkip` | tmp/aozora_data.py:31 | A prefix of kept characters is copied unchanged, and the filter goes on with the rest. |
| `AozoraClean.DropControlsCons` | tmp/aozora_data.py:31 | A kept character is copied, and the filter goes on with the rest. |
| `AozoraClean.CollapseSpacesCons` | tmp/aozora_data.py:41 | A character other than a space or tab is copied by `[ \t]+` → ` `, which goes on with the rest. |
| `AozoraClean.RemoveAnnotationsAbsent` | tmp/aozora_data.py:34 | Text without `［` passes annotation removal unchanged. |
| `AozoraClean.CollapseBlankLinesAbsent` | tmp/aozora_data.py:40 | Text without a newline is unchanged by the blank-line collapse. |
| `AozoraClean.CollapseSpacesAbsent` | tmp/aozora_data.py:41 | Text without spaces or tabs is unchanged by the blank collapse. |
| `AozoraClean.WhitespaceKeeps` | tmp/aozora_data.py:37-44 | Text without white space passes the white-space steps unchanged. |
| `AozoraClean.LaterStepsKeep` | tmp/aozora_data.py:31-44 | Text of non-control, non-space characters without `［` passes every step after ruby removal unchanged. |
| `AozoraClean.AnnotationSurvivesAsWritten` | tmp/aozora_data.py:25-34 | As written, an annotation `［＃body］` whose body NFKC leaves alone cleans to `[#body]` (so `［＃注］` cleans to `[#注]`), because NFKC has already made the brackets ASCII. |
| `AozoraClean.RubyMarkerSurvivesAsWritten` | tmp/aozora_data.py:25-28 | As written, a group `｜base《reading》` that NFKC otherwise leaves alone cleans to `\|base` (so `｜漢字《かんじ》` cleans to `\|漢字`), because NFKC has already made the bar ASCII. |
| `AozoraClean.CleanTextCorrected` | tmp/aozora_data.py:19-46 | With markup removed before NFKC and tab and carriage return spared by the control filter, a missing text still stays missing. |
| `AozoraClean.CorrectedRemovesAnnotation` | tmp/aozora_data.py:33-34 | With the corrected order an annotation cleans to the empty text. |
| `AozoraClean.CorrectedRemovesRuby` | tmp/aozora_data.py:27-28 | With the corrected order a marked ruby group cleans exactly as its base. |
| `AozoraClean.CorrectedShape` | tmp/aozora_data.py:40-44 | The corrected cleaner keeps every white-space and control-character guarantee. |
| `AozoraClean.TabFiltered` | tmp/aozora_data.py:31 | As written, the control filter deletes a tab between two texts of non-control characters. |
| `AozoraClean.TabDroppedAsWritten` | tmp/aozora_data.py:25-44 | As written, a tab between two words is deleted before `[ \t]+` can make it a space, so `a\tb` cleans to `ab` (given that the tab is in category Cc). |
| `AozoraClean.TabKept` | tmp/aozora_data.py:31 | The corrected filter keeps a tab between two texts of non-control characters. |
| `AozoraClean.TabCollapsed` | tmp/aozora_data.py:37-44 | The white-space steps turn a tab between two words into one space. |
| `AozoraClean.TabBlankCollapse` | tmp/aozora_data.py:41 | `[ \t]+` → ` ` turns a tab between two blank-free texts into one space. |
| `AozoraClean.TabRunCollapsed` | tmp/aozora_data.py:41 | A tab followed by a blank-free text becomes a space followed by that text. |
| `AozoraClean.StripKeeps` | tmp/aozora_data.py:44 | `strip()` keeps a text that starts and ends with a non-space character. |
| `AozoraClean.CorrectedKeepsTab` | tmp/aozora_data.py:25-44 | With the corrected filter, `a\tb` cleans to `a b`. |
| `AozoraPaths.ConvertUrlToLocalPath` | tmp/aozora_data.py:66-74 | A non-string input gives None. A string gives a path ending in `.txt`. |
| `AozoraPaths.LocalPathShape` | tmp/aozora_data.py:71-74 | The text file lies inside the rewritten base directory, and its name is the base's last component with `.txt` appended. |
| `AozoraPaths.CardUrlMapsUnderLocalCards` | tmp/aozora_data.py:71 | Every `https://www.aozora.gr.jp/cards/` URL maps under `aozorabunko_text-master/cards/`. |

The functions that only compute carry no contract of their own; the rows
above that state what they promise are these:

- `HtmlEscape.EscapeCell` (src/main.ts:256-264): `EscapeCellIsPerCharacter`,
  `EscapeCellSafe`, `EscapeRoundTrip`, `CellContent`.
- `AozoraRuby.RemoveRuby` (tmp/aozora_data.py:8-17): `RemoveRubyClean`,
  `RemoveRubyPlain`, `RemoveRubyGroup`, `RemoveRubyExample`.
- `AozoraRuby.SubRubyWithBase` and its step `RubyStep`
  (tmp/aozora_data.py:12): `SubRubyMatch`, `RubyGroup`, `SubRubyAbsent`.
- `AozoraClean.Whitespace` (tmp/aozora_data.py:37-44): `WhitespaceShape`,
  `WhitespaceKeeps`.
- `Strings.ReplaceAll` (`str.replace` and the global `replace` calls):
  the `Strings.ReplaceAll…` rows and `HtmlEscape.ChainConcat`.
- `Strings.DecimalString`, `Strings.PadStart` and `Strings.Pad2`
  (src/main.ts:311, tmp/chunk.py:51): `DecimalDigits`, `DecimalRoundTrip`,
  `DecimalInjective`, `PadStartShape`, `Pad2RoundTrip`, `Pad2Injective`.
- `PartNames.PartFileName` and `PartNames.VirtualName` (src/main.ts:311,
  326; tmp/chunk.py:51): `PartFileNameIndex`, `PartFileNameInjective`,
  `VirtualNameInjective`.
- `Loader.PartUrl` (src/main.ts:310-313): `PartUrlInjective`, `UrlsAt`,
  `UrlsDistinct`.
- `Loader.LoadFrom` and `Loader.LoadSpec` (src/main.ts:305-354):
  `LoadParquetParts` (the method is proved equal to `LoadSpec`) and the
  `Loader.Load…` lemmas.
- `Engine.Succeeds` and `Engine.Apply` (src/main.ts:330-338):
  `Engine.Execute`.
- `Chunk.CeilDiv` (tmp/chunk.py:11): `CeilDivBounds`.
- `Chunk.PartJob` and `Chunk.PartJobs` (tmp/chunk.py:47-51):
  `PartJobsTile`, `PartJobNext`, `PartJobsAt`, `PlanParts`.
- `Chunk.Slice` and `Chunk.UnionAll` (tmp/chunk.py:53-58): `UnionOfTiles`,
  `SplitRoundTrip`.
- `AozoraPaths.LocalBase` (tmp/aozora_data.py:71-72):
  `CardUrlMapsUnderLocalCards`, `LocalPathShape`.

## Left out

- DuckDB itself: SQL parsing and execution, Parquet decoding and row
  counts. A table is modelled as the sequence of fragment contents appended
  to it. The engine rules kept are that CREATE fails on an existing table,
  INSERT needs one, and both need the registered file. What DuckDB decides
  from the bytes or the SQL is an `Oracle` parameter: whether a buffer
  reads as Parquet (`readable`), whether its columns fit the table
  (`appendable`), whether an editor, statistics or search statement runs
  (`accepts`) and what it does to the tables (`effect`).
- Engine.Execute: the row count does not change a table and always
  succeeds on an existing one. A failure of `COUNT(*)` for other reasons
  (the engine running out of memory, say) is not modelled.
- The literal SQL text, and the `LIKE` semantics of the search. The term is
  interpolated without escaping, so a quote in it only makes the statement
  fail. That case is covered by `accepts`.
- Browser `fetch`, `window.location`, `BASE_URL` and `new URL(...)`. A
  fragment URL is an opaque base string followed by the file name. A
  rejected `fetch` or `arrayBuffer` is one `Rejected` response.
- Page.HandleQuery: the display records "results" even when the statement
  returns no rows. The source then leaves the previous content in place
  (src/main.ts:239, 285-287). The header row, the table layout and the
  `text-content` class are not modelled, nor is the error path inside
  `displayResults`.
- Page.Page.Start: only the control flags, the editor's `pointerEvents` and
  the display are modelled. Creating the editor and the database worker is
  not. A failure of `db.connect()` or `conn.close()` is not modelled.
- Logging (`console.*`) and all printing, including the MB figures.
- Caching of the fragments: `loadParquetParts` fetches every fragment on
  every load and keeps nothing between page loads, so there is nothing to
  model. Only the query handlers close their connection in `finally`;
  `loadParquetParts` rethrows without closing
  (`Loader.LoadClosesOnlyOnSuccess`).
- Chunk.GetChunkSizes: `math.ceil(total_size / target)` uses floating-point
  division. The model uses the exact integer ceiling, which agrees whenever
  both sizes are below 2^53.
- Chunk.SplitRoundTrip: assumes every COPY succeeds, and reads
  `LIMIT n OFFSET k` on `input_data` (which has no `ORDER BY`) as the rows
  k..k+n in file order. That holds only because DuckDB keeps insertion
  order by default. The script catches a
  failed COPY, prints it and moves on, and it catches and prints
  verification errors. Creating the directory, counting rows through
  DuckDB and writing files are not modelled.
- HtmlEscape.EscapeRoundTrip: `Unescape` decodes only the five references
  the escape produces. What the browser's HTML parser also does when
  `innerHTML` is set is not modelled: it turns `\r\n` and `\r` into `\n` and
  drops U+0000 in a table cell. So the page shows the cell's text up to
  those changes.
- Unicode tables: NFKC normalisation is the parameter `nfkc` and
  `unicodedata.category(c)[0]` is the parameter `majorCategory`. Facts about
  particular characters appear as hypotheses of the lemmas that need them.
- `read_shiftjis_text_file`, `process_aozora_data` and `tmp/testdb.py`:
  file I/O, encoding fallback, pandas and DuckDB work. They are not part of
  this model.

## Findings

| source | as written | input that shows it | evidently intended | confidence | as-written member | corrected member |
|---|---|---|---|---|---|---|
| tmp/aozora_data.py:25-34 | NFKC runs before annotation removal, so `［`, `＃` and `］` are already ASCII and the pattern `［＃[^］]*］` can never match | `［＃注］` cleans to `[#注]` | remove Aozora annotations, as the comment on line 33 says | high (NFKC maps the fullwidth forms to ASCII); not executed | `AozoraClean.AnnotationSurvivesAsWritten` | `AozoraClean.CorrectedRemovesAnnotation` |
| tmp/aozora_data.py:25-28 | NFKC runs before `remove_ruby`, so `｜` is already the ASCII `\|` and the base marker is never removed | `｜漢字《かんじ》` cleans to `\|漢字` | remove ruby, leaving the base `漢字` | high (NFKC maps U+FF5C to U+007C); not executed | `AozoraClean.RubyMarkerSurvivesAsWritten` | `AozoraClean.CorrectedRemovesRuby` |
| tmp/aozora_data.py:31-41 | the control filter spares only `\n`, so a tab and a carriage return (category Cc) are deleted before the steps on lines 37 and 41 that normalise them | `a\tb` cleans to `ab` | a tab becomes a space and `\r` a newline, as lines 37 and 41 intend | medium (the tab's category is Cc in the Unicode tables); not executed | `AozoraClean.TabDroppedAsWritten` | `AozoraClean.CorrectedKeepsTab` |
