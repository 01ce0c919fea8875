# A verified model of the JSON database

The repository keeps tables of records in linked lists, saves them as JSON text and loads them back. This project
models the parts that do the work and proves what they promise, or exactly when they keep that promise.

* **Reading JSON.** `lexer.dfy` holds the hand-written lexer, as a class whose position moves and as the function it
  computes. `token_stream.dfy` turns repeated lexer calls into one stream of tokens, `layout.dfy` and `json.dfy` say
  which texts are layouts of an RFC 8259 tree and prove that the lexer reads them right, `lexing_rules.dfy` what it
  reads from any text, `skipper.dfy` holds the recursive value skipper, `loose_json.dfy` the grammar it accepts, and
  `lexing_loop.dfy` where a loop of lexer calls is caught for ever.
* **Rewriting JSON.** `transform.dfy` (minify), `minify_stream.dfy` (when it keeps the tokens of any text),
  `pretty.dfy` (pretty-printing without a bound), `pretty_layout.dfy` (its lines) and `pretty_print.dfy` (the pretty
  printer in the buffer it guesses) are two character machines related by simulation. `escaping.dfy` holds string
  escaping, bounded and allocated, with a decoder that follows section 7 of RFC 8259.
* **Saving and loading.** `serializer.dfy` is the growable buffer, `save.dfy` the saved text and its tree,
  `save_loops.dfy` the serializer's methods, `saved_tree.dfy` what that tree says. `loader.dfy` is what the parsers
  make of a stream of tokens, `load_loops.dfy` the parsers themselves, `catalog.dfy` the two table layouts, and
  `scalars.dfy`, `record_loading.dfy` and `database_loading.dfy` what any JSON tree loads to. `round_trip.dfy`,
  `durability.dfy`, `unwritable.dfy` and `fidelity.dfy` prove what comes back.
* **The store.** `schema.dfy` says on values what each operation does to a table, `linked_table.dfy` proves the linked
  lists equal to that, `store.dfy` adds nested transactions, `batches.dfy` says which insertions succeed, `effects.dfy`
  what every operation does to the stored fields, `database.dfy` is the database object proved equal to the state
  machine, and `runs.dfy` proves what every run keeps, loads included.
* **Companions.** `string_replace.dfy`, `transaction_ids.dfy` (transactions begun and ended by threads that interleave
  at every step) and `hex_cipher.dfy`.

Text is a sequence of characters, and the time, the file's content and the caller's buffers are parameters. Each method
is proved equal to a function, and the theorems are about those functions.

## What the code does not do

Some claims one would expect are false of the code. Each has a lemma with an input that shows it, and a condition that
says, for all inputs, exactly when the code does meet the claim.

| claim | input on which it fails | exactly when it holds |
|---|---|---|
| a stored string survives save and load | `Escaping.QuoteGrows` | `Escaping.SurvivesExactly` |
| names survive, and stay apart | `Fidelity.NamesCanMeet` | `Fidelity.NameComesBack`, `Fidelity.ColumnsKept`, `Durability.SaveLoadRoundTrip` |
| every value goes back to its own column | `Fidelity.SharedNameLoses` | `Fidelity.FieldSurvives`, `Fidelity.RoundTripExactly` |
| a value that is an object or array is passed over | `RecordLoading.NestedValueFails` | `RecordLoading.NestedValueEnds` |
| a column's type survives | `Fidelity.DoubleIsLost` | `Fidelity.TypeComesBack` |
| pretty-printing returns the whole document | `PrettyPrint.PrintedCutsShort` | `PrettyPrint.PrintedKeepsAll` |
| the pretty printer's buffer holds its terminator | `PrettyPrint.NoByteLeft` | `PrettyPrint.TerminatorFits` |
| minifying keeps the tokens of any text | `Transform.MinifyJoinsNumbers`, `MinifyStream.MinifyMakesWords` | `MinifyStream.MinifyKeepsTokens` |
| what is skipped is JSON | `LooseJson.SkipNotSound` | `LooseJson.SkipTextAccepts` |
| lexing a text comes to its end | `LexingLoop.LoopHangs` | `LexingLoop.LexingLoopEnds` |
| an update keeps key and id equal | `Store.KeyDrifts` | `Store.KeyFollowsId` |
| a failed batch leaves no trace | `Runs.BatchEndsTransaction` | `Batches.BatchUnchanged`, `Runs.BatchChangesTables` |
| a batch leaves the caller's transaction open | `Runs.BatchEndsTransaction` | `Runs.BatchKeepsTransaction` |
| so does a deletion by field | `Runs.DeleteByFieldEndsTransaction` | `Runs.DeleteByFieldKeepsTransaction` |
| table names are distinct | `Runs.NamesCollide` | `Runs.NamesStayDistinct` |
| `string_replace` ends | `StringReplace.CountingStays` | `StringReplace.CountingEnds` |
| a transaction ends once | `TransactionIds.BothEnd` | `TransactionIds.EndsTwiceExactly`, `TransactionIds.EndedStaysExactly` |

The repository's own documentation promises atomicity, durability, isolation and rollback; where it disagrees with the
code, the model follows the code.

## Model

| member | source | states |
|---|---|---|
| `Lexer.ParseContext.ParseToken` | src/json_io.c:231-382 | one call drops leading white space and takes the token that stands there, with exactly its characters; the position never passes the end, and every token but NONE and EOF moves it forward |
| `Lexer.ParseContext.ParseQuoted` | src/json_io.c:268-303 | a string runs to the first quote that no backslash escapes; unclosed, it is token NONE with everything read |
| `Lexer.ParseContext.ParseNumber` | src/json_io.c:325-373 | a number is sign, digits, fraction and exponent as far as they go, and the position stops right behind |
| `Lexer.ParseContext.SkipWhitespace` | src/json_io.c:211-215 | the position moves over white space, and only over that |
| `Lexer.ParseContext.MatchString` | src/json_io.c:217-229 | a word matches exactly when the unread text begins with it, and only then is it consumed |
| `TokenStream.NextIsLex` | src/json_io.c:231-382 | repeated lexer calls on any text are a walk along one finite stream that then repeats its ending, so parsers may be stated on tokens |
| `TokenStream.ReadToken` | src/json_io.c:231-382 | a lexer call on the moving position is one step along that stream, and shortens it unless the token is NONE or EOF |
| `LexingLoop.LexingLoopEnds` | src/json_io.c:2673-2698 | the statistics loop, which lexes until EOF, ends if and only if a scan of the characters finds none that stands where a token should start and begins none; otherwise, from some call on, every call finds no token and leaves the text from that character unread |
| `LexingLoop.LoopHangs` | src/json_io.c:2673-2698 | a text on which it does not end, and the place |
| `LexingLoop.ScanIsEnding` | src/json_io.c:231-382 | the character scan and the lexer agree on every text about whether there is such a character |
| `Layout.LexLexeme` | src/json_io.c:231-382 | the lexer reads back the lexeme of every well-formed token, whatever follows it that cannot prolong a number |
| `Layout.LexText` | src/json_io.c:231-382 | a text of lexemes with any white space between them lexes to exactly those tokens |
| `LexingRules.LexExactly` | src/json_io.c:231-382 | one call on any text, well-formed or not: white space, then exactly the token the rules name, and exactly the rest |
| `LexingRules.BodyExactly` | src/json_io.c:268-303 | a string runs to the first quote with an even number of backslashes in front of it |
| `LexingRules.NumberExactly` | src/json_io.c:325-373 | a number is a sign, digits, a fraction and an exponent, each as far as it goes, in any text |
| `Json.LayoutPiecesOk` | src/json_io.c:231-382 | every lexeme in a layout of an RFC 8259 tree is one the lexer reads back whole |
| `Json.LexLayout` | src/json_io.c:231-382 | every layout of a JSON tree, in front of any text, lexes to the tree's tokens |
| `Skipper.SkipExact` | src/json_io.c:391-469 | for every RFC 8259 tree, any white space, any depth and any suffix that cannot prolong a number: lexing one token and skipping it succeeds and leaves exactly the suffix unread |
| `Skipper.SkipTree` | src/json_io.c:391-469 | after the first token of any tree the skipper succeeds and leaves exactly the tokens behind the tree |
| `Skipper.SkipAgrees` | src/json_io.c:391-469 | on every text, JSON or not, the skipper's outcome and what it leaves depend on the tokens alone |
| `LooseJson.SkipAcceptsLoose` | src/json_io.c:391-469 | the skipper succeeds, leaving k, if and only if the tokens begin with a sentence of the loose grammar with k behind it: any token but an opening bracket is a scalar, a trailing comma is allowed |
| `LooseJson.UniqueReading` | src/json_io.c:391-469 | that sentence, and what stands behind it, are determined by the tokens |
| `LooseJson.LooseIsJson` | src/json_io.c:391-469 | a sentence is JSON if and only if no comma stands in front of a closing bracket and every key and scalar is one of RFC 8259 |
| `LooseJson.SkipTextAccepts` | src/json_io.c:391-469 | the same on any text: when the skipper succeeds, the one sentence it passed, what it leaves, and exactly when that was JSON |
| `LooseJson.SkipNotSound` | src/json_io.c:424-427 | two texts that are skipped to their end without complaint and are no JSON: an array with a trailing comma, and one whose only item is a colon |
| `Skipper.SkipTokenValue` | src/json_io.c:391-469 | the recursive skipper on the moving position does what the text-level and token-level functions say, and terminates on every input because the unread text gets shorter |
| `Skipper.SkipObjectLoop` | src/json_io.c:395-435 | the object loop, with the same guarantees |
| `Skipper.SkipArrayLoop` | src/json_io.c:438-464 | the array loop, with the same guarantees |
| `Transform.MinifyLayout` | src/json_io.c:2763-2786 | every white-space layout of a tree minifies to the tree's one compact printing, and the token stream is unchanged |
| `Transform.MinifyIdempotent` | src/json_io.c:2763-2786 | minifying twice is minifying once, on every text and from every state of the two flags |
| `Transform.MinifyPlus` | src/json_io.c:2763-2786 | the two-flag machine is compositional: minifying a concatenation is minifying the parts, the second from the state the first leaves |
| `MinifyStream.MinifyKeepsTokens` | src/json_io.c:2763-2786 | minifying a text, JSON or not, keeps its tokens if and only if nothing is glued together: no number is prolonged by what comes to stand behind it, and no unexpected character comes to begin a word |
| `Transform.MinifyJoinsNumbers` | src/json_io.c:2770-2776 | an input where two numbers become one |
| `MinifyStream.MinifyMakesWords` | src/json_io.c:2770-2776 | an input where an unexpected letter becomes the first of a word |
| `Transform.Compress` | src/json_io.c:2752-2788 | the loop fills a buffer of the input's length plus one with the minified text and a terminator, all writes in bounds |
| `Pretty.MinifyPretty` | src/json_io.c:2474-2514 | minify undoes unbounded pretty-printing, for every text, indent, margin and state of the flags |
| `Pretty.PrettyStream` | src/json_io.c:2474-2514 | every text lexes to the same stream before and after unbounded pretty-printing |
| `PrettyLayout.PrettyLines` | src/json_io.c:2467-2516 | the layout of the unbounded printing of a text without line breaks: one line more than brackets and commas outside strings, each indented by max(0, depth times indent) blanks, each with its part of the text, and nothing added but a blank behind every colon outside strings |
| `PrettyLayout.PartsWellCut` | src/json_io.c:2467-2516 | the parts end behind opening brackets and commas and in front of closing brackets, outside strings, everywhere and nowhere else |
| `PrettyPrint.PrintedKeepsAll` | src/json_io.c:2464-2519 | with a positive indent the result is a terminated text that minifies to the minified input if and only if there is a byte left for the terminator, and nothing is kept or the unbounded printing in front of the last kept character is shorter than the guess |
| `PrettyPrint.TerminatorFits` | src/json_io.c:2467-2516 | the characters always fit the 2n bytes allocated; the terminator behind them does if and only if the input is not empty and no character fills the buffer, said of the unbounded printing in front of that character |
| `PrettyPrint.NoByteLeft` | src/json_io.c:2467-2516 | an ordinary array for which there is no byte left |
| `PrettyPrint.WrittenKeepsAll` | src/json_io.c:2474-2514 | the characters written minify to the minified input if and only if the guess is not reached in front of the last kept one |
| `PrettyPrint.PrintedInFull` | src/json_io.c:2464-2519 | when the unbounded printing fits the guess, or the indent is not positive, it is what is returned, and the terminator fits |
| `PrettyLayout.PrintedLines` | src/json_io.c:2467-2516 | where the printing fits, the text returned has that layout |
| `PrettyPrint.PrintedCutsShort` | src/json_io.c:2467 | an array of one digit already loses its closing bracket to the guess |
| `PrettyPrint.ReadExactly` | src/json_io.c:2474 | character i is looked at if and only if the unbounded printing in front of it stays below the guess |
| `PrettyPrint.PrettyPrintLoop` | src/json_io.c:2465-2519 | the loop, in the buffer of 2n bytes: every character is written in bounds, what is written is the printing those theorems are about, and the terminator follows exactly when it fits |
| `PrettyPrint.PrettyPrintText` | src/json_io.c:2448-2523 | likewise, and a terminated copy without a positive indent |
| `PrettyPrint.WriteOne` | src/json_io.c:2475-2513 | one pass moves the buffer, the flags and the level as the page machine does |
| `PrettyPrint.WriteOutside` | src/json_io.c:2477-2506 | the branches outside strings, in bounds: brackets, comma, colon and the indentation cut at the limit |
| `Escaping.EscapeIdentity` | src/json_io.c:128-196 | escaping changes nothing exactly on text without quotes, backslashes and control characters, and otherwise lengthens it |
| `Escaping.BufferSuffices` | src/json_io.c:128-196 | a buffer receives the whole escaped text if and only if that text and a terminator fit; otherwise something is silently dropped |
| `Escaping.EscapeIntoFits` | src/json_io.c:128-196 | whatever the buffer, the terminator stays in bounds |
| `Escaping.SixfoldSuffices` | src/json_io.c:198-208 | with the 6n+1 characters that are allocated nothing is ever dropped |
| `Escaping.EscapeString` | src/json_io.c:128-196 | the loop writes that text and a terminator into any non-empty buffer, in bounds, and nothing behind it |
| `Escaping.EscapeStringAlloc` | src/json_io.c:198-208 | the allocated string is the pure escape of the input |
| `Escaping.DecodeEscape` | src/json_io.c:128-196 | a decoder following section 7 of RFC 8259 recovers every text from its escaped form |
| `Escaping.LexEscaped` | src/json_io.c:268-303 | quote, escaped text, quote, and any suffix lex to one STRING token whose value is the still escaped text, and the lexer stops just behind the closing quote |
| `Escaping.SurvivesExactly` | src/json_io.c:1169-1173 | a string that fits its buffer comes back unchanged from save and load if and only if it needs no escape, or is plain text followed by backslashes only that fills the buffer |
| `Escaping.QuoteGrows` | src/json_io.c:298-301 | a quote comes back with a backslash in front of it |
| `Decimal.AtoiOfIntText` | src/json_io.c:1162-1168 | reading back a printed integer gives the integer |
| `Decimal.IntTextIsNumber` | src/json_io.c:544-549 | a printed integer is a number of the JSON grammar |
| `Decimal.AtoiExactly` | src/json_io.c:1161-1164 | what is read from any text is the integer it begins with, behind white space and a sign, and 0 if it begins with none |
| `Serializer.SerializeState.EnsureCapacity` | src/json_io.c:472-488 | doubling ends with room for the addition and a terminator, and loses nothing |
| `Serializer.SerializeState.Write` | src/json_io.c:490-499 | the buffer's contents become the old contents followed by the text; size + 1 stays within capacity and the terminator stands at size |
| `Serializer.SerializeState.AppendString` | src/json_io.c:501-517 | the contents grow by the escaped text between quotes, which is one string lexeme |
| `Serializer.SerializeState.Indent` | src/json_io.c:519-534 | a pretty serializer adds a line break and two blanks a level, which is white space; otherwise nothing |
| `Serializer.SerializeState.Output` | src/json_io.c:490-499 | after any sequence of appends and indents the buffer is the concatenation of the pieces appended |
| `Save.SaveEmit` | src/json_io.c:1471-1595 | for every database the text that saving appends has exactly the tokens of the database's JSON tree |
| `SavedTree.DatabaseIsSaved` | src/json_io.c:1471-1595 | the saved tree holds the database: its metadata, and for every table its name, count, columns with types and constraints, and every record with id, stamp, version and each value under its column's name |
| `Save.SchemaEmit` | src/json_io.c:630-724 | the schema part has the tokens of the schema tree, with commas and constraint lists in the right places |
| `Save.RecordEmit` | src/json_io.c:739-812 | a record's part has the tokens of its tree |
| `Save.RecordListEmit` | src/json_io.c:734-812 | the record loop separates records by commas, whichever have been written |
| `SaveLoops.SaveToText` | src/json_io.c:1471-1595 | the nested serializer loops write exactly the saved text |
| `SaveLoops.SerializeTableSchema` | src/json_io.c:630-724 | the schema writer appends exactly its pieces and restores the indent level |
| `SaveLoops.SerializeConstraints` | src/json_io.c:663-690 | the three constraint flags are listed with separators only between listed ones |
| `SaveLoops.SerializeFieldValue` | src/json_io.c:537-586 | a value is appended as the one lexeme its type asks for |
| `SaveLoops.PutFieldName` | src/json_io.c:758-761 | a record's field name is written between quotes without escaping |
| `SaveLoops.SerializeTableRecords` | src/json_io.c:726-817 | the record writer appends exactly its pieces and restores the indent level |
| `SaveLoops.SerializeMetadata` | src/json_io.c:589-628 | the metadata object, likewise |
| `LoadLoops.ParseMetadataObject` | src/json_io.c:820-889 | reads one metadata object to its end, or rejects it, as the token-level parser does; nothing of it is kept |
| `LoadLoops.ParseColumn` | src/json_io.c:974-1048 | one field object on the moving position gives the name and type the token-level parser gives |
| `LoadLoops.ParseColumns` | src/json_io.c:955-1085 | the "fields" array, likewise |
| `LoadLoops.ParseSchemaObject` | src/json_io.c:905-1120 | the schema loop, in which a nested "schema" object is flattened into the outer one |
| `LoadLoops.ParseTableSchema` | src/json_io.c:891-1147 | a parsed schema with a name and columns becomes a new table, anything else is INVALID_INPUT |
| `LoadLoops.Catalogue.Add` | src/database.c:561-661 | a table is added exactly when its column count is in range, no table has the name and there is room; the first column is its primary key and all are nullable |
| `LoadLoops.ParseFieldValue` | src/json_io.c:1149-1226 | one token becomes a value of the column's type; only null changes the field's type |
| `LoadLoops.ParseFields` | src/json_io.c:1335-1405 | the "fields" object of a record fills the columns it names, and drops one token for a name it does not know |
| `LoadLoops.ParseRecord` | src/json_io.c:1286-1429 | one record object gives an id, -1 by default, and one field for each column |
| `LoadLoops.WriteKey` | src/json_io.c:1432-1440 | the first primary-key column is overwritten with the record's id, as an INT |
| `LoadLoops.ParseTableRecords` | src/json_io.c:1228-1466 | each record with an id is inserted at the head; a taken id is passed over, any other failure ends the load |
| `LoadLoops.ParseBehindSchema` | src/json_io.c:1760-1928 | behind a schema the parser tells flat from nested tables by one or two tokens |
| `LoadLoops.ParseSiblings` | src/json_io.c:1834-1890 | further members of a nested table, up to its closing brace |
| `LoadLoops.ParseTables` | src/json_io.c:1729-1929 | the array of tables in either layout, on the moving position |
| `LoadLoops.LoadDatabase` | src/json_io.c:1620-1972 | loading a text gives the tables the token-level loader gives, or nothing, and ends on every input |
| `DatabaseLoading.AnyDatabaseLoads` | src/json_io.c:1620-1972 | any layout of a JSON tree whose tables, schemas and records have the shapes the loader reads, whatever else it holds and in whatever order: it loads to tables exactly when it means them, table by table, column by column, record by record, and is rejected exactly when a schema makes no table or records do not fit |
| `DatabaseLoading.TableOfExactly` | src/json_io.c:891-1147 | a schema object makes a table if and only if its name is not empty and not taken, it has 1 to 50 columns, all named, and fewer than 100 tables are there; the last name counts, cut to 63 characters |
| `DatabaseLoading.ColumnExactly` | src/json_io.c:970-1048 | a column object is accepted if and only if its names and types are strings; the last of each counts, and without a type it is STRING |
| `DatabaseLoading.AddTableExactly` | src/database.c:561-661 | when a table is added, and with which columns: the first is the primary key, all may be NULL |
| `Scalars.FieldsLoopReads` | src/json_io.c:1335-1405 | for every object of scalars, under whatever names: every column type reads every kind of scalar as the source's switch does, the last value for a column counts, null marks it NULL, what no column is named for is dropped, and a column nothing is written for keeps its default |
| `Scalars.ValueReads` | src/json_io.c:1149-1226 | one value by column type, in terms of the JSON value: BOOL from a number is whether it denotes anything but 0, from a string whether it is true, 1 or yes in any case; INT is the integer the text denotes; STRING is the text cut to 255 characters |
| `Scalars.TypeOfExactly` | src/database.c:1800-1809 | a text names a column type exactly when it is one of the type's names, in any case |
| `RecordLoading.RecordLoopReads` | src/json_io.c:1262-1431 | a record object, whatever the order of its members and whatever else it holds: the last number given as id, and the fields of all its "fields" objects |
| `RecordLoading.RecordsLoopReads` | src/json_io.c:1228-1466 | an array of record objects puts each record with an id of its own in front, with the id in the first column; records without an id, or with one that is taken, are dropped; it fails only when the table is full |
| `RecordLoading.NestedValueEnds` | src/json_io.c:1374-1405 | an object or array under a field name makes loading fail, unless it is an empty object, whose brace ends the fields |
| `RecordLoading.NestedValueFails` | src/json_io.c:1374-1405 | an input that shows it |
| `Catalog.LayoutsAgree` | src/json_io.c:891-1147 | for any list of schema objects, each written flat or nested in any mixture, loading their tokens gives the catalogue the schemas mean, in order, or rejects it for the same schema |
| `Durability.CatalogTextLoads` | src/json_io.c:1729-1929 | the same for every text that is a layout of those tables |
| `Durability.LayoutOfTextDoesNotMatter` | src/json_io.c:1729-1929 | two texts that differ only in white space and in which tables are nested load alike |
| `Catalog.ParseSchemaReads` | src/json_io.c:891-1147 | behind a table's opening brace the schema parser makes the same of both layouts; only the outer closing brace is left over |
| `Durability.SaveLoadRoundTrip` | src/json_io.c:1471-1595 | for every database within the limits whose names can be read to their closing quote: the text saving writes, that text minified, and that text pretty-printed without the size guess all load to the same tables, with names and values as read back and every record list reversed, or all fail, which is exactly when two tables come back under one name |
| `Durability.AnyLayoutLoads` | src/json_io.c:1620-1972 | so does every other white-space layout of the saved tree |
| `Durability.SaveIsJson` | src/json_io.c:1471-1595 | what saving writes lays out the database's tree, and that is an RFC 8259 tree if and only if every column name, where records are written under it, can stand between quotes as it is, and numbers are formatted as the standard wants them |
| `Fidelity.RoundTripExactly` | src/json_io.c:1471-1595 | with INT, STRING and BOOL columns under any names, the first one holding the id: loading succeeds and every table comes back as itself with its records reversed, if and only if table names are distinct, every name survives and every field does |
| `Unwritable.UnreadableNames` | src/json_io.c:758-761 | a column name with a quote that nothing escapes, or an odd run of backslashes at its end, cuts its key off: whatever tokens the rest of the text then is, if it loads, the first table with such a name comes back with other column names |
| `Unwritable.TopKeeps` | src/json_io.c:1620-1972 | whatever tokens follow, a table once made keeps its place and its columns until loading is over |
| `Unwritable.SaveHeadLexes` | src/json_io.c:1471-1595 | the saved text lexes to its tree's tokens up to the schema of the first table with such a name |
| `Fidelity.NameComesBack` | src/json_io.c:940-941 | a table name comes back if and only if it is plain, or plain text followed by backslashes only that fills its buffer |
| `Fidelity.NamesCanMeet` | src/json_io.c:940-941 | two different names that come back as one |
| `Fidelity.TwoCyclesRestore` | src/json_io.c:1228-1466 | saving and loading twice restores names, columns, ids, values and the original record order |
| `Fidelity.FieldSurvives` | src/json_io.c:1433-1439 | under plain column names, distinct or not, a field comes back unchanged if and only if it is the key, or its value survives, or, under a name several columns share, it already was what ends up there: the last one's value in the first column, nothing in the others |
| `Fidelity.SharedNameLoses` | src/json_io.c:1366-1373 | two columns of one name: the first comes back with the second one's text, the second one empty |
| `Fidelity.ColumnsKept` | src/json_io.c:654-661 | the columns come back as they were if and only if their names need no escape |
| `Fidelity.TypeComesBack` | src/database.c:1786-1809 | a column type is read back as itself if and only if it is neither DOUBLE nor NULL |
| `Fidelity.DoubleIsLost` | src/database.c:1800-1809 | DOUBLE is written but its name is not read back |
| `RoundTrip.LoadTree` | src/json_io.c:1620-1972 | loading the tokens of a saved tree gives the reloaded tables, or fails when two names meet, whatever tokens follow |
| `RoundTrip.RecordsRead` | src/json_io.c:1239-1463 | the record loop, started at any point of the saved list, ends with all records stored in reverse |
| `RoundTrip.FieldsRead` | src/json_io.c:1335-1405 | the field loop puts every value into the first column that came back under the name it is written with |
| `RoundTrip.KeyStored` | src/json_io.c:1433-1439 | the key written into the first column is the id the insertion then uses |
| `RoundTrip.MetadataRead` | src/json_io.c:820-889 | any object whatever is accepted as metadata, read to its end and dropped |
| `Schema.Find` | src/database.c:856-885 | the first record with the id, or none |
| `Schema.ColumnIndex` | src/database.c:990-996 | the first column with the name, or none |
| `Schema.MaxId` | src/database.c:18-23 | an upper bound of all ids that is 0 or one of them |
| `Schema.GeneratedIsFresh` | src/database.c:14-27 | a generated id is positive and above every id in the table, and the shared counter never falls |
| `Batches.InsertExactly` | src/database.c:677-769 | an insertion succeeds if and only if there is room, the first value is typed, NULLs are allowed and a supplied key is not stored; refused, it changes nothing |
| `Batches.InsertStores` | src/database.c:711-754 | on success the record stands at the head, under the supplied or the generated id, with the values given and the columns' types |
| `Store.InsertKeepsInv` | src/database.c:677-769 | insertion keeps ids distinct and not -1, the count right and at most 10000, and the next id above all; on success the count grows by one and the new id is below the next |
| `Store.GeneratedNeverClashes` | src/database.c:700-718 | where no primary-key column holds an INT, or the first that does holds -1, an insertion never fails for a duplicate key, and its id is positive and above all ids there |
| `Store.SuppliedIdIsUsed` | src/database.c:700-718 | the INT in the first primary-key column that holds one, if it is not -1, is the new id, or is refused because a record has it; the id counter stays |
| `Effects.InsertEffect` | src/database.c:677-769 | the code of every insertion, check by check, and what it leaves: on success one new record in front, with the columns' types, the values given, version 1 and the time; count and next id follow; otherwise nothing changes |
| `Effects.InsertId` | src/database.c:700-713 | the id of every new record, from what the primary-key columns hold: the INT supplied, or one more than the largest id, or the shared counter |
| `Store.RewriteStops` | src/database.c:1074-1097 | an update overwrites the columns in front of the first key clash and none from there on; without a clash it overwrites all |
| `Store.UpdateKeepsInv` | src/database.c:1058-1162 | an update, successful or cut short, changes no id and no other record, and keeps the invariant |
| `Effects.UpdateEffect` | src/database.c:1058-1162 | every update, field by field: on success each field has the new value, and the new type unless that is UNKNOWN, and stamp and version move on; on a duplicate key exactly the fields in front of the first refused column are replaced; no other record, and no id, changes |
| `Store.KeyFollowsId` | src/database.c:1076-1097 | after a successful update the key column equals the record's id if and only if the new key is the old id |
| `Store.KeyDrifts` | src/database.c:1076-1097 | a record with id 1 can be given key 2 |
| `Store.DeleteKeepsInv` | src/database.c:1193-1228 | deletion keeps the invariant |
| `Store.DeleteForgets` | src/database.c:1193-1228 | a deletion succeeds if and only if the id is there; then it is gone, every other record is left and none is new |
| `Effects.DeleteEffect` | src/database.c:1193-1228 | the first record with the id is taken out and the others move up; without one, nothing changes |
| `Store.InsertThenDelete` | src/database.c:677-769 | deleting the record just inserted restores the table, but for its next id |
| `Store.FilterSplits` | src/database.c:1288-1339 | deletion by field and search by field split the records: nothing is lost or invented, the search finds nothing among the kept, and keeping again keeps all |
| `Store.FilterKeepsOrder` | src/database.c:1288-1339 | any two kept records stand in the order they stood in before |
| `Effects.SearchEffect` | src/database.c:1014-1033 | in an INT, STRING or BOOL column that holds values of its kind, a search finds exactly the records whose field is the value sought, and all the others are kept; FLOAT and DOUBLE likewise, by their texts |
| `Effects.DeleteAllEffect` | src/database.c:1288-1339 | deletion by field leaves exactly the records whose field is another value, and the count follows |
| `Effects.NeverFound` | src/database.c:1030-1032 | a DATETIME, BLOB, NULL or UNKNOWN column never matches |
| `Store.DeleteAllKeepsInv` | src/database.c:1288-1339 | deletion by field keeps the invariant |
| `Effects.RecordOpEffect` | src/database.c:771-798 | an insertion, update or deletion by table name changes the first table of that name as the operation on it does, and no other; without an active transaction it commits one of its own on success and rolls it back otherwise |
| `Effects.NoTableEffect` | src/database.c:663-673 | without a table of the name they report that and change nothing |
| `Effects.FieldOpEffect` | src/database.c:1259-1349 | so does a deletion by field, which leaves exactly the records with another value in the first column of that name, and commits exactly when it found something |
| `Effects.BatchOpEffect` | src/database.c:800-854 | so does a batch, unless it is empty, longer than 100, or finds no room for all of it |
| `Effects.TenLevels` | src/database.c:1479-1498 | from no transaction, ten begins succeed and the eleventh fails |
| `Effects.CommitsUndo` | src/database.c:1500-1519 | behind n begins, m commits leave the transaction at level n - m; only the last closes it and is counted |
| `Effects.RollbackEndsAll` | src/database.c:1521-1534 | one rollback, at any level, ends the whole transaction and leaves the tables as they are |
| `Effects.LoadEffect` | src/json_io.c:1620-1972 | loading gives a database without transaction or statistics, and the id counter goes on; a rejected text changes nothing |
| `Batches.BatchExactly` | src/database.c:831-843 | a batch succeeds as a whole if and only if there is room for it, its values are admitted, and no supplied key is stored already or is the id of an earlier record of the batch |
| `Batches.BatchStored` | src/database.c:831-843 | a batch that succeeds puts its records in front, the last one first, each with its values and under the id that is handed back for it |
| `Runs.LoadKeepsInv` | src/json_io.c:1620-1972 | whatever text is loaded, JSON or not: if loading succeeds, every table keeps the table invariant |
| `Runs.PerformKeepsInv` | src/database.c:677-1349 | every operation, on every outcome, keeps the invariant of tables and transactions, and all but loading only ever raise next ids |
| `Runs.Run` | src/database.c:677-1536 | every run of table creation, inserts, batches, updates, deletes, deletes by field, transaction calls and loads ends in a state that keeps the invariant |
| `Runs.EveryRunKeepsInv` | src/database.c:1479-1534 | from an empty database, after every run: active holds exactly at a positive level, the level is at most 10, outermost begins are the committed, the rolled back and the active one, and every table's ids are distinct, not -1, counted, at most 10000 and below its next id |
| `Runs.NextIdAboveEveryId` | src/database.c:746-754 | an id a table once held stays below its next_record_id over every later run without a load, even when the record is deleted |
| `Runs.FreshInEveryRun` | src/database.c:14-27 | in every state a run reaches, an insert of a row in which no primary-key column holds an INT, or the first that does holds -1, does not fail for a duplicate key |
| `Runs.NamesStayDistinct` | src/database.c:567-596 | adding a table keeps table names distinct if and only if no table has the name as it is stored, cut to 63 characters; the check compares the uncut name |
| `Runs.NamesCollide` | src/database.c:567-596 | two names of which the second is one letter longer than fits: both tables are stored under one name |
| `Runs.SingleKeepsTransaction` | src/database.c:771-798 | inserting, updating or deleting one record leaves active and level as found, on every outcome |
| `Runs.BatchKeepsTransaction` | src/database.c:816-853 | a batch leaves active and level as found if and only if it does not start, can be inserted as a whole, or no transaction was active; otherwise it ends the enclosing transaction at every level |
| `Runs.BatchChangesTables` | src/database.c:800-854 | a batch, successful or not, changes a table if and only if it starts and its first record is not refused |
| `Runs.BatchEndsTransaction` | src/database.c:845-853 | two records with one key: the first stays, the second is refused, the caller's transaction is over |
| `Runs.DeleteByFieldKeepsTransaction` | src/database.c:1284-1348 | a deletion by field leaves active and level as found if and only if no transaction was active, it does not start, or a search would have found something |
| `Runs.DeleteByFieldEndsTransaction` | src/database.c:1341-1348 | a deletion that finds nothing, is a success, and ends the caller's transaction |
| `Batches.BatchStopsAt` | src/database.c:831-853 | a batch stops behind its longest acceptable part, whose records stay in the table; at the end exactly when all of it is acceptable |
| `Batches.BatchUnchanged` | src/database.c:831-853 | it leaves the table as it was if and only if it is empty or its first record is refused |
| `LinkedTables.LinkedTable.FindRecord` | src/database.c:856-885 | the walk along the list stops at the first node with the id |
| `LinkedTables.LinkedTable.NewId` | src/database.c:14-27 | the maximum loop and the shared counter give the generated id |
| `LinkedTables.LinkedTable.Check` | src/database.c:680-698 | the checks in front of an insertion, in their order |
| `LinkedTables.LinkedTable.SuppliedKey` | src/database.c:701-709 | the first primary-key column holding an INT, or -1 |
| `LinkedTables.LinkedTable.Link` | src/database.c:720-754 | a new node stands at the head, the others behind it as before; count and next id follow |
| `LinkedTables.LinkedTable.InsertRecord` | src/database.c:677-769 | the list, counters, id and shared counter become what insertion on values says, on every outcome |
| `LinkedTables.LinkedTable.UpdateRecord` | src/database.c:1058-1162 | the node's fields become what update on values says, also when a clash stops it half-way |
| `LinkedTables.LinkedTable.UpdateColumns` | src/database.c:1074-1097 | the loop over the columns, stopped by the first key that is taken |
| `LinkedTables.LinkedTable.Unlink` | src/database.c:1199-1214 | the node in front, or the head, is rewired past the node; all others keep their place |
| `LinkedTables.LinkedTable.DeleteRecord` | src/database.c:1193-1228 | the first node with the id is unlinked, or nothing changes |
| `LinkedTables.LinkedTable.DeleteByField` | src/database.c:1288-1339 | the in-place loop leaves exactly the non-matching records in their order, and its count is the number the search would have returned before |
| `LinkedTables.LinkedTable.FindAllByField` | src/database.c:976-1056 | the nodes returned hold exactly the matching records, in list order |
| `LinkedTables.OthersDrop` | src/database.c:1317-1332 | unlinking a match does not change which records will be kept |
| `Databases.Database.BeginTransaction` | src/database.c:1479-1498 | sets active, level and counters as the state machine's begin, or reports a conflict at level 10 and changes nothing |
| `Databases.Database.CommitTransaction` | src/database.c:1500-1519 | lowers the level, or ends the transaction at level 1 |
| `Databases.Database.RollbackTransaction` | src/database.c:1521-1534 | ends every level at once, and leaves every table as it is |
| `Databases.Database.GetTable` | src/database.c:663-673 | the first table with the name |
| `Databases.Database.AddTable` | src/database.c:561-661 | appends an empty linked table apart from all others, or changes nothing |
| `Databases.Database.InsertRecord` | src/database.c:771-798 | the whole database becomes what the state machine's insert says, no other table changes, and on success the new record's id is handed back |
| `Databases.Database.UpdateRecord` | src/database.c:1164-1191 | likewise for update |
| `Databases.Database.DeleteRecord` | src/database.c:1230-1257 | likewise for deletion |
| `Databases.Database.BatchInsert` | src/database.c:800-854 | likewise for a batch, with its early exits, its loop and its commit or rollback; on success the ids of the new records are handed back, in the order of the batch, otherwise none |
| `Databases.Database.DeleteByField` | src/database.c:1259-1349 | likewise for deletion by field; on success the count reported is what the search would have found |
| `Databases.Database.FindAllRecords` | src/database.c:976-1056 | the nodes found by table and column name hold exactly the matching records; none without the table or the column |
| `Databases.OneChanged` | src/database.c:677-769 | what changes one table's list leaves all other tables as they were |
| `StringReplace.ReplaceGlues` | src/utils.c:100-133 | replacing is cutting the text at its leftmost non-overlapping occurrences, one more piece than the first pass counts, and gluing the pieces with the new text |
| `StringReplace.CutsAreUnique` | src/utils.c:100-133 | there is only one such cutting, so it defines the result |
| `StringReplace.ReplaceLength` | src/utils.c:117 | the length of the result is the old length plus the count times the difference, also when the new text is shorter |
| `StringReplace.AllocationExact` | src/utils.c:117 | computed in wrapping size_t arithmetic, the allocation is exactly the result and its terminator |
| `StringReplace.CountMatches` | src/utils.c:108-114 | the first pass finds the matches that replacing replaces, and ends at the end of the text |
| `StringReplace.ReplaceAll` | src/utils.c:100-133 | the array has exactly the size of the result, and every cell of it is written; nothing is asked of the text sought when there is nothing to search |
| `StringReplace.ReplaceBySame` | src/utils.c:100-133 | replacing a text by itself changes nothing |
| `StringReplace.CountingEnds` | src/utils.c:109-114 | on each text, the first pass comes to its end if and only if there is something to look for, or the text is empty |
| `StringReplace.CountingStays` | src/utils.c:109-114 | with nothing to look for, in any text that is not empty, it is at its first position after every number of rounds |
| `StringReplace.CopyReplaced` | src/utils.c:120-131 | the copying pass fills the array with the result and its terminator, in bounds |
| `TransactionIds.IdsExact` | src/transaction.c:6-26 | in every interleaving of lock, read, write, unlock, publish, test and end steps of any number of threads the ids are distinct; once none is drawing, they are exactly 1 to the number of transactions |
| `TransactionIds.TakeKeepsInv` | src/transaction.c:6-64 | every step keeps mutual exclusion, every id below the next with exactly one owner, and every thread behind a test able to go on |
| `TransactionIds.IdsDistinct` | src/transaction.c:9-14 | no two threads or transactions have the same id, and each id below the next is had |
| `TransactionIds.AloneDraws` | src/transaction.c:9-14 | a thread that is not interrupted draws the next id and releases the lock |
| `TransactionIds.EndsTwiceExactly` | src/transaction.c:28-64 | test and write take no lock: in every run a transaction is written a second time if and only if at some point two threads are behind its test together and both go on to write; its outcome is overwritten by the other one if and only if, besides, one of them commits and the other rolls back |
| `TransactionIds.EndedStaysExactly` | src/transaction.c:28-64 | an ended transaction stays as it is over every later run if and only if every thread still behind its test is about to write the state it has |
| `TransactionIds.EndsOnce` | src/transaction.c:28-64 | the caller's rule: as long as at most one thread at a time ends it, a transaction is written at most once, and having left ACTIVE never changes again |
| `TransactionIds.BothEnd` | src/transaction.c:28-64 | two threads: the transaction is committed, and then aborted |
| `TransactionIds.AloneEnds` | src/transaction.c:28-64 | a thread that is not interrupted ends a transaction as one call by itself does |
| `TransactionIds.IdCounter.Generate` | src/transaction.c:9-14 | the id is the old counter, and the counter goes up by one |
| `TransactionIds.Transaction.Commit` | src/transaction.c:28-47 | only an active transaction becomes committed, with its operations dropped; otherwise -1 and no change |
| `TransactionIds.Transaction.Rollback` | src/transaction.c:49-64 | only an active transaction becomes aborted, with its operations dropped; otherwise no change |
| `HexCipher.RoundTrip` | src/security.c:6-34 | with room for both, decrypting what was encrypted gives the bytes back; the cipher is text of twice the length |
| `HexCipher.ReverseRoundTrip` | src/security.c:20-34 | encrypting what was decrypted gives the same cipher if and only if that was upper-case pairs, none of them an encoded terminator |
| `HexCipher.CipherDeciphers` | src/security.c:6-34 | the codec is a bijection between byte strings and their ciphers, byte by byte |
| `HexCipher.EncryptInto` | src/security.c:6-18 | -1 and an untouched buffer exactly when 2n + 1 characters do not fit; otherwise the cipher and a terminator, in bounds, and nothing behind |
| `HexCipher.DecryptInto` | src/security.c:20-34 | -1 exactly for odd length, no room or a pair that does not scan; otherwise the bytes and a terminator, in bounds, and nothing behind |
| `HexCipher.DecryptPairs` | src/security.c:25-32 | the loop over pairs succeeds exactly when every pair scans |

## Left out

- Integer width: `int` is unbounded, so overflow of record ids, counters and `atoi` is not modelled; `size_t` wrap-around is modelled where it happens, in `StringReplace.Allocation`.
- FLOAT, DOUBLE and DATETIME values: carried as the text the C library formats or reads for them, in `Schema.Raw`; so a search in a FLOAT or DOUBLE column compares texts; rounding, time zones and a date that does not parse are not modelled.
- The value union: reading it through another member than the one written is not modelled; such reads give 0, the empty string or false.
- A column object without a name: the source dereferences a null pointer; the model ends the load with the error code `NullName`.
- Durability.SaveLoadRoundTrip: what is loaded is stated for names that can be read to their closing quote; for the others `Unwritable.UnreadableNames` and `Fidelity.RoundTripExactly` say that the database does not come back, and not what comes instead.
- Durability.AnyLayoutLoads: likewise; with such a name what is saved has no layout.
- White space of the saved file: where its line breaks and blanks stand is part of `Save.SaveDoc` and of the serializer's contracts; no theorem says more of it.
- DatabaseLoading.AnyDatabaseLoads: a JSON tree whose "tables", "fields", "records" or "schema" is of another kind than the loader reads is not covered; `LoadLoops.LoadDatabase` is.
- Constraint flags, timestamps and versions: written, but skipped or reset on load, so the round trip does not compare them.
- PrettyPrint.PrettyPrintLoop: does not write the terminator where the buffer has no byte left for it, and says so in its result; what the source's write behind the buffer does is not modelled.
- Pretty-printed text in the round trip: minified and unboundedly pretty-printed text is covered; text cut off by the pretty printer's guess is covered by `PrettyPrint.PrintedKeepsAll` instead.
- LoadLoops.Catalogue.Add: the loader fills tables held as values; its insertions use `Schema.Insert`, the function the linked lists are proved equal to.
- Databases.Database.AddTable: the array of tables grows by appending; moving it in memory is not modelled.
- HexCipher.DecryptPairs: for the pair `0x` the scan fails, as the C standard has it; only the lowest byte of a scanned number is kept, as the source keeps it.
- StringReplace.ReplaceAll: does not cover looking for an empty text in one that is not empty, on which the source never ends.
- Transaction ids: memory for the transaction record is always there, and the list of operations is a sequence of texts; what two threads do to its memory between their tests and their writes is not modelled, only what they do to the state.
- Statistics other than the transaction counters, indexes, the cache, query execution, backup, storage, files, the command line and logging: no logic that a theorem would be about, or stubs.
- `validate_json`, `json_merge_string`, `json_path_query_string_simplified`, `json_diff_string` and `src/parser.c`: placeholders, or cut their input at single letters.
- Allocation failure, freeing, aliasing across `realloc` and the depth of the C stack: allocation is taken to succeed, and recursion is unbounded.
- `isspace` on bytes from 0x80 on: taken as false, as in the C locale.
