# Models of pdo_duckdb

pdo_duckdb lets PHP's PDO talk to DuckDB. Most of it hands calls through; the parts that
decide something on their own are modelled here in Dafny, each against a simple statement of
what it is for.

| module | what it models | measured against |
|---|---|---|
| `Placeholders`, `SqlPieces`, `Quoting` | the SQL scanners and the quoter | the text cut into quoted and bare pieces; reading SQL literals |
| `SplitIntegers` | the tests on 128-bit integers in two halves | the integers the halves stand for |
| `MapKeys`, `Columns`, `Decoder`, `PhpReading`, `RoundTrip` | the recursive decoder from vectors to PHP values | writing a column of values into vectors; reading PHP values back |
| `Cursor` | execute, fetch, get_col, close, destroy over chunks of vectors | one flat list of rows of SQL values |
| `SwooleLock` | the busy flag a connection shares with its statements | running the calls one at a time |
| `Bindings` | bind, execute, and what DuckDB is left with | the list of calls made since the last execute |
| `Amalgamator`, `IncludeOnce`, `IncludeGraph`, `ExactlyOnce`, `HeaderText`, `IncludeOrder`, `RepeatedIncludes`, `RepeatedOrder` | the program that makes one header out of many | a line-by-line preprocessor that reads each file once |

`Bytes`, `PhpValues` and `Wrappers` hold what the others share.

Code that works by changing things step by step is a method or a class here, and its
`ensures` ties it to a function; the lemmas then say what that function amounts to. DuckDB,
PDO's own code and the PHP library appear as parameters: a function DuckDB steps by, a
function from names to parameter indexes, the outcome of encoding a value as JSON, the text
of a double.

Some properties one would expect hold only under a condition. Each comes with an input on
which it fails; for all but the last the condition is proved to be the exact one:

- A second pass of `zstr_prepare` changes nothing unless a NUL byte stands right after the
  colon of a placeholder: look-ahead reads the raw byte (`Placeholders.RewriteTwice`,
  `RewriteTwiceDiffers`).
- A DECIMAL becomes a double when its unscaled integer is within 2^53, and also when it is
  -2^64, because adding one to the complement of 0 wraps (`SplitIntegers.DecimalExact`,
  `ComplementWraps`).
- The cursor stops at exactly the rows of a result when no chunk is empty; an empty chunk
  costs a stop with no row in it (`Cursor.StopsAreRows`, `EmptyChunkIsSeen`).
- All rows of a result are fetched when the thread pool refuses none of its chunk calls; a
  refused one looks like the end of the result (`Cursor.FetchesWalkTheTape`,
  `RefusedIsTheEnd`).
- The lock explains a run by a sequential one when bodies outside coroutines overlap no
  other; where one does, a call can be lost (`SwooleLock.SequentialExactly`,
  `OverlapLosesACall`).
- The header holds each line once when each text that is not empty is put in one place, the
  include line of its statement; where no text is put inside an own line, that is when a
  statement that comes again in a file stood for nothing the first time. `str_replace` can
  hit more: the same statement again, the statement with blanks in front, or its text in an
  own line (`ExactlyOnce.EachLineOnce`, `EachLineOnceWhenSpared`;
  `RepeatedIncludes.RepeatedStatement`, `IndentedStatement`, `MentionedStatement`).
- On an acyclic include graph the first copies of all lines are in order where no text is
  put inside an own line, and all copies where the header holds each line once
  (`IncludeOrder.FirstCopiesAreOrdered`, `HeaderIsOrdered`;
  `RepeatedOrder.MentionedOutOfOrder`, `RepeatedOutOfOrder`). These two conditions are
  sufficient and not exact: a text put in a second place does no harm when nothing above it
  needs it, so an exact condition would be the order stated again.

The comment at pdo_duckdb.c:37-40 also announces a check of the number of input parameters.
The function below it makes none, and neither does the model.

## Model

| member | source | states |
|---|---|---|
| Placeholders.ZstrPrepare | duckdb_driver.c:25-55 | the C string in the output buffer is the rewritten text |
| Placeholders.ZstrStripZerobytes | duckdb_driver.c:58-78 | both paths, copying and filtering, leave the text without its NUL bytes |
| Placeholders.RewriteIsPointwise | duckdb_driver.c:34-52 | the rewritten text is the NUL-stripped text, byte for byte at its shifted position, with `$` for exactly the colons outside quotes that stand before a name and not after a colon |
| SqlPieces.EveryTextIsRewritten | duckdb_driver.c:34-52 | any SQL text, cut at its quotes: what is quoted, of either kind and closed or not, is kept without its NUL bytes, and what is not is rewritten on its own |
| SqlPieces.QuotedIsKept | duckdb_driver.c:38-43 | between two quotes of a kind everything only loses its NUL bytes, a quote of the other kind opens nothing, and the scanner is outside after it |
| SqlPieces.IdentifierIsKept | duckdb_driver.c:38-43 | a quoted identifier with any text before and after it |
| SqlPieces.BareIsRewritten | duckdb_driver.c:43-51 | without quotes a byte becomes `$` exactly when it is a colon with a letter or an underscore after it and no colon before it |
| Placeholders.RewriteConcat | duckdb_driver.c:34-52 | rewriting distributes over concatenation where the left part ends outside quotes and no look-around crosses the seam |
| Placeholders.RewriteQuote | duckdb_driver.c:38-48 | a quoted value only loses its NUL bytes, and the scanner is outside quotes after it |
| Placeholders.RewriteSplice | duckdb_driver.c:25-55 | for every value, rewriting prefix, quoted value and suffix together is rewriting prefix and suffix on their own around the NUL-stripped literal |
| Placeholders.RewriteRendered | duckdb_driver.c:25-55 | the same for SQL text with any number of quoted values |
| Placeholders.SplicedValueIsRead | duckdb_driver.c:25-55 | reading the rewritten text at the literal gives the value without its NUL bytes and stops at the rewritten suffix; the value survives exactly when it has no NUL byte |
| Placeholders.PlaceholderIsRewritten | duckdb_driver.c:43-51 | an unquoted `:name` becomes `$name` and `::name` stays, whatever stands before and after |
| Placeholders.MarksAfterRewrite | duckdb_driver.c:43-47 | a second pass would mark a byte exactly when a NUL after it hid it from the first |
| Placeholders.RewriteTwice | duckdb_driver.c:43-47 | rewriting twice is rewriting once exactly when no placeholder is split by a NUL byte, hence always on NUL-free text |
| Placeholders.RewriteTwiceDiffers | duckdb_driver.c:43-47 | the text colon, NUL, letter is rewritten differently by a second pass |
| Quoting.HandleQuoter | duckdb_driver.c:303-321 | fills the buffer of 2n + 3 bytes with the quoted literal and its terminator, n + (quotes) + 2 bytes long, without overrunning it |
| Quoting.DoubledLength | duckdb_driver.c:311-316 | doubling adds one byte a quote, so at most doubles the length |
| Quoting.ReadQuoted | duckdb_driver.c:303-321 | read by the doubled-quote rule of section 5.3 of ISO/IEC 9075-2, a quoted value gives the value back and stops at its end |
| Quoting.QuoteIsTheOnlyLiteral | duckdb_driver.c:303-321 | a text is a whole literal for a value if and only if it is what the quoter writes |
| Quoting.StripQuote | duckdb_driver.c:303-321 | removing NUL bytes and quoting commute |
| SplitIntegers.HugeintExact | duckdb_statement.c:189-191 | the test on the halves of a HUGEINT holds exactly when the value fits a 64-bit long, and the long is the value |
| SplitIntegers.UHugeintExact | duckdb_statement.c:205-206 | the same for UHUGEINT |
| SplitIntegers.SignExtendExact | duckdb_statement.c:269-286 | widening a narrow DECIMAL to two halves keeps its value |
| SplitIntegers.DecimalExact | duckdb_statement.c:303-309 | a DECIMAL becomes a double exactly when its unscaled integer is within 2^53 or is -2^64, and binary64 (section 3.3 of IEEE 754-2019) holds all of those exactly |
| SplitIntegers.ComplementWraps | duckdb_statement.c:303-304 | -2^64 is such a value and its neighbours are not |
| MapKeys.ZvalToMapKey | duckdb_statement.c:79-107 | the recursive loop builds the ", "-join of the leaves of any nested array in order, an empty array counting as one empty leaf |
| MapKeys.KeysIgnoreNesting | duckdb_statement.c:79-107 | an array has the key of the flat list of its leaves |
| MapKeys.KeyOfArray | duckdb_statement.c:88-104 | the key of an array is the keys of its elements, in order, with ", " in between |
| PhpReading.KeysOfLeaves | duckdb_statement.c:81-83 | the key of a number reads as the number, that of a text is the text, true is 1, and false, null and the empty array are empty |
| MapKeys.LastOneWins | duckdb_statement.c:368-377 | adding named values in turn keeps one entry a name, where the name first came, with its last value; all entries stay exactly when the names are distinct |
| Columns.Read | duckdb_statement.c:112-433 | whatever can be read in a row of a vector is a value of the column's type; the recursion ends on the vector, through VARIANT too |
| Decoder.ScalarFromVector | duckdb_statement.c:136-319 | each scalar branch, the split-integer tests included, gives the PHP value of the number that is stored |
| Decoder.FromRange | duckdb_statement.c:326-331 | the elements of a list or array are the PHP values of a stretch of the child vector, under 0, 1, 2, ... |
| Decoder.FromStruct | duckdb_statement.c:339-355 | members share the row and are added by name, or by next index when nameless |
| Decoder.FromMap | duckdb_statement.c:367-377 | entries are the fold of keys and values of one stretch, under their key texts |
| Decoder.ValFromVector | duckdb_statement.c:112-464 | on any row that can be read the decoder ends and gives the PHP value of the SQL value in that row; below a NULL nothing is read, so offsets there may be anything |
| Decoder.DecodedMap | duckdb_statement.c:358-382 | a decoded MAP is the last-wins fold of its entries in order of first key text, and keeps all of them exactly when the key texts differ |
| Decoder.DecodedStruct | duckdb_statement.c:336-357 | members with distinct names come in order under their names, nameless ones as a list |
| PhpReading.DecodedReads | duckdb_statement.c:112-464 | for every type and depth the decoded value, read by a reader that looks at the PHP value only through the type, is the SQL value: numbers by their value or decimal text, doubles by their parts, union members by their name, lists by position, maps by the texts of their keys, a VARIANT under the type found with it; NULL exactly for NULL, a missing member, variant or text, and the JSON text of null |
| PhpReading.DecodingIsFaithful | duckdb_statement.c:112-464 | without MAP, VARIANT and JSON, and with distinct member names, different SQL values decode to different PHP values, but for the number behind a text, the text beside a number, and the ways of being NULL |
| PhpReading.NumberRead | duckdb_statement.c:178-181 | the decimal text of a number reads as the number |
| RoundTrip.ReadList | duckdb_statement.c:321-335 | offset and length in the entry of a row find its elements in the child vector |
| RoundTrip.ReadStruct | duckdb_statement.c:336-357 | children of a STRUCT share the row: row i of child k holds member k |
| RoundTrip.ReadMap | duckdb_statement.c:358-382 | one offset and length find keys in child 0 and values in child 1 of the list's child |
| RoundTrip.ReadUnion | duckdb_statement.c:383-406 | child 0 holds the tag, and row i of child tag + 1 the member |
| RoundTrip.ReadArray | duckdb_statement.c:407-421 | the elements of row i start at i times the size in the child vector, NULL rows taking their stride as well |
| RoundTrip.ReadVariant | duckdb_statement.c:422-433 | the value is in row 0 of the vector found for the row, under the type found with it |
| RoundTrip.ReadShredded | duckdb_statement.c:112-464 | for every type and every column of values of it, NULLs at any depth, row i of the column's vector can be read and holds value i; it is marked invalid exactly for NULL |
| RoundTrip.DecodeShredded | duckdb_statement.c:112-464 | decoding row i of the vector form of a column gives a PHP value that reads as value i |
| Cursor.StopsAreRows | duckdb_statement.c:545-560 | the cursor stops at exactly the rows of the result if and only if no chunk is empty |
| Cursor.ChunkingIsInvisible | duckdb_statement.c:505-561 | two lives of a statement that differ only in how the same rows are cut into non-empty chunks, and in streaming, show the same at every call, when no fetch is refused its chunk call |
| Cursor.ColumnsArrive | duckdb_statement.c:467-561 | a table of SQL values cut into non-empty chunks, streamed or not, gives after k + 1 fetches, in column c, a PHP value that reads as the value in row k and column c |
| Cursor.FetchesWalkTheTape | duckdb_statement.c:505-561 | fetch n of a result stops at stop n, and as many succeed as there are stops, if and only if no chunk call was refused; the fetch after the last stop ends with the error if there is one, and all other fetches fail quietly |
| Cursor.NextStop | duckdb_statement.c:519-558 | moving from the last row of one chunk to the next chunk is moving to the next row of the flat list, or to the end when the chunk call is refused |
| Cursor.CallsAreBetweenChunks | duckdb_statement.c:519-543 | DuckDB is asked on the way to the first stop of a chunk, and past the last chunk of a streaming result, and nowhere else |
| Cursor.StopAt | duckdb_statement.c:519-558 | row i of chunk n is at the flat position counted from the chunks before |
| Cursor.Statement.constructor | duckdb_driver.c:244-252 | a new statement has nothing in view and owns no handle |
| Cursor.Statement.Release | duckdb_statement.c:25-32 | releases result and chunk of an earlier execute |
| Cursor.Statement.Execute | duckdb_statement.c:18-75 | whatever the state before, success puts the cursor before the first row of the new result, or at its end when it has no columns; a failure, or a call refused by the thread pool, leaves nothing in view and nothing to release |
| Cursor.Statement.Reset | duckdb_statement.c:55-62 | nothing an earlier result left in the fields remains |
| Cursor.Statement.Begin | duckdb_statement.c:55-71 | after column count and flag are set the cursor stands before the first row, or at the end of a result without columns |
| Cursor.Statement.LoadChunk | duckdb_statement.c:529-543 | both kinds of result give the next chunk in order, then none; a refused call gives none and reports no error |
| Cursor.Statement.LetGo | duckdb_statement.c:523-527 | a used-up chunk is released and its rows counted |
| Cursor.Statement.End | duckdb_statement.c:545-554 | the cursor is done, and the error is reported if there is one |
| Cursor.Statement.NextChunk | duckdb_statement.c:519-558 | leads to the first stop of the next chunk or to the end, with the error reported there unless the chunk call is refused |
| Cursor.Statement.Fetch | duckdb_statement.c:505-561 | agrees with a fetch on the flat list; the live handles stay exactly the result and the chunk last loaded |
| Cursor.Statement.RowIndex | duckdb_statement.c:522-527 | `total_rows + chunk_idx` is the index of the row in the flat list, when no chunk is empty |
| Cursor.Statement.GetCol | duckdb_statement.c:467-503 | decodes, from the chunk's vector, the column of the row the flat cursor stands on; nothing without a row or for a column out of range |
| Cursor.Statement.CloseCursor | duckdb_statement.c:893-912 | releases chunk and result, leaves nothing in view and no columns |
| Cursor.Statement.Destroy | duckdb_statement.c:915-935 | every handle ever made is released, once each |
| Cursor.Live | duckdb_statement.c:18-561 | for any sequence of execute, fetch, get_col and close, with chunk calls refused or not, what is seen is what the flat list of rows shows, and after destroying the statement every handle ever made is released |
| Cursor.Call | duckdb_statement.c:18-561 | one call on a statement in any valid state does and shows what it does and shows on the flat rows |
| Cursor.RunShows | duckdb_statement.c:18-561 | after any run, told from the calls alone: with no rows left by the latest execute or close a fetch finds nothing and there is no column; otherwise fetch n finds a row while there is one and no chunk call was refused, right past the last row it reports an error exactly when the result failed, and a column is that of the row found |
| Cursor.OnlyTheLatestResult | duckdb_statement.c:25-62 | rows in view are those of the latest execute, and only if it succeeded |
| Cursor.RefusedIsTheEnd | duckdb_statement.c:545-553 | a result whose first chunk call is refused is at its end, without an error, whatever rows it has |
| Cursor.EmptyChunkIsSeen | duckdb_statement.c:556-560 | with one empty chunk a fetch succeeds and the column read after it is past the end of the chunk |
| SwooleLock.FlagStep | duckdb_swoole.cpp:52-70 | every step keeps this: all handles share one flag, set exactly while one caller, its holder, is between acquire and release |
| SwooleLock.OrderStep | duckdb_swoole.cpp:52-70 | every step keeps this: the calls over, with the one that holds the lock, are the calls in the order in which they got it |
| SwooleLock.ReplyStep | duckdb_swoole.cpp:116-170 | every step keeps this: what a wrapper is about to return is its caller's last call on record, and a recorded success ran its body |
| SwooleLock.LockAlways | duckdb_swoole.cpp:44-75 | all three hold in every reachable state, of any number of callers in any interleaving |
| SwooleLock.SequentialStep | duckdb_swoole.cpp:62-70 | a step from a state without overlapping bodies keeps state and replies equal to those of a sequential run |
| SwooleLock.OnlyUnlockedOverlap | duckdb_swoole.cpp:47-60 | in every run, bodies overlap exactly where a body outside coroutines overlaps another |
| SwooleLock.SequentialExplanation | duckdb_swoole.cpp:44-75 | whatever DuckDB does in a call, a run in which bodies outside coroutines overlap no other ends in the state and with the replies of its calls one at a time, coroutine calls in the order in which they got the lock, each caller's calls being those it made |
| SwooleLock.CallsAreAnswered | duckdb_swoole.cpp:44-75 | in every run the calls of a caller on record, with the one it waits for, are the calls it made, each once and in order |
| SwooleLock.CoroutinesNeverOverlap | duckdb_swoole.cpp:52-70 | bodies of coroutine calls never overlap, at any point of a run |
| SwooleLock.CoroutineRunsAreSequential | duckdb_swoole.cpp:44-75 | so does every run of coroutine calls alone, with nothing asked of it |
| SwooleLock.SuccessMeansItRan | duckdb_swoole.cpp:116-170 | a coroutine about to return success has the call it made last as its last on record, with a body that ran to its end, and holds the lock |
| SwooleLock.SequentialExactly | duckdb_swoole.cpp:47-50 | for a DuckDB that keeps every call, a run whose bodies are over is sequential in the order on record, and is explained by some order of its calls, if and only if no body outside coroutines overlapped another |
| SwooleLock.OverlapLosesACall | duckdb_swoole.cpp:47-50 | a call outside any coroutine, started while a coroutine's call runs, makes one of the two calls be lost |
| SwooleLock.Progress | duckdb_swoole.cpp:53-60 | while a call is pending in a reachable state, some pending call can take a step that is not a spin |
| SwooleLock.EveryCallCanEnd | duckdb_swoole.cpp:52-70 | from every reachable state every pending call can still be run to its end, within seven steps of its caller and of the one it waits for |
| SwooleLock.WorkStep | duckdb_swoole.cpp:53-70 | each step that is not a spin brings its caller nearer to the end of its call |
| SwooleLock.WorkIsBounded | duckdb_swoole.cpp:53-70 | n calls of a caller take at most 5n steps that are not spins |
| Bindings.SkipSigils | duckdb_statement.c:802-806 | finds the start of the bare name |
| Bindings.BareOfSigils | duckdb_statement.c:802-806 | any run of `:` and `$` before a name is dropped, and nothing else |
| Bindings.NamesAgree | duckdb_driver.c:43-51 | the name a reader finds after the `$` emitted for an unquoted `:name` is the name looked up when binding, with whatever sigils, where the text after it does not go on with the name |
| Bindings.IndexesAgree | duckdb_statement.c:797-815 | position k has index k + 1; a name, with whatever sigils, has the index DuckDB gives the bare name, unless that is 0; no index is 0 |
| Bindings.BindAllExact | duckdb_statement.c:788-890 | binding a table entry by entry leaves a value at an index exactly when some entry is for it, from the last such entry; it fails exactly when some entry does |
| Bindings.HookFails | duckdb_statement.c:797-886 | an entry is refused exactly when its index or its value cannot be had, or DuckDB does not take the value there |
| Bindings.BoundValuesArrive | duckdb_statement.c:817-877 | what DuckDB executes with at an index is of the right kind for the last entry for it (BLOB exactly for a stream or text bound as LOB, VARCHAR for JSON text and other text, 32 bits exactly for an integer that fits a column of that width, text bound as NULL, bool or int as that), and otherwise reads back as what the entry stands for |
| Bindings.ArgumentsArrive | pdo_duckdb.c:60-87 | with arguments given, what DuckDB executes with at an index reads back as an argument for that index, the last under its key, JSON text for an array, as PDO registered it; text arrives as VARCHAR |
| Bindings.BoundIsExecuted | pdo_duckdb.c:87-93 | an execute without arguments runs with what was bound since and nothing else, each value of the right kind and as bound |
| Bindings.EncodingFails | pdo_duckdb.c:66-81 | arguments cannot be encoded exactly when an array among them cannot |
| Bindings.PutAllExact | pdo_duckdb.c:97-161 | registering keeps one entry a key, the last one under it |
| Bindings.EntriesAreAsBound | pdo_duckdb.c:97-161 | an array is bound as its JSON text, as text, whatever type was asked for; any other value as itself, with the type asked for |
| Bindings.PdoStatement.BindValue | pdo_duckdb.c:97-127 | registers the value as PDO makes it, arrays as JSON text; the table is unchanged when encoding fails or PDO refuses the value |
| Bindings.PdoStatement.BindParam | pdo_duckdb.c:130-161 | registers the variable, putting in it what PDO makes of its value, or of JSON text in place of an array; the table is unchanged when encoding fails or PDO refuses the value, and the variable then keeps the JSON text |
| Bindings.PdoStatement.ParamHook | duckdb_statement.c:788-890 | binds one parameter at its index, positions counting from one, or leaves DuckDB's bindings alone and fails |
| Bindings.PdoStatement.OriginalExecute | pdo_duckdb.c:87 | takes given arguments, as PDO registers them, as the whole table, calls the hook for each entry, and executes with exactly those bindings, or not at all when a registration or an entry fails |
| Bindings.PdoStatement.Execute | pdo_duckdb.c:50-94 | arguments that cannot be encoded change nothing; otherwise DuckDB executes with exactly the arguments given, or exactly what was bound, and both stores are empty afterwards, after failures too |
| Bindings.Call | pdo_duckdb.c:50-161 | one call does to table, variables and executions what the list of calls says |
| Bindings.Live | pdo_duckdb.c:50-161 | for any sequence of bind, assign and execute, each execution has exactly the arguments given or the values bound since the last execute that reached PDO's own, and DuckDB holds no bindings between calls |
| Bindings.PastIsForgotten | pdo_duckdb.c:87-93 | after an execute that reached PDO's own, no later execution depends on what was bound or executed before it |
| Amalgamator.FindIsFirst | create_duckdb_hpp.php:66-76 | a header is found in the first directory that has it, and is nowhere exactly when none does |
| Amalgamator.Search | create_duckdb_hpp.php:66-76 | the loop over the directories ends with that file, or with none |
| Amalgamator.GetIncludes | create_duckdb_hpp.php:53-80 | each include statement once, in order, with the file it leads to, or the first name that is nowhere |
| Amalgamator.HoldsIsSubstring | create_duckdb_hpp.php:57-91 | one statement is hit inside another exactly when its text stands in the other's: the same name, with blanks in front |
| Amalgamator.SplitJoins | create_duckdb_hpp.php:91-94 | the parts of a text cut at a string, joined with it, are the text; joined with nothing, the text with the string removed |
| Amalgamator.PartsAreClean | create_duckdb_hpp.php:91-94 | the string stands in none of the parts |
| Amalgamator.Amalgamation.GetContent | create_duckdb_hpp.php:82-95 | ends on every include graph, cyclic ones too, with the text and the written files of the expansion function |
| Amalgamator.Amalgamation.Amalgamate | create_duckdb_hpp.php:44-50 | the header is the texts of the main files in turn, with one set of written files |
| IncludeOnce.ExpandIsStream | create_duckdb_hpp.php:82-95 | where no text is put inside an own line, replacing one statement after the other over the whole text gives line for line what a preprocessor gives that reads line by line and goes into each file once, on every include graph; and the same text where no own line is hit |
| IncludeOnce.ExpandReadsTheSame | create_duckdb_hpp.php:82-95 | on every include graph, wherever the replacements hit, both fail alike and write the same files |
| ExactlyOnce.FileFlat | create_duckdb_hpp.php:88-94 | no include statement remains |
| HeaderText.LinesReadTheSame | create_duckdb_hpp.php:90-94 | in the header, whatever the include graph and the hits, a line that was `#pragma once` is empty, and a line that mentions neither that nor a statement reads as in its file |
| IncludeGraph.WrittenIsReachable | create_duckdb_hpp.php:44-49 | the files written are exactly those a main file reaches |
| IncludeGraph.FailsExactly | create_duckdb_hpp.php:74-76 | it fails exactly when a main file reaches one that includes a header that is nowhere |
| ExactlyOnce.EachLineOnce | create_duckdb_hpp.php:82-95 | below its first line the header holds each own line of each file written once, and nothing else, if and only if each text that is not empty was put in one place, the include line of its statement; lines are counted by file and position, so one whose mention of a statement was replaced by nothing still counts |
| ExactlyOnce.EachLineOnceWhenSpared | create_duckdb_hpp.php:82-95 | where no text is put inside an own line, each line comes once if and only if, in the order of reading, a statement that comes again in a file, as it is or with blanks in front, stood for nothing the first time |
| ExactlyOnce.HeaderIsIncludeOnce | create_duckdb_hpp.php:82-95 | the header has the lines, by file and position, in the order of a preprocessor that goes into each file once, under the same condition and only then |
| RepeatedIncludes.DistinctIsSingle | create_duckdb_hpp.php:90-92 | files in which no include line is, or holds, the statement of another, and whose own lines mention no statement, meet that condition |
| RepeatedIncludes.UnmentionedIsStream | create_duckdb_hpp.php:82-95 | where own lines mention no statement, the header is to the letter what reading line by line gives |
| RepeatedIncludes.UnmentionedIsIncludeOnce | create_duckdb_hpp.php:82-95 | there the header is to the letter what a preprocessor makes that goes into each file once, if and only if a statement that comes again in a file stood for nothing the first time |
| RepeatedIncludes.RepeatedStatement | create_duckdb_hpp.php:90-92 | a file with the same include statement twice gets the included line twice |
| RepeatedIncludes.IndentedStatement | create_duckdb_hpp.php:57-91 | so does a file with the statement and, below it, the statement with blanks in front, though the two are distinct |
| RepeatedIncludes.MentionedStatement | create_duckdb_hpp.php:90-92 | a file that mentions the statement in an own line gets the included line inside that line as well |
| IncludeOrder.FirstCopiesAreOrdered | create_duckdb_hpp.php:82-95 | on an acyclic include graph, where no text is put inside an own line, the first copy of every line stands after the first copies of all lines of all files that an include above it brings in, itself or over others, across all main files |
| IncludeOrder.HeaderIsOrdered | create_duckdb_hpp.php:82-95 | where moreover each such text was put in one place, every line stands after all lines of all those files |
| RepeatedOrder.RepeatedOutOfOrder | create_duckdb_hpp.php:90-92 | a repeated statement puts the lines it brings in below a line that needs them |
| RepeatedOrder.MentionedOutOfOrder | create_duckdb_hpp.php:90-92 | a statement mentioned in an own line above the include of a file its header needs puts even the first copies out of order |

## Left out

- DuckDB itself: SQL, casts, execution. What `duckdb_get_string` and `duckdb_variant_to_vector` return is kept beside the values.
- The PHP library: JSON, the text of a double, the `%.7g` of a FLOAT and the scaling of a DECIMAL, which stay symbolic.
- PDO's own code: only the table of bound parameters, the hook for each entry, execute, and the clearing. What PDO makes of a value when it registers it (text, for a text parameter), if it does, is a parameter of the model; names are taken as PDO has put them in the table; null in place of arguments is no arguments, and any other value that is not an array fails before the table is touched.
- An array behind a PHP reference inside the argument array: the override passes it on as it is, and the hook deals with it.
- PHP turns integer-like string keys into integers when a named value is added; keys stay text here, which is one-to-one, so only a STRUCT that mixed such names with nameless members could tell.
- The 64-bit sum of offset and length of a list entry and the product of row and array size: unbounded here.
- Turning column values into strings when the connection asks for it (duckdb_statement.c:487-500).
- `duckdb_destroy_prepare`, `row_count` and the branches without a lock in the cursor, which make the same DuckDB call.
- `swoole_run` is a set of steps and not a method with a loop, since other callers move between any two of its steps.
- A caller that spins for ever because others get the flag each time is not excluded; the flag gives no turn.
- One statement used by several coroutines, and the DuckDB calls made without the lock (binding, destroying, interrupting, text of values).
- Opening connections, attributes, transactions, `getColumnMeta`, module start and information, the weak symbols.
- Dollar-quoted strings, comments, slices and struct literals in SQL: the scanner does not know them, so nothing is claimed of their meaning.
- Warnings of `file_get_contents` for a main file that is missing: its text is empty.
- The blanks that `str_replace` leaves in front of a text put in place of an indented statement, hits across the border of two lines or of two texts put side by side, and include names that run over a line end: a text here is lines, each own or an include line.
- A refused call other than execute and the chunk calls (`SwooleLock` has the step for all): its wrapper returns an error, which the callers report.
- Bindings.PdoStatement.OriginalExecute: PDO's own execute is not part of this repository; it is modelled as far as the bound-parameter table goes.
