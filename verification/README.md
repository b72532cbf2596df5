# NexDB's storage engine, verified

This project models the part of NexDB that keeps data: the B+ tree that indexes a table, the paged file with its free list
and page cache, the tables that keep rows and index in step, the write-ahead log, and the engine that replays the log after
a crash as SQL text. Everything is written in Dafny, in the form of the original: classes whose methods change fields,
loops where there are loops, functions where there are expressions.

What survives a crash is a `DiskState`: the pages of the file, the lines of the log and the lines of the catalog. Writing a
page, appending a log line and rewriting the catalog are single steps, and `Disk.history` records what the disk held after
each of them. Contracts speak about every state in that history, so "a crash at any point" is a quantifier over it.

How the parts fit together, from the bottom:

- `BPlusGraph`, `BPlusSplit`, `BPlusTrees`, `BPlusBounds`: nodes with owned children and raw parent pointers, changed in
  place. A ghost map pictures the nodes; each method is proved to do to memory what a function does to that picture, and the
  invariants are proved about the picture.
- `Pages`, `Storage`, `LRUCaches`, `TableRows`, `PageManagers`: a byte page, the file with its free list, an LRU cache with
  dirty bits, and the page manager, whose methods are specified as if there were no cache. `Bag` is the multiset of the rows
  of a table: the file alone determines it, whatever order the pages are listed in.
- `StringUtils`, `Sql`, `Lexers`, `Parsers`, `SqlText`, `SqlRoundTrip`, `Grammars`, `WalFormat`, `Wal`: encodings, lexer,
  parser, log format, and the proofs that the parser accepts exactly the sentences of a grammar, and that logging, reading
  back, rebuilding SQL, lexing and parsing compose to the identity.
- `Values`, `Decimals`, `Comparisons`, `TableIndex`, `Rewrites`, `Tables`, `Statements`: column types, conditions and keys,
  what they mean in terms of the numbers and truth values that texts spell, the correspondence of index and pages, and the
  rewrites behind DELETE and UPDATE.
- `Catalogs`, `Engines`: table ids, who owns which page, and the statements, CREATE TABLE and DROP TABLE among them.
- `Recovery`, `Crashes`, `Replays`, `Restarts`: the function `Recovered` that says what a disk state recovers to, what the
  steps of a statement recover to, recovery itself, and what all runs of it achieve, interrupted or not.
- `Meanings`, `Integrity`, `Safety`, `Runs`, `Sessions`: what a statement means, what holds of every state that the disk is
  ever in, what each step of a statement recovers to, whole runs, and opening and querying a database.
- `Limits`, `Cases`: where the promises end, exactly, and concrete states of a database that show it.

Recovery is specified by the relation `Replays.Replayed`: the jobs that the log asks for are carried out one after another,
from memory, and every state in between is in the history. `Replays.Recover` is proved to do that for every log, and the
theorems about interrupted recovery are about any state of such a history.

The parser compares only the text of a token with a comma and, at the end of a CREATE TABLE, with a closing parenthesis, so
a quoted one will do; the sentences of `Grammars` are stated with that. The orderings of a BOOL or STRING column are those of
the numbers that its texts read as.

Numbers: reading a literal as a floating-point number is a parameter (`NumberParser`), used only under the assumption
`ExactOnInts`: it is exact on everything that fits an int.

Five places where the code does less than its documentation says, or loses or multiplies rows. The concrete states are ones
that every execution of the statement, and every recovery, goes through; a crash at the wrong moment is all it takes.

- README.md:264-265 and README.md:695 call DELETE and UPDATE fully atomic. A REPLACE block has no end marker, so a crash
  while it is being logged replays a shorter block. `Cases.TornDeleteLosesRow` is such a crash; `Limits.AtomicIff` says
  exactly when the promise holds.
- A row without a key can be stored twice, thrice, or any number of times, when recovery is interrupted as well:
  `Cases.KeylessRowTwice`, `Cases.KeylessRowThrice`, `Cases.KeylessRowOften`. It is stored once if and only if the copies on
  its pages and in the log were one at the last interruption: `Limits.KeylessStoredOnceIff`.
- An UPDATE that makes a row too long for a page loses the row without an error: `Cases.OversizedUpdateLosesRow`, and exactly
  when, `Limits.UpdateKeepsCountIff`.
- An INSERT that fits no page leaves its line in the log. If a later statement is interrupted, recovery replays that line
  first, and the COMMIT for it also covers what was logged behind it: recovery always passes through a state that has
  forgotten it (`Limits.OversizedInsertHides`). Recovery may be interrupted anywhere without making a difference to a table if
  and only if what was forgotten would not change the table at all (`Limits.HiddenIff`): a block, if and only if the table is
  empty and the block leaves it so (`Limits.HiddenBlockIff`); an INSERT, if and only if it is refused
  (`Limits.HiddenInsertIff`). `Cases.OversizedInsertLosesRow` and `Cases.OversizedInsertLosesInsert` lose rows in this way.
- DROP TABLE is not logged. A crash in the middle leaves the table with a part of its rows (`Cases.DropLosesRowFirst`); it is
  as before, or gone, if and only if its name was already taken, or no page freed so far held a row
  (`Limits.DropAtomicIff`).

The main results are `BPlusTrees.BPlusTree.Insert` and `Search`, `PageManagers.PageManager.InsertRowWithLocation`,
`Tables.Table.SelectRow`, `Grammars.ParsesExactly`, `WalFormat.ReplayRoundTrip`, `Decimals.StoiOfDecimal`,
`Comparisons.KeysCollideIff`, `Sessions.Query` with `Sessions.ReplyMeans`, `Replays.Recover`, `Restarts.RecoveryArrives`,
`Restarts.RecoveryKeepsOutcome`, `Safety.StatementIsSafe`, `Runs.RunsAreSafe`, `Runs.RunsAreExact`, `Runs.EveryStateIsOk`
and `Limits.HiddenIff`.

`dafny verify dfyconfig.toml` checks the whole project.

## Model

| member | source | states |
|---|---|---|
| `BPlusTrees.BPlusTree.constructor` | Indexing/BPlusTree/BPlusTree.cpp:3-5 | a new tree is empty and in order, for every order of at least 1 |
| `BPlusTrees.BPlusTree.Clear` | Indexing/BPlusTree/BPlusTree.cpp:7-10 | afterwards no record is left and the tree is in order |
| `BPlusTrees.BPlusTree.FindLeaf` | Indexing/BPlusTree/BPlusTree.cpp:128-142 | descends by the separators to the one leaf that decides about the key |
| `BPlusGraph.LeafDecides` | Indexing/BPlusTree/BPlusTree.cpp:128-156 | a key occurs in the tree if and only if it occurs in the leaf that the descent reaches, also when equal keys lie on both sides of a separator |
| `BPlusTrees.BPlusTree.Search` | Indexing/BPlusTree/BPlusTree.cpp:144-156 | returns a record if and only if one with that key was inserted, and then one of those |
| `BPlusTrees.BPlusTree.Insert` | Indexing/BPlusTree/BPlusTree.cpp:158-185 | keeps the whole shape (sorted nodes, separators equal to the smallest key on their right, parent pointers, fill, one depth) and adds exactly the one record, reordering none |
| `BPlusTrees.BPlusTree.SplitLeaf` | Indexing/BPlusTree/BPlusTree.cpp:12-65 | a leaf with one key too many is cut; the tree is in order again and its records and their order are unchanged |
| `BPlusTrees.BPlusTree.SplitInternal` | Indexing/BPlusTree/BPlusTree.cpp:67-126 | the same for an inner node, through all levels up to a new root; terminates |
| `BPlusTrees.BPlusTree.CutLeaf` | Indexing/BPlusTree/BPlusTree.cpp:14-30 | the upper half moves to a new leaf, and the promoted key is the first of that leaf |
| `BPlusTrees.BPlusTree.CutInner` | Indexing/BPlusTree/BPlusTree.cpp:69-90 | the middle key is promoted, the keys above it and their children move to a new node, and the children point back at it |
| `BPlusTrees.BPlusTree.HookRight` | Indexing/BPlusTree/BPlusTree.cpp:32-64 | hooking the new half in restores the tree, whether it needs a new root or overfills the parent |
| `BPlusTrees.BPlusTree.ContentsSorted` | Indexing/BPlusTree/BPlusTree.cpp:158-185 | in every valid tree the records lie in the order of their keys |
| `BPlusGraph.AddKeepsTree` | Indexing/BPlusTree/BPlusTree.cpp:158-185 | putting a record into its leaf keeps every node in order but for one leaf that may hold a key too many |
| `BPlusSplit.SplitKeepsShape` | Indexing/BPlusTree/BPlusTree.cpp:12-126 | a split leaves at most one overfull node, the parent, and every other node in order |
| `BPlusSplit.SplitNodes` | Indexing/BPlusTree/BPlusTree.cpp:12-126 | after a split every node satisfies the node invariant: children, parents, separators, contents |
| `BPlusSplit.CascadeClimbs` | Indexing/BPlusTree/BPlusTree.cpp:60-64 | each further split has fewer nodes above it, so the cascade ends |
| `BPlusBounds.SizeAtLeast` | Indexing/BPlusTree/BPlusTree.cpp:12-126 | a tree with h inner levels holds at least 2 * (order/2 + 1)^(h-1) * ((order+1)/2) records |
| `BPlusBounds.LeavesAtOneDepth` | Indexing/BPlusTree/BPlusTree.cpp:128-142 | every path from a node down to a leaf has the same length |
| `Pages.Page.constructor` | Storage/Page/Page.cpp:19-28 | a new page is empty: header fields set, all bytes zero |
| `Pages.EmptyInUse` | Storage/Page/Page.cpp:19-28 | the header of a new page accounts for all its bytes, and it holds no rows |
| `Pages.Page.AddRow` | Storage/Page/Page.cpp:97-114 | adds the row exactly when there is room for it and its line break, and otherwise changes nothing |
| `Pages.Page.CopyIn` | Storage/Page/Page.cpp:106-107 | the bytes of the row replace those at the offset, all others stay |
| `Pages.Page.GetRows` | Storage/Page/Page.cpp:30-55 | the rows that the line breaks delimit, as many as the header says, in order |
| `Pages.AddedRowReadsBack` | Storage/Page/Page.cpp:97-114 | a stored row is read back behind all earlier ones, which are unchanged, and freeSpace + nextRowOffset stays 4096 |
| `Storage.StorageFile.constructor` | Storage/StorageFile/StorageFile.cpp:6-25 | opening a file finds its free list: the pages tagged 0 |
| `Storage.StorageFile.Scan` | Storage/StorageFile/StorageFile.cpp:32-46 | the free list is exactly the pages tagged 0, in order |
| `Storage.StorageFile.GetPagesForTable` | Storage/StorageFile/StorageFile.cpp:123-139 | exactly the pages with the tag, each once, in order |
| `Storage.StorageFile.AllocatePage` | Storage/StorageFile/StorageFile.cpp:48-67 | takes the page freed last, or a new one at the end, and tags it in one disk step; the free list stays exact |
| `Storage.StorageFile.FreePage` | Storage/StorageFile/StorageFile.cpp:69-80 | blanks the page in one disk step and puts it last in the free list, which stays exact and without duplicates |
| `Storage.StorageFile.FreePagesForTable` | Storage/StorageFile/StorageFile.cpp:82-101 | frees every page of the table; at every step the file is the old one with some of its pages blanked |
| `Storage.StorageFile.ReadPage` | Storage/StorageFile/StorageFile.cpp:103-111 | reads the page the file holds |
| `Storage.StorageFile.WritePage` | Storage/StorageFile/StorageFile.cpp:113-121 | replaces that one page in one disk step |
| `Storage.AllocateOk` | Storage/StorageFile/StorageFile.cpp:48-67 | allocation keeps the free list exact and never takes a page that a table owns |
| `Storage.AllocateReuses` | Storage/StorageFile/StorageFile.cpp:48-67 | the file grows by a page if and only if no page is tagged 0 |
| `LRUCaches.LRUCache.Get` | Storage/LRUCache/LRUCache.cpp:7-16 | finds a page exactly when it is cached; a hit counts as a use of the page, which comes to the front, and a miss changes nothing |
| `LRUCaches.LRUCache.Put` | Storage/LRUCache/LRUCache.cpp:18-35 | the page comes to the front and counts as used; if it is new and the cache is full, the page used longest ago makes room and reaches the file if dirty; list and map agree, and the cached ids are the first `capacity` in the order of last use |
| `LRUCaches.LRUCache.Evict` | Storage/LRUCache/LRUCache.cpp:49-56 | drops the last page from list and map, writing it back exactly if it is dirty |
| `LRUCaches.LRUCache.FlushAll` | Storage/LRUCache/LRUCache.cpp:43-47 | empties the cache and leaves in the file what a reader of the cache saw; writes nothing if no page was dirty |
| `LRUCaches.LRUCache.Clear` | Storage/LRUCache/LRUCache.cpp:37-41 | empties the cache |
| `LRUCaches.EvictionInvisible` | Storage/LRUCache/LRUCache.cpp:49-56 | evicting a page, dirty or clean, changes nothing that a reader of cache and file sees |
| `LRUCaches.UsedHit` | Storage/LRUCache/LRUCache.cpp:12-13 | splicing a cached page to the front keeps the cached ids the first `capacity` in order of last use |
| `LRUCaches.UsedMiss` | Storage/LRUCache/LRUCache.cpp:23-26 | evicting the last id and pushing a new one keeps the cached ids the first `capacity` in order of last use |
| `LRUCaches.RecentInOrder` | Storage/LRUCache/LRUCache.cpp:7-35 | after any sequence of uses, a page used later stands further in front |
| `LRUCaches.CachedCount` | Storage/LRUCache/LRUCache.cpp:18-35 | the cached pages are as many of the used ones as the cache can hold |
| `LRUCaches.CachedAreUsedLast` | Storage/LRUCache/LRUCache.cpp:7-35 | a cached page was used later than every used page that is not cached or stands behind it |
| `TableRows.BagIsRows` | Storage/PageManager/PageManager.cpp:80-95 | the rows of a table are the same bag in whatever order its pages are listed |
| `TableRows.StoreRowOk` | Storage/PageManager/PageManager.cpp:10-37 | storing a row leaves all stored rows in place, puts the new one behind them at the place returned, keeps the free list exact and no other table's page is touched; it fails exactly when the row fits no page, and then changes no row |
| `TableRows.StoreRowPlaces` | Storage/PageManager/PageManager.cpp:10-37 | a row goes to the last page of the table as long as that has the space, and otherwise to a page of its own, a free one if there is any; a page takes rows of up to 4075 characters |
| `PageManagers.PageManager.constructor` | Storage/PageManager/PageManager.cpp:3-8 | starts with exactly the pages of the table and an empty cache |
| `PageManagers.PageManager.ReadPage` | Storage/PageManager/PageManager.cpp:55-69 | returns what the file holds, hit or miss, and touches the file in neither case |
| `PageManagers.PageManager.WritePage` | Storage/PageManager/PageManager.cpp:71-78 | writes through: file and cache agree afterwards |
| `PageManagers.PageManager.InsertRowWithLocation` | Storage/PageManager/PageManager.cpp:10-37 | result, file and page list are those of the version without a cache, and every disk state on the way has the table's rows with or without the new one |
| `PageManagers.PageManager.ClearAll` | Storage/PageManager/PageManager.cpp:44-53 | all pages of the table are freed, at every step the file is the old one with some pages of this table blanked, and nothing stays cached |
| `PageManagers.PageManager.GetAllRows` | Storage/PageManager/PageManager.cpp:80-95 | the rows of all pages as the file holds them |
| `PageManagers.PageManager.Destroy` | Storage/PageManager/PageManager.cpp:109-113 | the end of a page manager writes nothing |
| `StringUtils.WalEncode` | StringUtils/StringUtils.hpp:43-56 | the percent-encoding of the text |
| `StringUtils.WalDecode` | StringUtils/StringUtils.hpp:58-83 | undoes well-formed escapes and keeps everything else |
| `StringUtils.EscapeMeans` | StringUtils/StringUtils.hpp:58-83 | an escape stands for the character whose number its two hexadecimal digits, small or capital, spell |
| `StringUtils.DecodeEncode` | StringUtils/StringUtils.hpp:43-83 | decoding an encoded text gives the text, for every text |
| `StringUtils.EncodedIsClean` | StringUtils/StringUtils.hpp:43-56 | no delimiter and no line break survives encoding |
| `StringUtils.MarkerIsUnambiguous` | StringUtils/StringUtils.hpp:85-92 | no text is encoded as the marker of NULL |
| `StringUtils.ValueRoundTrip` | StringUtils/StringUtils.hpp:89-99 | every value, NULL included, survives encoding and decoding |
| `StringUtils.Split` | StringUtils/StringUtils.hpp:9-21 | the pieces between delimiters, without an empty one at the end |
| `StringUtils.SplitFields` | StringUtils/StringUtils.hpp:26-41 | all fields between delimiters, empty ones included |
| `StringUtils.FieldsOfJoin` | StringUtils/StringUtils.hpp:26-41 | splitting undoes joining for fields without the delimiter |
| `StringUtils.JoinOfFields` | StringUtils/StringUtils.hpp:26-41 | joining undoes splitting for every text |
| `StringUtils.RowRoundTrip` | StringUtils/StringUtils.hpp:26-99 | a row encoded and joined by bars reads back as itself if and only if it has a value |
| `StringUtils.RowTextOneLine` | Table/Table.cpp:232-239 | a stored row never contains the line break that ends it |
| `SqlText.SqlLiteral` | StringUtils/StringUtils.hpp:103-113 | NULL, or the text in quotes with inner quotes doubled |
| `Lexers.Lexer.ReadWord` | Frontend/Lexer/Lexer.cpp:18-44 | the longest word; a keyword in any case becomes the keyword |
| `Lexers.Lexer.ReadNumber` | Frontend/Lexer/Lexer.cpp:47-59 | the longest run of digits with at most one dot |
| `Lexers.Lexer.ReadString` | Frontend/Lexer/Lexer.cpp:64-86 | up to the closing quote, a doubled quote being a literal one |
| `Lexers.Lexer.ReadOperator` | Frontend/Lexer/Lexer.cpp:89-102 | one character, or two if the second is an equals sign |
| `Lexers.Lexer.Tokenize` | Frontend/Lexer/Lexer.cpp:121-179 | all tokens of the input, for every input |
| `SqlText.LexPieces` | Frontend/Lexer/Lexer.cpp:121-179 | a text put together from words, white space of any kind, quoted literals, numbers with or without sign and dot, operators, punctuation, stars and meaningless characters that keep apart lexes to exactly their tokens |
| `SqlText.NumberStep` | Frontend/Lexer/Lexer.cpp:47-62 | an optional sign, digits, and perhaps a dot and digits, up to the first character that cannot go on the number, is one NUMBER token: the text itself, without a plus sign |
| `SqlText.KeywordInAnySpelling` | Frontend/Lexer/Lexer.cpp:18-45 | a word is a keyword exactly if some keyword is the same word in capitals; any other is an identifier, as spelled |
| `SqlText.UnclosedString` | Frontend/Lexer/Lexer.cpp:64-87 | a string that is not closed goes on to the end of the text |
| `Parsers.Parser.ParseValue` | Frontend/Parser/Parser.cpp:382-400 | one literal, or NULL, or the error that the grammar gives |
| `Parsers.Parser.ParseCondition` | Frontend/Parser/Parser.cpp:343-377 | a comparison, IS NULL or IS NOT NULL, or the error that the grammar gives |
| `Parsers.Parser.ParseInsert` | Frontend/Parser/Parser.cpp:173-249 | the INSERT that the grammar reads in the tokens, or its error |
| `Parsers.Parser.ParseDelete` | Frontend/Parser/Parser.cpp:251-275 | the DELETE that the grammar reads in the tokens, or its error |
| `Parsers.Parser.ParseUpdate` | Frontend/Parser/Parser.cpp:295-341 | the UPDATE that the grammar reads in the tokens, or its error |
| `Parsers.Parser.ParseDefinitions` | Frontend/Parser/Parser.cpp:83-111 | the columns of a CREATE TABLE with their canonical types, refused for a missing name, an unknown type or a trailing comma |
| `Parsers.Parser.ParseCreate` | Frontend/Parser/Parser.cpp:69-122 | accepts a name and at least one column in parentheses, with nothing behind them, and otherwise names the first thing that is wrong |
| `Parsers.Parser.ParseDrop` | Frontend/Parser/Parser.cpp:277-293 | accepts a name with nothing behind it, and otherwise names the first thing that is wrong |
| `Parsers.Parser.Parse` | Frontend/Parser/Parser.cpp:456-485 | recognises the statement by its first keywords; INSERT, DELETE, UPDATE, CREATE TABLE and DROP TABLE are parsed in full, a SELECT or a statement about databases is only told apart |
| `Grammars.ParsesExactly` | Frontend/Parser/Parser.cpp:69-400 | of all lists of tokens, the parser reads as an INSERT, DELETE, UPDATE, CREATE TABLE or DROP TABLE exactly the sentences that say so, each as what it says: the lists are given position by position, with nothing behind them, and with as many columns as values |
| `Grammars.TextMeansIff` | Frontend/Parser/Parser.cpp:456-485 | a text means a statement if and only if its tokens are the sentence for it |
| `Grammars.WrittenMeansIff` | Frontend/Parser/Parser.cpp:456-485 | the same for any text put together from pieces: unquoted numbers, keywords in any spelling, white space anywhere |
| `Grammars.InsertIntoRoundTrip` | Frontend/Parser/Parser.cpp:173-249 | for every table, list of columns and list of values, an INSERT with a column list means these values for these columns in this order, and is refused as a mismatch if the lists differ in length |
| `Grammars.CreateRoundTrip` | Frontend/Parser/Parser.cpp:69-122 | for every list of names and types, a CREATE TABLE means these columns in this order |
| `Grammars.DropRoundTrip` | Frontend/Parser/Parser.cpp:277-293 | for every name, a DROP TABLE means that table |
| `Grammars.TypeIs` | Frontend/Parser/Parser.cpp:10-25 | the four type names are themselves, TEXT is STRING and BOOLEAN is BOOL, in any spelling, and nothing else is a type |
| `SqlRoundTrip.InsertRoundTrip` | WALManager/WALManager.cpp:241-244 | for every identifier and every non-empty list of values, the INSERT text that recovery builds parses back to that INSERT |
| `SqlRoundTrip.DeleteRoundTrip` | WALManager/WALManager.cpp:245-250 | the same for DELETE with every condition that the parser can produce |
| `SqlRoundTrip.UpdateRoundTrip` | WALManager/WALManager.cpp:251-270 | the same for UPDATE with every non-empty list of assignments |
| `SqlRoundTrip.StatementRoundTrip` | WALManager/WALManager.cpp:182-201 | the text of every statement that the parser can produce parses back to it |
| `SqlRoundTrip.ParsedIsWellFormed` | Frontend/Parser/Parser.cpp:173-377 | whatever text a client sends, a parsed statement is one whose text parses back |
| `Wal.WALManager.LogInsert` | WALManager/WALManager.cpp:72-81 | appends, in one step, the one line of the INSERT |
| `Wal.WALManager.LogDelete` | WALManager/WALManager.cpp:83-90 | appends, in one step, the one line of the DELETE |
| `Wal.WALManager.LogUpdate` | WALManager/WALManager.cpp:92-108 | appends, in one step, the one line of the UPDATE |
| `Wal.WALManager.LogReplaceBegin` | WALManager/WALManager.cpp:110-117 | appends, in one step, the line that begins a block |
| `Wal.WALManager.LogReplaceRow` | WALManager/WALManager.cpp:119-128 | appends, in one step, the line of a row of a block |
| `Wal.WALManager.ReadLog` | WALManager/WALManager.cpp:130-171 | all entries of the log, each COMMIT committing every entry before it; malformed lines are skipped |
| `Wal.WALManager.Commit` | WALManager/WALManager.cpp:173-180 | appends, in one step, the COMMIT line |
| `Wal.ConditionSQL` | WALManager/WALManager.cpp:16-26 | the WHERE clause of logged condition data |
| `Wal.ValuesSQL` | WALManager/WALManager.cpp:30-39 | the VALUES list of a logged row |
| `Wal.ReplaySQLOf` | WALManager/WALManager.cpp:239-272 | the SQL that an entry is replayed as, if any |
| `WalFormat.LineReadsBack` | WALManager/WALManager.cpp:72-171 | a logged line reads back as what was logged, not committed |
| `WalFormat.LineIsOneLine` | WALManager/WALManager.cpp:72-128 | a logged record is one line, not empty, and not a COMMIT |
| `WalFormat.LogReadsBack` | WALManager/WALManager.cpp:130-171 | a log reads back as all its records in order, each committed exactly when a COMMIT follows it |
| `WalFormat.ReplayRoundTrip` | WALManager/WALManager.cpp:239-274 | logging, reading back, rebuilding SQL, lexing and parsing gives the logged statement, for every INSERT, DELETE and UPDATE |
| `Values.ValidateValueForType` | Table/Table.cpp:29-89 | true exactly for the values of the type; NULL has every type |
| `Values.CheckDigits` | Table/Table.cpp:35-53 | an optional sign and at least one digit, nothing else |
| `Values.CheckDigitsAndDot` | Table/Table.cpp:55-80 | an optional sign, then digits with at most one dot |
| `Values.GetColumnIndex` | Table/Table.cpp:19-27 | the first column of that name, or none |
| `Values.EvaluateCondition` | Table/Table.cpp:104-170 | whether the row satisfies the condition: by number, by truth value or by text as the column demands, never through NULL |
| `Decimals.StoiOfDecimal` | Table/Table.cpp:179-184 | written in decimal notation, every int is read as itself, from -2147483648 to 2147483647, and no other number is read |
| `Decimals.StoiReads` | Table/Table.cpp:179-184 | white space in front, signs, leading zeros and whatever follows the digits make no difference to the number that is read |
| `Decimals.IntTextSpells` | Table/Table.cpp:35-53 | an INT column accepts exactly the texts that spell a number, each just one: a sign, zeros and its digits |
| `Decimals.FloatTexts` | Table/Table.cpp:55-80 | a FLOAT column accepts exactly an optional sign and numerals with at most one dot, and not nothing |
| `Decimals.OtherTexts` | Table/Table.cpp:10-17 | a BOOL column accepts six texts, three for each truth value, a STRING column every text, any column NULL, and a column of another type no text |
| `Comparisons.NumbersDecide` | Table/Table.cpp:136-150 | on INT and FLOAT columns <, = and > are those of the numbers, so exactly one holds, and !=, >= and <= are their negations |
| `Comparisons.IntsDecide` | Table/Table.cpp:136-150 | on INT columns all six comparisons are those of the ints that the texts spell, however they are written |
| `Comparisons.UnreadableSelectsNothing` | Table/Table.cpp:136-150 | where a text does not read as a number, no comparison of numbers holds, != included |
| `Comparisons.TextsDecide` | Table/Table.cpp:161-169 | on STRING columns = and != are those of the texts, and the orderings those of the numbers that they read as, if they do |
| `Comparisons.TruthsDecide` | Table/Table.cpp:152-159 | on BOOL columns = and != are those of the truth values, however spelled |
| `Comparisons.NullsDecide` | Table/Table.cpp:124-130 | IS NULL and IS NOT NULL select exactly the NULLs and the others; no comparison selects a NULL or holds with one |
| `Comparisons.UnknownSelectsNothing` | Table/Table.cpp:104-170 | an unknown operator, and a column that there is not, select nothing |
| `Comparisons.ConditionAcceptedIff` | Engine/Engine.cpp:40-54 | a condition is accepted exactly if its column exists and its literal is NULL, or a number for INT and FLOAT, a truth value for BOOL, any text for STRING |
| `Values.KeyLookupIsCondition` | Table/Table.cpp:260-285 | a whole literal that fits an int selects by condition exactly the rows that have it as their key, however it is spelled |
| `TableIndex.EntriesCorrespond` | Table/Table.cpp:250-255 | every index entry points at a row with its key, and every row with a key that fits an int has its entry |
| `TableIndex.PlacesDiffer` | Storage/PageManager/PageManager.cpp:10-37 | no two rows lie at the same place, so entries and rows correspond one to one |
| `TableIndex.MissAgrees` | Table/Table.cpp:285-305 | when the index has no entry for the key, a full scan finds nothing either |
| `TableIndex.HitAgrees` | Table/Table.cpp:285-300 | with unique keys, the row that the entry points at is all that a full scan finds |
| `Tables.Table.constructor` | Table/Table.cpp:172-177 | a reopened table has the rows of the file and an index that corresponds to them; opening writes nothing |
| `Tables.Table.RebuildIndex` | Table/Table.cpp:411-438 | the rebuilt index has exactly one entry for each row with a key |
| `Tables.Table.CheckShape` | Table/Table.cpp:186-199 | refuses exactly the rows with the wrong number of values or a value of the wrong type |
| `Tables.Table.CheckRow` | Table/Table.cpp:201-221 | refuses exactly the rows of the wrong shape, with a key that fits no int, or with a key that a stored row has |
| `Comparisons.KeysCollideIff` | Table/Table.cpp:201-221 | a row of the right shape with a key is refused exactly if its key is a number that fits no int, or the number that the key of a stored row spells, too |
| `Comparisons.OtherRowsAccepted` | Table/Table.cpp:201-221 | a row without a key is accepted, and every other key spells a number |
| `Comparisons.ShapeIsRightIff` | Table/Table.cpp:186-199 | the shape is right exactly if there is a value of the right type for each column; a wrong number of values is reported as such |
| `Tables.Table.InsertRow` | Table/Table.cpp:223-258 | a refused row changes nothing; an accepted one is appended and indexed if it fits a page; every disk state on the way has the rows with or without it |
| `Tables.Table.SelectRow` | Table/Table.cpp:260-322 | with unique keys in range, the answer through the index is that of a full scan, for every condition and literal; selecting writes nothing |
| `Tables.Table.LookUp` | Table/Table.cpp:287-305 | an entry found always points at a stored row, so the index is never found corrupted |
| `Tables.Table.PreviewDelete` | Table/Table.cpp:324-335 | the rows that do not satisfy the condition; none without a condition |
| `Tables.Table.PreviewUpdate` | Table/Table.cpp:337-372 | all rows, the matching ones assigned, and how many match; nothing if the statement cannot be carried out or matches none |
| `Tables.Table.Rewrite` | Table/Table.cpp:378-385 | replaces the rows by those of the new ones that can be stored; at every step only pages of this table have changed, and it has a part of its old rows or of its new ones, and at one of them it has none |
| `Tables.Table.DeleteRow` | Table/Table.cpp:374-386 | leaves the storable rows that fail the condition and returns how many it removed |
| `Tables.Table.UpdateRow` | Table/Table.cpp:388-402 | leaves the storable rows of the preview and returns how many matched; without a match it writes nothing |
| `Tables.Table.DropStorage` | Table/Table.cpp:404-409 | no row and no index entry is left; at every step the file is the old one with some pages of this table blanked |
| `Tables.Table.RowsAreBag` | Storage/PageManager/PageManager.cpp:80-95 | the rows of an open table are, as a bag, what the file holds of it |
| `Rewrites.AllSurvive` | Table/Table.cpp:383-384 | a rewrite keeps every new row if and only if each has the table's shape and fits a page |
| `Rewrites.StoredFits` | Storage/Page/Page.cpp:91-114 | whatever is stored on a page fits a page, so a DELETE loses nothing |
| `Rewrites.DeleteLeavesFailing` | Table/Table.cpp:374-386 | DELETE leaves, byte for byte and in order, the rows that fail the condition, and reports the number of the others |
| `Rewrites.DeleteConserves` | Table/Table.cpp:374-386 | as a bag: what satisfies the condition is gone, everything else is there as often as before |
| `Rewrites.AssignedMeans` | Table/Table.cpp:355-364 | an assigned column has an assigned value, every other column its old one |
| `Rewrites.UpdateMeans` | Table/Table.cpp:347-371 | UPDATE keeps the number of rows; matching rows are assigned, the others unchanged |
| `Rewrites.UpdateStores` | Table/Table.cpp:337-402 | an UPDATE that fits stores each matching row with its assignments and each other row as it was, and reports how many match; without a match it stores nothing |
| `Rewrites.ScannedAndKept` | Table/Table.cpp:308-335 | the rows that a condition selects and those that it leaves are all rows |
| `Rewrites.UpdateKeepsShape` | Engine/Engine.cpp:305-319 | after an UPDATE with values of the columns' types every row still has the table's shape |
| `Statements.PlaceValues` | Engine/Engine.cpp:195-214 | the row of an INSERT with a column list, or an error for an unknown or repeated column |
| `Statements.PlacedMeans` | Engine/Engine.cpp:195-214 | each value stands at the place of its column, and columns that are not listed are NULL |
| `Statements.CheckCondition` | Engine/Engine.cpp:40-54 | accepts exactly the conditions on a known column with a value that the column can be compared with |
| `Statements.CheckUniqueNames` | Engine/Engine.cpp:58-64 | accepts exactly the lists without a repeated name |
| `Statements.CheckKeyAssignments` | Engine/Engine.cpp:328-356 | reports the first assigned key that fits no int or that several of the new rows have |
| `Statements.KeyErrorTells` | Engine/Engine.cpp:328-356 | nothing is reported exactly when each assigned key fits an int and at most one of the new rows has it |
| `Statements.InsertKeepsKeys` | Table/Table.cpp:201-221 | an accepted INSERT keeps the keys unique and every row readable |
| `Statements.UpdateKeepsKeys` | Engine/Engine.cpp:325-357 | an UPDATE that passes the checks keeps the keys unique and every row readable |
| `Statements.KeysCheckedIff` | Engine/Engine.cpp:325-357 | an UPDATE that matches a row passes the checks of its keys if and only if the keys of all rows fit an int afterwards and no two are the same |
| `Catalogs.Catalog.Load` | Catalog/Catalog.cpp:68-106 | the maps show what the file says, and the next id is one more than the largest in use |
| `Catalogs.Catalog.Save` | Catalog/Catalog.cpp:108-126 | the file lists each table of the maps once, in one disk step |
| `Catalogs.Catalog.CreateTable` | Catalog/Catalog.cpp:20-29 | adds the table, under an id that no table has, exactly if the name is free and there are columns; the other tables keep their lines |
| `Catalogs.Catalog.DropTable` | Catalog/Catalog.cpp:31-39 | removes this table and no other |
| `Catalogs.Catalog.GetTableId` | Catalog/Catalog.cpp:59-66 | the id that the file gives the table, or -1 |
| `Catalogs.FreshIdIsEmpty` | Catalog/Catalog.cpp:68-106 | an id that no table has, also one reused after a restart, owns no page and shows no row |
| `Catalogs.OwnedWithin` | Storage/StorageFile/StorageFile.cpp:48-80 | whatever happens to the pages of one table of the catalog, every page stays free or owned by one table |
| `Catalogs.CreatedOwned` | Engine/Engine.cpp:128-141 | CREATE TABLE keeps every page owned, and the new table is empty |
| `Catalogs.DroppedOwned` | Engine/Engine.cpp:143-150 | DROP TABLE leaves no page without an owner |
| `Catalogs.PagesAddUp` | Storage/StorageFile/StorageFile.cpp:32-101 | the free pages and the pages of all tables add up to the pages of the file |
| `Engines.Engine.OpenTable` | Engine/Engine.cpp:187-190 | the table with the columns, id and rows that catalog and file give its name; nothing is written |
| `Engines.Engine.ExecuteInsert` | Engine/Engine.cpp:187-234 | check, log, store and commit in this order: refused without a trace, or the line is the first disk step, every state is a step of the INSERT, and the last one is committed, after one that has the row and no COMMIT, unless the row fits no page; in recovery mode nothing is logged |
| `Engines.Engine.ExecuteDelete` | Engine/Engine.cpp:278-298 | the rows that stay are logged one by one before any page changes, then the table is emptied and filled again, then that is committed, each in disk steps of its own; the number of deleted rows is reported |
| `Engines.Engine.ExecuteUpdate` | Engine/Engine.cpp:300-371 | the same for the new rows of an UPDATE, after all its checks, of which the first that fails is reported; without a match only a COMMIT is written |
| `Engines.Engine.LogBlock` | Engine/Engine.cpp:290-292 | the lines of the block reach the log one at a time, and nothing else happens |
| `Engines.Engine.Execute` | Engine/Engine.cpp:104-126 | INSERT, DELETE and UPDATE each do what their kind does, in recovery mode or not; the answer is exactly the first error of the statement, or none, and after a success the number of affected rows is the one reported |
| `Engines.Engine.ExecuteCreate` | Engine/Engine.cpp:128-141 | creates the table exactly if its name is free and its columns differ, in one disk step, under an id that no table has; the other tables keep their lines |
| `Engines.Engine.ExecuteDrop` | Engine/Engine.cpp:143-150 | frees the table's pages one by one, then removes its name; no page of the table is left, and no other table is touched |
| `Recovery.PendingIsTail` | WALManager/WALManager.cpp:138-171 | the entries that are not committed are the last ones of the log, behind all committed ones |
| `Recovery.PendingCommitted` | WALManager/WALManager.cpp:142-147 | after a COMMIT nothing is pending |
| `Recovery.OutcomeOfCopies` | WALManager/WALManager.cpp:239-275 | replaying an INSERT with a key, or one that fits no page, any number of times has the effect of replaying it once |
| `Recovery.OutcomeOfKeyless` | WALManager/WALManager.cpp:239-275 | without a key, every copy that is replayed is stored |
| `Recovery.OutcomeOfBlock` | WALManager/WALManager.cpp:212-237 | replaying a block leaves the logged rows, whatever was in the table |
| `Recovery.OutcomeSkips` | WALManager/WALManager.cpp:239-275 | INSERTs that failed because their rows fit no page make no difference to what recovery ends in |
| `Crashes.InsertSurvives` | Engine/Engine.cpp:216-233 | once the line of a row with a key is logged, every later state, also while it is replayed and logged again, recovers to that row stored exactly once and every other table unchanged |
| `Crashes.KeylessInsertSurvives` | WALManager/WALManager.cpp:239-275 | without a key, a step of the INSERT recovers to one copy if its page was not written or the COMMIT was, and otherwise to two |
| `Crashes.ReplaceSurvives` | Engine/Engine.cpp:285-297 | once a block is fully logged, every later state recovers to exactly the logged rows and every other table unchanged |
| `Crashes.TornBlockRecovers` | WALManager/WALManager.cpp:212-221 | a crash inside the logging of a block recovers to the rows logged so far |
| `Replays.ReplaySQL` | WALManager/WALManager.cpp:182-201 | executes the statement about rows that the text means, and does nothing for a text that means none |
| `Replays.ReplayTextMeansRows` | WALManager/WALManager.cpp:239-273 | no text that recovery builds creates or drops a table, whatever is in the log |
| `Replays.RestoreRows` | WALManager/WALManager.cpp:223-232 | clears the table and stores the rows of the block, logging nothing; at every step the table has a part of its old rows or of the block's, and at one of them none |
| `Replays.ReplayBlock` | WALManager/WALManager.cpp:223-236 | the table holds the rows of the block, that is committed, and recovery mode is off again |
| `Replays.CollectRows` | WALManager/WALManager.cpp:214-221 | the VALUES lists of all REPLACE_ROW entries that follow, and where they end |
| `Replays.ReplayEntry` | WALManager/WALManager.cpp:239-275 | an INSERT, DELETE or UPDATE entry is executed as the statement its text means, outside recovery mode, and then committed once more; an entry without a text is passed over |
| `Replays.Recover` | WALManager/WALManager.cpp:203-276 | for every log, the disk goes through exactly the states of the jobs that the entries without a COMMIT ask for, in order, read once at the start |
| `Restarts.PlanArrives` | WALManager/WALManager.cpp:203-276 | completed recovery leaves in every table exactly what replaying the entries in order makes of its rows, for any number of INSERTs, with keys or without, and blocks |
| `Restarts.RecoveryArrives` | WALManager/WALManager.cpp:203-276 | from every state in order, completed recovery ends in order, with nothing pending, and with exactly the rows that `Recovered` tells |
| `Restarts.RecoveryKeepsOutcome` | WALManager/WALManager.cpp:203-276 | with one statement pending that is a block, or an INSERT with a key or too long for a page, every state that recovery passes through recovers to the same rows of every table |
| `Restarts.InsertStaysOnTheWay` | WALManager/WALManager.cpp:239-275 | each step of a replayed INSERT, its second log line included, keeps what recovery will end in |
| `Restarts.BlockStaysOnTheWay` | WALManager/WALManager.cpp:223-236 | each page freed or written while a block is replayed keeps what recovery will end in |
| `Meanings.RowsMeantAreHealthy` | Engine/Engine.cpp:278-371 | the rows that a DELETE or an UPDATE leaves are readable, their keys unique and in range |
| `Meanings.NotMoreRows` | Engine/Engine.cpp:278-371 | DELETE and UPDATE leave at most as many rows as there were |
| `Meanings.AnswerMeans` | Engine/Engine.cpp:187-371 | the answer is a success if and only if the row of an INSERT is accepted and fits a page, the condition of a DELETE makes sense, or the assignments of an UPDATE are allowed and its keys stay distinct; after an error every row is as it was |
| `Meanings.AffectedMeans` | Engine/Engine.cpp:231-371 | after a success an INSERT reports one, and there is that row more; a DELETE the number of rows that satisfied its condition, and there are as many less; an UPDATE the number that matched |
| `Meanings.ColumnsAcceptedIff` | Engine/Engine.cpp:195-214 | a column list is accepted if and only if it names different columns of the table |
| `Meanings.AssignmentsAcceptedIff` | Engine/Engine.cpp:300-323 | assignments are accepted if and only if they are to different columns of the table, each with a value of its type, and the condition makes sense |
| `Integrity.ExecutedStaysOk` | Engine/Engine.cpp:187-371 | whatever a statement does, with a key or without, and whether its rows fit a page or not: in every state of the disk keys are unique and in range, pages are free or owned by one table, and the log can be replayed without harm |
| `Integrity.RecoveryStaysOk` | WALManager/WALManager.cpp:203-276 | the same of every state that recovery passes through, whatever is pending |
| `Integrity.ClientStatementReplays` | WALManager/WALManager.cpp:182-276 | when a statement that a client sent was logged, with the columns of an INSERT put in the order of the table, or with the rows that a DELETE or an UPDATE is to leave, then what recovery reads back, builds SQL from, lexes and parses asks for exactly that, behind what was pending before |
| `Safety.InsertIsCrashSafe` | Engine/Engine.cpp:216-233 | every step of an INSERT recovers to what is promised for it |
| `Safety.ReplaceIsCrashSafe` | Engine/Engine.cpp:278-371 | every step of a DELETE or an UPDATE recovers to what is promised for it |
| `Safety.StatementIsSafe` | Engine/Engine.cpp:187-371 | a statement ends with the rows it means; every state in between recovers to the old rows, the new rows, the part of the block logged so far or, without a key, one copy more, as pages and log say; other tables are untouched |
| `Runs.RecoveryOfGood` | WALManager/WALManager.cpp:239-275 | recovery that finds nothing pending but INSERTs that fit no page changes no rows, at any of its steps |
| `Runs.RestartArrives` | WALManager/WALManager.cpp:203-276 | however often recovery is interrupted: when it is completed, every table has the rows that `Recovered` tells of the last interruption |
| `Runs.InterruptionsDoNotMatter` | WALManager/WALManager.cpp:203-276 | with one repeatable statement pending, recovery interrupted in any of its states, any number of times, ends as if it had not been |
| `Runs.CreateIsSafe` | Engine/Engine.cpp:128-141 | a new table is empty, also under an id that was used before, and the others are as they were |
| `Runs.DropIsSafe` | Engine/Engine.cpp:143-150 | every state of a DROP TABLE is in order, with a part of the table's rows and all other tables as they were; at its end the table is gone |
| `Runs.NewDatabaseIsGood` | Engine/Engine.cpp:66-77 | an empty database is good, so every run can begin with one |
| `Runs.TurnIsSafe` | Engine/Engine.cpp:66-77 | a statement, CREATE TABLE or DROP TABLE, completed, or interrupted and then recovered, leads from a good database to a good one; the rows are those promised for the state of the crash, if recovery was not interrupted, or could be without loss, and otherwise those that `Recovered` tells of its last interruption |
| `Runs.TurnSettles` | Engine/Engine.cpp:187-371 | an interrupted turn leaves nothing pending, nor does one that commits, nor one that finds nothing pending and is no INSERT that fails for its size |
| `Runs.RunsAreSafe` | Engine/Engine.cpp:187-371 | over every run of statements, CREATE TABLE and DROP TABLE with crashes at any step of any of them and of any recovery, the database stays good, and every turn is safe in the same sense |
| `Runs.RunsAreExact` | Engine/Engine.cpp:187-371 | over every run, however often each recovery is interrupted: as long as no INSERT has failed for its size since the last COMMIT, completed statements have their whole effect and interrupted ones exactly what was promised for the crash, unless the recovery of a row without a key is interrupted |
| `Runs.EveryStateIsOk` | Engine/Engine.cpp:104-371 | no state that the disk is ever in during a run, in the middle of an action or of a recovery, is out of order |
| `Runs.DiskOkMeans` | Storage/StorageFile/StorageFile.cpp:32-101 | in a state in order no two rows of a table share a key and every key fits an int, the free pages and the pages of the tables add up to the file, and an id that no table has shows no row |
| `Sessions.Open` | Engine/Engine.cpp:66-77 | opening a database recovers it: every table gets the rows that `Recovered` tells, every state on the way is in order and one in which a recovery can be interrupted |
| `Sessions.Query` | Engine/Engine.cpp:435-492 | a client's INSERT, DELETE, UPDATE, CREATE TABLE or DROP TABLE is executed, if its table exists, and makes a turn of a run, completed or interrupted at any step; the client is told exactly the error, or of a success, and how many rows were affected; a SELECT or a statement about databases is not executed here and touches nothing |
| `Sessions.ReplyMeans` | Engine/Engine.cpp:435-492 | a client is told of a success if and only if the text is a statement that can be carried out: on a table that exists, or for CREATE TABLE with a free name and different columns |
| `Limits.AtomicIff` | README.md:264-265 | a DELETE or an UPDATE is atomic under a crash if and only if none of its block's lines was logged, or all but for rows that fit no page; an INSERT, if and only if its row has a key, has not reached its page, or is committed |
| `Limits.UpdateKeepsCountIff` | Table/Table.cpp:399-400 | an UPDATE keeps the number of rows if and only if all its new rows fit a page |
| `Limits.KeylessStoredOnceIff` | WALManager/WALManager.cpp:239-275 | after a crash and any number of interrupted recoveries, also behind failed INSERTs, a row without a key is stored as often as it was on its pages and in the log at the last interruption; once, if and only if those are one |
| `Limits.OversizedInsertHides` | WALManager/WALManager.cpp:142-147 | with an INSERT that fits no page pending in front, every recovery passes through a state in which whatever was logged behind it is forgotten, and only then carries it out |
| `Limits.HiddenIff` | WALManager/WALManager.cpp:203-276 | behind such an INSERT, every state of a recovery, and of all recoveries, recovers to the same rows of a table if and only if nothing that is pending would change it: each INSERT into it is refused, and each block for it finds it empty and leaves it so |
| `Limits.HiddenBlockIff` | WALManager/WALManager.cpp:203-276 | for one block behind any number of such INSERTs: if and only if its table is empty and no logged row can be stored |
| `Limits.HiddenInsertIff` | WALManager/WALManager.cpp:203-276 | for one INSERT behind them: if and only if its row is refused or fits no page |
| `Limits.DropEmptiesFirst` | Engine/Engine.cpp:143-150 | every DROP TABLE goes through a state in which the table is still there, without rows |
| `Limits.DropAtomicIff` | Engine/Engine.cpp:143-150 | after a crash in a DROP TABLE and any recovery, the table is as before, or gone, if and only if its name was gone at the crash, or none of the pages freed until then held a row |
| `Cases.TornDeleteLosesRow` | README.md:264-265 | a concrete DELETE that matches nothing: every execution goes through a state that recovers to an empty table |
| `Cases.KeylessRowTwice` | WALManager/WALManager.cpp:239-275 | a concrete row without a key: every INSERT goes through a state that recovers to it twice |
| `Cases.KeylessRowThrice` | WALManager/WALManager.cpp:239-275 | a crash that every INSERT passes and that is harmless by itself; every recovery from there goes through a state that recovers to the row three times |
| `Cases.WaitingRecovers` | WALManager/WALManager.cpp:239-275 | every recovery that finds n copies goes through a state with n + 1, and one that recovers to n + 2 rows; completed, it leaves n |
| `Cases.KeylessRowOften` | WALManager/WALManager.cpp:239-275 | for every n, recoveries exist, each interrupted behind the line that every recovery logs, after which the row is stored n times |
| `Cases.OversizedUpdateLosesRow` | Table/Table.cpp:399-400 | a concrete UPDATE that is accepted and leaves an empty table |
| `Cases.OversizedInsertLosesRow` | WALManager/WALManager.cpp:142-147 | behind a concrete failed INSERT, every DELETE that keeps the row goes through states that recover to it, with its block logged and no page touched, and with the table emptied; every recovery from either goes through a state that recovers to nothing |
| `Cases.OversizedInsertLosesInsert` | WALManager/WALManager.cpp:142-147 | the same for a concrete INSERT behind it: its row is recovered, but every recovery goes through a state that has forgotten it |
| `Cases.DropLosesRowFirst` | Engine/Engine.cpp:143-150 | a concrete DROP TABLE: every execution goes through a state in which the table is there and its row is not |

## Left out

- The GUI, networking, configuration, CREATE/DROP/USE DATABASE and the files behind them are not modelled.
- Threads and locks: one engine mutex serialises all queries, so everything is sequential; the window in which `readPage` has released its lock is not modelled.
- Real files: fsync, torn page writes, stream flags and file offsets beyond an int. A page write, a log line and a rewrite of the catalog file are atomic.
- The text of the catalog file: a line is a record of name, id and columns; the order of the lines that `std::map` gives is left open.
- SELECT: its grammar, the projection to single columns, and its execution through `query`; the rows that a condition selects are `Tables.Table.SelectRow`. The texts of errors.
- `Table::nextKey`: it is counted but never read.
- Floating point: reading a number is a parameter that is exact on ints; rounding, infinities and NaN do not occur. Letters, digits and spaces are ASCII.
- Data of older versions (duplicate or overflowing keys, rows of the wrong shape): the tables accept them, but the guarantees for whole runs are for databases that this version wrote. The B+ tree is proved for duplicate keys.
- `Replays.Recover`: a block is covered if its table has a name that SQL can spell, as every name that the parser produces; lines that carry the flag of a committed entry, which the engine never writes, are not covered.
- `Restarts.PlanArrives`: pending DELETE and UPDATE entries, which the engine never logs, are replayed as `Replays.ReplayEntry` says, but `Recovered` passes over them.
- `Runs.RunsAreSafe`: of a statement whose recovery is interrupted while a failed INSERT is pending, or which inserts a row without a key, it says only that each table has what `Recovered` tells of the last interruption; what that can be is the subject of `Limits`, and all others are those of `Runs.RunsAreExact`.
- `Engines.Engine.Execute`: the statements about rows; CREATE TABLE and DROP TABLE are dispatched by `Sessions.Query`, and the others are not modelled.
- `Parsers.Parser.Parse`: a SELECT or a statement about databases is recognised, but its grammar is not modelled.
- `Catalogs.Catalog.Load`: the lines of the catalog file are records; splitting their text is not modelled.
- `Catalogs.Catalog.Save`: the same for writing them; the order that `std::map` gives them is left open.
- `Tables.Table.SelectRow`: says nothing about the answer through the index when two rows share a key.
