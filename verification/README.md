# A verified model of uw

This project models the parts of the uw toolkit that are hard to get right and proves what they promise,
for every input, every run or every interleaving.

| files | what they model |
|---|---|
| `MapSteps`, `MapInvariant`, `MapProof`, `MapTheorems`, `MapValues`, `MapCollisions` | the lock-free hash map of `pkg/hashmap` as a step machine: any number of concurrent `Insert`, `Set` and `Get` calls while a resize runs |
| `PowerOfTwo`, `SortedList`, `SlotIndex`, `SequentialMap`, `MapHistory` | the same map on the heap as one goroutine sees it: list elements with `next` and `deleted`, slots, resizes, and whole histories of calls |
| `TomlText`, `TomlStrings`, `TomlGrammar`, `TomlPrinter`, `TomlRoundTrip`, `TomlTables`, `TomlNumbers`, `TomlNodes`, `TomlSoundness` | what the TOML encoder prints and the parser reads, as functions, and the laws between them |
| `TomlFormat` | what the encoder's settings do to the text: lines, indentation, empty lines |
| `TomlLiterals`, `TomlEscapes`, `TomlLayouts`, `TomlTokens` | what the parser makes of documents that no encoder has printed, in any layout and with every kind of token |
| `TomlScanner`, `TomlDecoder`, `TomlParser`, `TomlEncoder` | the scanner, parser, node builder and encoder as loops and objects, each proved to compute those functions |
| `Emphasis`, `EmphasisLaws`, `EmphasisContext` | the delimiter algorithm of the Markdown parser |
| `ChildOrder`, `ChildLinks`, `ChildList` | the intrusive child lists of the Markdown syntax tree |
| `ConnHandshake` | the protocol between caller, canceller and connection pool in the PostgreSQL client |
| `QueryReplies` | reading the replies to a query |
| `ScramFields`, `ScramClient`, `ScramServer` | the SCRAM login of the SASL package, and a server written from the RFC to hold it against |
| `RoutePaths`, `RouteParams`, `RouteTree` | the router's trie and the path parameters of a request |
| `LocalTimes` | local dates and times of TOML |
| `Basics` | what several of these share |

The form follows the source. Code that only computes a value is a function with lemmas. Code that updates fields,
buffers or links is a class or a loop, proved against such a function. Concurrent code is a state machine whose steps are
the source's atomic accesses, and the theorems speak of all its runs.

## Where the code and its promise differ

Each of these follows the code and is proved, most of them as an exact condition.

- Keys that share a hash can be lost to concurrent inserts, for a slot can come to lead behind one of them. For any calls
  of `Insert` and an index of any width, every complete run that ends with that width finds all keys if and only if no
  two keys share the smallest hash that the calls have in a bucket (`MapCollisions.AllFoundIff`). A smaller hash in the
  same bucket saves them: with hashes 2, 3 and 3 nothing is lost at any even width (`MapCollisions.SmallerHashSaves`).
  Whatever calls are made for a set of keys, none is lost if and only if no two of the keys share a hash
  (`MapCollisions.SafeKeysIff`).
- `deleteElement` means to clear a slot whose next element is in another bucket. Its test compares the element's bucket
  with itself, so the slot keeps leading into a later bucket; `SlotIndex.GiveUpSlot` shows that lookups stay right.
- `NewSized(0)` dereferences a nil store, so the constructor of the model starts at size one.
- A printed string followed by a quote character is read back wrongly in exactly the cases of `TomlStrings.QuoteIntrudes`.
- `InsertBefore` is documented to append when the reference node is no child; it takes the node out of its list and leaves
  it there (`ChildLinks.InsertedLists`). A child replaced by itself is lost (`ChildLinks.ReplacedByItself`), and
  `InsertAfter` loses a node that is already in place (`ChildLinks.InsertedAfterIff`, `ChildLinks.SecondBehindFirst`).
- `SortChildren` sorts, but elements that compare equal come out in reverse order (`ChildOrder.EqualsAreReversed`).
- A registered literal route is not found exactly when a star or a parameter branches off on its way
  (`RoutePaths.LiteralFoundIff`, `RoutePaths.ParameterHidesLiteral`): the walk does not go back. A parameter takes the
  slash behind it along, so `/a/:x` and `/a/:x/` are one route; a slash at the end makes no other route if and only if
  a parameter or a star takes it along (`RoutePaths.SlashAtEndIff`).
- The trie takes a colon or a star inside a literal segment for a parameter and `Param` does not
  (`RouteParams.ColonInsideSegment`). For a route with distinct names the two agree on every request if and only if, up
  to the first star, each segment begins with a colon or a star or has neither in it (`RouteParams.ParamAgreesIff`).
- The SCRAM client does not escape the identity it asks for. A server reads that identity if and only if it has no comma
  and no equals sign in it (`ScramServer.IdentityReadIff`).
- The attribute loop of the SCRAM client ends if and only if the last field is well formed or some field is refused
  (`ScramFields.LoopEndsIff`); a comma at the end of a challenge makes it loop (`ScramFields.CommaAtEndLoops`).
- A time of precision p reads back as itself if and only if its nanoseconds have no digit beyond p; a date reads back as
  its clamped form if and only if its year has four digits (`LocalTimes.TimeRoundTripIff`, `LocalTimes.DateRoundTripIff`).
- `readError` ends at a zero byte and does not look at the length of the message. An error message is read up to its
  end, whatever follows, if and only if its body is made of fields and a zero byte (`QueryReplies.ErrorExact`); with an
  empty body the reader eats into the next message (`QueryReplies.EmptyErrorLosesStep`).
- A command tag makes the reader panic if and only if it is not empty and ends in a space
  (`QueryReplies.TagPanicsIff`, `QueryReplies.SpaceAtEndPanics`).
- Of all frames, exactly those of `QueryReplies.Handled` are read up to their end whatever follows
  (`QueryReplies.HandledIff`).

## Model

| member | source | states |
|---|---|---|
| `MapProof.StepKeeps` | pkg/hashmap/hashmap.go:131-193 | every atomic step of any Insert, Set, lookup or resize keeps the invariant: a list strictly sorted by hash that loses nothing, slots that never lead past what they index, an owner for every element that is not indexed yet (a Set that starts over after a resize included), a counter that is right up to pending increments |
| `MapProof.LooseStepKeeps` | pkg/hashmap/hashmap.go:131-163 | the same for Inserts and resizes when keys share hashes: the list is sorted, of each hash at most one element is the last, and every element is indexed or will be |
| `MapTheorems.QuietMapIsExact` | pkg/hashmap/hashmap.go:269-321 | after any interleaving of Inserts, Sets, lookups and resizes, once all have finished each slot of the published index holds the smallest hash of its bucket, the counter is the number of elements, and Get finds exactly the keys that were there or that Insert or Set was called for |
| `MapTheorems.ExactlyOneInsertTrue` | pkg/hashmap/hashmap.go:127-163 | of all concurrent Inserts of a key that was not there and that no Set is called for, exactly one returns true |
| `MapTheorems.NoTwoInsertsTrue` | pkg/hashmap/hashmap.go:127-163 | at no moment of any run, Sets running or not, have two Inserts of one key returned true, nor one of a key already present |
| `MapTheorems.NoElementLost` | pkg/hashmap/list.go:114-127 | an element that was ever linked is reached from the head at every later moment |
| `MapTheorems.FailedSwapMeansProgress` | pkg/hashmap/list.go:114-127 | a linking swap fails only because another call has linked an element into the same gap |
| `MapTheorems.VisibleForever` | pkg/hashmap/hashmap.go:269-306 | a key that lookups can see stays visible at every later moment, while an index is replaced too |
| `MapTheorems.ConcurrentGet` | pkg/hashmap/hashmap.go:47-60 | a Get that loaded an index in which its key was visible finds it whatever runs beside it, and finds only keys in the list |
| `MapTheorems.GetIsList` | pkg/hashmap/hashmap.go:47-60 | run alone, Get finds every indexed key, and what it finds is an element of the key in the list |
| `MapTheorems.QuietIndex` | pkg/hashmap/hashmap.go:308-321 | with no call and no resize under way, the index is exact and Get decides membership |
| `MapTheorems.RunKeeps` | pkg/hashmap/hashmap.go:131-163 | the invariant holds after every run |
| `MapValues.QuietValues` | pkg/hashmap/list.go:47-61 | after any interleaving, once all have finished, Get returns for each key the value of one of its Sets if a Set was called for it; or else what the key held before; or else the value of the Insert that returned true |
| `MapValues.StepValues` | pkg/hashmap/hashmap.go:168-191 | every step keeps that an element holds the value of a Set of its key, or none has stored yet and it holds what it held before or was linked with |
| `MapValues.GetReturnsGiven` | pkg/hashmap/hashmap.go:47-60 | whatever runs beside it, a Get that finds its key returns a value that the key held before or that an Insert or Set of the key was called with |
| `MapCollisions.AllFoundIff` | pkg/hashmap/store.go:24-45 | for any calls of Insert on an empty map and any width: every complete run that ends with an index of this width, resizes included, finds all keys, if and only if no two keys share the smallest hash of a bucket |
| `MapCollisions.NoLeadNoLoss` | pkg/hashmap/hashmap.go:47-60 | the if of it, run by run: without such a collision at the width in the end, Get finds the key of every call |
| `MapCollisions.SafeKeysIff` | pkg/hashmap/store.go:24-45 | for any width and any set of keys: no calls of Insert for some of the keys lose one in any complete run, if and only if no two of the keys share a hash |
| `MapCollisions.SmallerHashSaves` | pkg/hashmap/store.go:37-43 | keys of hashes 2, 3 and 3 have no such collision at any even width |
| `MapCollisions.FilledByCalls` | pkg/hashmap/hashmap.go:243-247 | at every moment each filled slot is the bucket of one of the calls, so that twice as many slots as keys are never more than half filled |
| `MapCollisions.CollisionLoses` | pkg/hashmap/hashmap.go:131-163 | for any width and any number of calls: if two keys share the smallest hash of a bucket, a run without a resize in which all calls return and one of the two is not found |
| `MapCollisions.Finishes` | pkg/hashmap/list.go:78-127 | a call of another key that has no smaller hash in the bucket, running alone, returns and leaves the key lost |
| `MapCollisions.FirstKeyLost` | pkg/hashmap/store.go:37-43 | after the run of two colliding inserts, at any width, the slot leads to the second key, and at and behind it the first is not |
| `PowerOfTwo.RoundUpPower2` | pkg/hashmap/util.go:13-23 | on every word: for 1..2^63 a power of two not below the input, below twice the input, with none smaller; zero for zero and beyond 2^63 |
| `PowerOfTwo.RoundUpIsLeast` | pkg/hashmap/util.go:13-23 | the same of the word computed by smearing the top bit |
| `PowerOfTwo.Log2` | pkg/hashmap/util.go:26-32 | the exponent rounded up, exact for powers of two, without overflow of the doubling |
| `PowerOfTwo.SlotInRange` | pkg/hashmap/store.go:16-21 | shifting any hash gives an index inside the array of slots |
| `PowerOfTwo.SlotMonotone` | pkg/hashmap/store.go:16-21 | slots follow the order of hashes |
| `SortedList.List.Next` | pkg/hashmap/list_element.go:30-47 | the next unmarked element; exactly marked elements may leave the list on the way, and the order is kept |
| `SortedList.List.SearchFrom` | pkg/hashmap/list.go:93-111 | from any element not past the key: its element if it has one, else the gap where its hash belongs |
| `SortedList.List.Search` | pkg/hashmap/list.go:78-112 | the element of the key, or else the gap where it belongs, from a slot or from the head |
| `SortedList.List.InsertAt` | pkg/hashmap/list.go:114-127 | the element is linked into the gap behind all of its hash, the list stays sorted, the count goes up |
| `SortedList.List.Add` | pkg/hashmap/list.go:32-44 | the existing element of the key, or a new one; nothing else is added and only marked elements leave |
| `SortedList.List.AddOrUpdate` | pkg/hashmap/list.go:47-60 | the element of the key, old or new, holds the value, and all other values are as before |
| `SortedList.List.Delete` | pkg/hashmap/list.go:63-76 | exactly the key of the element leaves the map; its own link still leads to the first element behind it, for an iteration to go on |
| `SlotIndex.Store.Item` | pkg/hashmap/store.go:16-21 | the access is in range and gives the slot of the hash |
| `SlotIndex.Store.AddItem` | pkg/hashmap/store.go:24-45 | the slot keeps the smaller hash, other slots are untouched, and slots taken into use are counted |
| `SlotIndex.PlaceNew` | pkg/hashmap/store.go:24-45 | indexing a new element that stands behind its equals keeps every element covered by its slot, colliding hashes included |
| `SlotIndex.PlaceAgain` | pkg/hashmap/store.go:24-45 | indexing an element again changes nothing |
| `SlotIndex.PlaceNext` | pkg/hashmap/hashmap.go:308-321 | filling an index in list order covers one more element with each turn |
| `SlotIndex.SlotLeadsTo` | pkg/hashmap/hashmap.go:47-60 | the content of a slot is a safe place to start a search: everything before it has a smaller hash |
| `SlotIndex.GiveUpSlot` | pkg/hashmap/hashmap.go:250-267 | moving a slot on to the next element, of whatever bucket, keeps all other elements covered |
| `SequentialMap.Map.constructor` | pkg/hashmap/hashmap.go:29-34 | an empty map with less than twice as many slots as asked for |
| `SequentialMap.Map.Get` | pkg/hashmap/hashmap.go:47-60 | the value that the finite map has for the key, and none if it has none; the finite map is unchanged |
| `SequentialMap.Map.Insert` | pkg/hashmap/hashmap.go:131-163 | true just when the key was absent, and then the key has the value; otherwise nothing changes; the index is as before or a new one no larger than the counters call for |
| `SequentialMap.Map.GetOrInsert` | pkg/hashmap/hashmap.go:65-97 | the old value and true for a present key, else the key gets the value |
| `SequentialMap.Map.Set` | pkg/hashmap/hashmap.go:168-191 | the key has the value and no other key changes |
| `SequentialMap.Map.Del` | pkg/hashmap/hashmap.go:108-125 | the key is gone, no other is, and the result tells whether it was there |
| `SequentialMap.Map.DeleteElement` | pkg/hashmap/hashmap.go:250-267 | the index serves all elements but the one given up |
| `SequentialMap.Map.Len` | pkg/hashmap/hashmap.go:42-44 | the number of keys of the finite map |
| `SequentialMap.Map.Range` | pkg/hashmap/hashmap.go:224-234 | with a callback that may delete the key it is shown: no key twice, hashes in order, values right, every key shown unless the callback stopped it, and afterwards exactly the deleted keys are gone |
| `SequentialMap.Map.FillIndexItems` | pkg/hashmap/hashmap.go:308-321 | afterwards the new index serves every element |
| `SequentialMap.Map.Grow` | pkg/hashmap/hashmap.go:269-306 | the loop ends, with the finite map unchanged, an index of at least the wanted size, bounded by it and by the number of elements, and a fill rate of at most 50 |
| `MapHistory.Perform` | pkg/hashmap/hashmap.go:42-234 | any one call answers as a plain map does, leaves what the plain map is left with, and keeps counters and index within what the number of calls allows |
| `MapHistory.RunAll` | pkg/hashmap/hashmap.go:29-234 | for a new map and every sequence of Get, Insert, GetOrInsert, Set, Del, Len, Grow and Range calls whose index fits a word: every reply is that of a plain finite map, folded over the calls, and the map holds that fold in the end |
| `TomlDecoder.FindInvalid` | utoml/internal/characters/utf8.go:35-106 | the fast form, eight ASCII bytes at a time, gives the place and size of the first rune that is not valid, and size zero exactly for texts that are valid rune by rune |
| `TomlScanner.ScanWhitespace` | utoml/unstable/scanner.go:141-152 | leaves what follows the longest run of blanks and tabs |
| `TomlScanner.ScanUnquotedKey` | utoml/unstable/scanner.go:35-44 | splits the text behind the longest run of key characters |
| `TomlScanner.ScanLiteralString` | utoml/unstable/scanner.go:50-69 | the token up to the closing apostrophe, or an error, as the grammar has it |
| `TomlScanner.ScanMultilineLiteralString` | utoml/unstable/scanner.go:71-126 | the token up to three to five closing apostrophes, or an error |
| `TomlScanner.ScanComment` | utoml/unstable/scanner.go:154-180 | what follows the comment, which ends before its newline |
| `TomlScanner.ScanBasicString` | utoml/unstable/scanner.go:182-207 | the token up to the closing quote, and whether a backslash is in it |
| `TomlScanner.ScanMultilineBasicString` | utoml/unstable/scanner.go:209-270 | the token up to three to five closing quotes, and whether a backslash is in it |
| `TomlDecoder.DecodeRune` | utoml/unstable/parser.go:967-994 | the code of the hexadecimal digits, without wrap-around of the 32-bit accumulator, at most U+10FFFF |
| `TomlDecoder.ParseBasicString` | utoml/unstable/parser.go:872-965 | both paths, with and without escapes, decode the token as the grammar says |
| `TomlDecoder.ParseMultilineBasicString` | utoml/unstable/parser.go:676-805 | both paths decode the token, with the leading newline and line continuations skipped |
| `TomlDecoder.FindLineEnd` | utoml/unstable/parser.go:727-742 | a backslash continues a line just when only blanks stand before the newline |
| `TomlDecoder.ParseMultilineLiteralString` | utoml/unstable/parser.go:657-673 | the bytes between the quotes without a leading newline |
| `TomlDecoder.ScanIntOrFloat` | utoml/unstable/parser.go:1122-1212 | the kind and extent of a number token, or an error, as the grammar has it |
| `TomlDecoder.ScanDate` | utoml/unstable/parser.go:1056-1119 | the kind and extent of a date or time token |
| `TomlDecoder.ScanScalarValue` | utoml/unstable/parser.go:1006-1054 | the choice between special floats, dates, times and numbers |
| `TomlStrings.BasicEndEscaped` | utoml/unstable/scanner.go:182-207 | whatever follows it, an escaped text is scanned as exactly one token |
| `TomlStrings.MultilineEndEscaped` | utoml/unstable/scanner.go:209-270 | the same for multiline text that no quote follows |
| `TomlStrings.DecodeEscaped` | utoml/unstable/parser.go:872-965 | the escape path decodes every escaped valid UTF-8 text to that text |
| `TomlStrings.DecodeMultilineEscaped` | utoml/unstable/parser.go:676-805 | the same for the multiline form |
| `TomlStrings.UnescapedIsPlain` | utoml/unstable/parser.go:872-905 | text that was written without any escape is itself valid, so that the fast path returns it |
| `TomlStrings.BasicRoundTrip` | utoml/marshaler.go:476-533 | a valid UTF-8 string, quoted and parsed, is itself, with exactly the following text left |
| `TomlStrings.MultilineRoundTrip` | utoml/marshaler.go:476-533 | the same for the multiline form, if no quote follows |
| `TomlStrings.StringRoundTrip` | utoml/unstable/parser.go:355-384 | through the string case of a value, in both forms, the round trip holds if and only if no quote follows that would be taken for part of the string |
| `TomlRoundTrip.IntRoundTrip` | utoml/unstable/parser.go:1006-1054 | a printed integer before a separator is one Integer token, never taken for a date or a float |
| `TomlRoundTrip.SimpleKeyRoundTrip` | utoml/marshaler.go:568-582 | a printed key, bare, quoted or empty, is read back up to any byte that cannot continue it |
| `TomlRoundTrip.KeyRoundTrip` | utoml/unstable/parser.go:807-848 | a printed key is read back as a key of one part, up to the equals sign |
| `TomlRoundTrip.ValueRoundTrip` | utoml/unstable/parser.go:355-607 | any nested value of strings, integers, booleans, arrays and inline tables, printed with any settings and indentation, parses to its tree and leaves exactly the text that followed, if that starts with a separator |
| `TomlRoundTrip.ListRoundTrip` | utoml/marshaler.go:1027-1078 | the same for arrays, on one line or several |
| `TomlRoundTrip.TableRoundTrip` | utoml/marshaler.go:875-907 | the same for inline tables |
| `TomlRoundTrip.PairRoundTrip` | utoml/marshaler.go:387-415 | the same for a key with its value |
| `TomlTables.HeaderRoundTrip` | utoml/marshaler.go:540-565 | a header of either kind with a dotted key of any parts is read back |
| `TomlTables.BlockRowsMean` | utoml/marshaler.go:806-873 | the printed lines of a table say, in order, its header, its pairs and its subtables under their full keys, whatever the indentation and the empty lines between them |
| `TomlTables.DocumentRoundTrip` | utoml/unstable/parser.go:99-132 | a printed document with nested tables and arrays of tables parses without error to exactly its pairs and headers in order |
| `TomlTables.BlockDetermined` | utoml/marshaler.go:980-1025 | pairs and headers determine the nested tables they came from, whatever follows |
| `TomlTables.SameTextSameDocument` | utoml/marshaler.go:806-873 | printing loses nothing: two documents that print as the same text, even with different settings, are equal up to the multiline options |
| `TomlNumbers.RemoveUnderscores` | utoml/decode.go:413-460 | accepted exactly when every underscore stands between two other bytes, and then nothing but underscores is removed |
| `TomlNumbers.ParseInteger` | utoml/decode.go:12-27 | value and errors of an integer token in all four bases, within 64 bits |
| `TomlNumbers.DecimalParses` | utoml/decode.go:389-411 | every 64-bit integer, printed in decimal, parses to itself |
| `TomlNumbers.TreeDetermines` | utoml/marshaler.go:251-372 | values with the same syntax tree are equal up to the multiline options |
| `TomlNodes.TreeShown` | utoml/unstable/ast.go:82-101 | the node layout of a tree, read by relative offsets at any place of an array, shows that tree |
| `TomlNodes.PairShown` | utoml/unstable/ast.go:111-124 | the value is the first child of a pair and the key parts are the siblings behind it |
| `TomlNodes.ExpressionShown` | utoml/unstable/builder.go:49-71 | the node array of an expression shows the expression at its root, all offsets in range |
| `TomlNodes.OneTree` | utoml/unstable/ast.go:82-101 | an array shows at most one tree at a place |
| `TomlNodes.OneExpression` | utoml/unstable/ast.go:82-124 | an array shows at most one expression at a place |
| `TomlNodes.Iterator.Next` | utoml/unstable/ast.go:28-35 | the first call stays, later calls move on, and the result tells whether there is a node |
| `TomlNodes.Visit` | utoml/unstable/ast.go:28-35 | an iterator visits exactly the chain of siblings and stops |
| `TomlNodes.Children` | utoml/unstable/ast.go:134-136 | the elements of an array or the pairs of a table, each once and in the order of the source |
| `TomlNodes.Key` | utoml/unstable/ast.go:111-124 | the key parts of any expression in the order of the source |
| `TomlParser.Builder.Reset` | utoml/unstable/builder.go:44-47 | no nodes |
| `TomlParser.Builder.Push` | utoml/unstable/builder.go:49-53 | the node is last and its index is returned |
| `TomlParser.Builder.PushAndChain` | utoml/unstable/builder.go:55-63 | the node pushed before points at the new one |
| `TomlParser.Builder.AttachChild` | utoml/unstable/builder.go:65-67 | only the child offset of the parent changes |
| `TomlParser.Builder.Chain` | utoml/unstable/builder.go:69-71 | only the next offset of one node changes |
| `TomlParser.ParseNewline` | utoml/unstable/parser.go:183-194 | one newline of either kind is taken, anything else is an error |
| `TomlParser.SkipBetween` | utoml/unstable/parser.go:609-655 | blanks, comments and newlines are passed, or an error found, as the grammar has it |
| `TomlParser.ParseSimpleKeyToken` | utoml/unstable/parser.go:850-869 | one key part in any of its three forms |
| `TomlParser.Parser.ParseDottedKey` | utoml/unstable/parser.go:807-848 | the key parts of the grammar, appended as a chain of key nodes |
| `TomlParser.Parser.ParseValue` | utoml/unstable/parser.go:355-432 | reads what the grammar reads, appends exactly the layout of its tree, and fails just when the grammar does |
| `TomlParser.Parser.ParseArray` | utoml/unstable/parser.go:513-607 | the same for an array, each element chained behind the one before |
| `TomlParser.Parser.AddChild` | utoml/unstable/parser.go:534-541 | a block just pushed becomes the last child of its parent |
| `TomlParser.Parser.ParseInlineTable` | utoml/unstable/parser.go:451-510 | the same for an inline table |
| `TomlParser.Parser.ParseKeyval` | utoml/unstable/parser.go:317-352 | the same for a pair, whose value is linked back to the key parts before it |
| `TomlParser.Parser.ParseTable` | utoml/unstable/parser.go:254-315 | the same for headers of both kinds |
| `TomlParser.Parser.ParseExpression` | utoml/unstable/parser.go:209-252 | at most one expression of a line; a line without one leaves no node |
| `TomlParser.Parser.Next` | utoml/unstable/parser.go:99-132 | the next expression with its node array, past lines without one; false at the end or on an error, which is then kept |
| `TomlParser.ReadDocument` | utoml/unstable/parser.go:38-62 | calling NextExpression until it says no yields the node arrays of all expressions of the document, or its error |
| `TomlSoundness.ValueSound` | utoml/unstable/parser.go:355-432 | on every byte string a parsed value has a suffix of the input left, keys with parts, and integers that parseInteger accepts without panicking |
| `TomlSoundness.ElementsSound` | utoml/unstable/parser.go:513-607 | the same for the elements of an array |
| `TomlSoundness.PairSound` | utoml/unstable/parser.go:317-352 | the same for a pair |
| `TomlSoundness.HeaderSound` | utoml/unstable/parser.go:254-315 | a parsed header has key parts and leaves a suffix of the input |
| `TomlSoundness.LineSound` | utoml/unstable/parser.go:209-252 | a parsed line leaves a suffix of the input, and its expression is well formed |
| `TomlSoundness.LinesSuffix` | utoml/unstable/parser.go:609-655 | skipping lines leaves a suffix of the input |
| `TomlSoundness.NumberIsSafe` | utoml/unstable/parser.go:1122-1212 | no Integer token makes parseInteger panic |
| `TomlSoundness.ScalarIsSafe` | utoml/decode.go:12-27 | the same through the choice between dates and numbers |
| `TomlSoundness.ExpressionSound` | utoml/unstable/parser.go:99-132 | every expression of every document is well formed, and what is left is a suffix of the document |
| `TomlSoundness.AcceptedIsShown` | utoml/unstable/parser.go:99-132 | the node array of every expression the parser accepts shows that expression and no other |
| `TomlFormat.StringAsIs` | utoml/marshaler.go:476-533 | a string stands between its quotes as it is if and only if it has no quote, backslash or control byte |
| `TomlFormat.KeyAsIs` | utoml/marshaler.go:536-587 | a key stands without quotes if and only if it is not empty and has only letters, digits, dashes and underscores |
| `TomlFormat.ArrayLines` | utoml/marshaler.go:1027-1078 | an array of several lines has one element per line, a level deeper than its brackets; any other has its elements on one line |
| `TomlFormat.InlineTableLine` | utoml/marshaler.go:874-906 | an inline table has its pairs between braces, separated by commas |
| `TomlFormat.BreaksIff` | utoml/marshaler.go:65-75 | a value takes more than one line if and only if it holds a string marked as multiline, or a non-empty array that is marked so or that the encoder breaks |
| `TomlFormat.DocumentLaid` | utoml/marshaler.go:806-870 | in every document the pairs of a table follow its header, each row is indented by its depth or not at all as set, and an empty line stands before a header unless the header of its own table is right above |
| `TomlLiterals.LiteralIff` | utoml/unstable/parser.go:442-449 | a literal string is read as a text if and only if that valid text, without quote and newline, stands between its quotes |
| `TomlLiterals.LiteralKey` | utoml/unstable/parser.go:850-870 | the same as a key |
| `TomlLiterals.LiteralValue` | utoml/unstable/parser.go:355-432 | the same as a value |
| `TomlLiterals.LinesValue` | utoml/unstable/parser.go:657-674 | a literal string of several lines is read as the text between its quotes, one or two quotes at its end included, without a newline at its beginning |
| `TomlEscapes.RuneIsCode` | utoml/unstable/parser.go:967-994 | every code point is written as the one valid rune that stands for it by RFC 3629 |
| `TomlEscapes.ValidIsCode` | utoml/internal/characters/utf8.go:108-141 | every rune that counts as valid stands for a Unicode scalar value, and is the way to write it |
| `TomlEscapes.FaultIs` | utoml/internal/characters/utf8.go:35-106 | an invalid rune is reported up to the first byte that no rune can have there, or to the end of the text if it is cut off |
| `TomlEscapes.BasicValue` | utoml/unstable/parser.go:872-965 | a basic string of any runes, one-letter escapes and code points is read as what they mean |
| `TomlEscapes.BasicKey` | utoml/unstable/parser.go:850-870 | the same as a key |
| `TomlEscapes.LinesValue` | utoml/unstable/parser.go:676-805 | a basic string of several lines, with newlines, single quotes and folded lines, is read as what its pieces mean |
| `TomlLayouts.KeyReads` | utoml/unstable/parser.go:807-848 | a dotted key with blanks around its dots is read as its names |
| `TomlLayouts.LaidReads` | utoml/unstable/parser.go:355-607 | a value is read as its tree in every layout: any blanks, newlines and comments between elements, trailing commas, blanks in inline tables |
| `TomlLayouts.LineReads` | utoml/unstable/parser.go:209-252 | a line with any blanks, a header of either kind or a pair, and a comment is read as its expression, up to its end |
| `TomlLayouts.DocumentReads` | utoml/unstable/parser.go:99-132 | a document in any layout is read as its expressions in order |
| `TomlTokens.BytesAre` | utoml/unstable/parser.go:1214-1233 | which bytes are blanks, digits of each base and bytes of bare keys |
| `TomlTokens.AsciiAllowed` | utoml/internal/characters/ascii.go:3-42 | the ASCII bytes that text may have are the printable ones, tab, newline and carriage return |
| `TomlTokens.NumberToken` | utoml/unstable/parser.go:1122-1212 | a decimal number is one Integer or Float token, by whether it has a point or an exponent |
| `TomlTokens.RadixToken` | utoml/unstable/parser.go:1122-1212 | a number in base 16, 8 or 2 is one Integer token |
| `TomlTokens.SpecialToken` | utoml/unstable/parser.go:1006-1054 | infinities and not-a-numbers with any sign are Float tokens |
| `TomlTokens.MomentToken` | utoml/unstable/parser.go:1056-1120 | dates, times, both with T, t or a blank between them, and both with an offset are tokens of the four kinds |
| `TomlTokens.BoolToken` | utoml/unstable/parser.go:355-432 | true and false are Bool tokens |
| `TomlTokens.LiteralToken` | utoml/unstable/parser.go:442-449 | literal strings are String tokens in every layout |
| `TomlTokens.BasicToken` | utoml/unstable/parser.go:872-965 | basic strings too |
| `TomlTokens.LiteralLinesToken` | utoml/unstable/parser.go:657-674 | literal strings of several lines too |
| `TomlTokens.BasicLinesToken` | utoml/unstable/parser.go:676-805 | and basic strings of several lines |
| `TomlTokens.BarePart` | utoml/unstable/scanner.go:35-48 | a bare key is a part of a key in every layout |
| `TomlTokens.QuotedPart` | utoml/unstable/parser.go:850-870 | quoted keys of both kinds too |
| `TomlTokens.RadixValue` | utoml/decode.go:343-383 | digits of base 16, 8 or 2 with underscores between them are their number, and refused beyond 64 bits |
| `TomlTokens.DecimalValue` | utoml/decode.go:389-411 | decimal digits with a sign or without are their number, and refused beyond 64 bits |
| `TomlEncoder.EncodeQuotedString` | utoml/marshaler.go:476-533 | appends the quoted form byte by byte |
| `TomlEncoder.EncodeKey` | utoml/marshaler.go:568-582 | appends the key bare, quoted or as an empty literal |
| `TomlEncoder.Encode` | utoml/marshaler.go:251-372 | appends the printed value |
| `TomlEncoder.EncodeArray` | utoml/marshaler.go:1027-1078 | appends the printed array, with separators and indentation |
| `TomlEncoder.EncodePair` | utoml/marshaler.go:387-415 | appends key, equals sign and value |
| `TomlEncoder.EncodeInlineTable` | utoml/marshaler.go:875-907 | appends the printed inline table |
| `TomlEncoder.EncodeTableHeader` | utoml/marshaler.go:540-565 | appends the header line, and nothing at the root |
| `TomlEncoder.EncodeTable` | utoml/marshaler.go:806-873 | appends the lines of a table with its subtables |
| `TomlEncoder.EncodeArrayTable` | utoml/marshaler.go:980-1025 | appends the lines of an array of tables, with a header before each element |
| `TomlEncoder.EncodeDocument` | utoml/marshaler.go:169-192 | the printed document |
| `Emphasis.Nearest` | pkg/goldmark/parser/delimiter.go:187-196 | the last delimiter before the closer that may open it, and none behind it may |
| `Emphasis.StepProgress` | pkg/goldmark/parser/delimiter.go:178-235 | every round keeps lengths positive and uses up characters or moves the closer on, so the loop ends |
| `Emphasis.RunKeeps` | pkg/goldmark/parser/delimiter.go:156-237 | a run keeps the list to distinct delimiters with characters left |
| `EmphasisLaws.MatchUnfolds` | pkg/goldmark/parser/delimiter.go:205-234 | one match keeps every character and leaf of the source in place |
| `EmphasisLaws.ProcessKeepsSource` | pkg/goldmark/parser/delimiter.go:156-237 | the resulting tree, read back, is the source: every delimiter character and every leaf, in order, none lost or doubled |
| `EmphasisLaws.ProcessConserves` | pkg/goldmark/parser/delimiter.go:79-94 | original lengths are what is left as text plus twice the emitted levels, leaves keep their order, and every node is a legal pair |
| `EmphasisLaws.ProcessSound` | pkg/goldmark/parser/delimiter.go:205-228 | every node of the result pairs an opener and a closer of one symbol that rules 9 and 10 of section 6.2 of CommonMark 0.30 let pair, written out over their lengths, has level one or two, and holds no delimiter of the list |
| `EmphasisLaws.NothingLeftToMatch` | pkg/goldmark/parser/delimiter.go:176-236 | when the main loop ends, no delimiter of the list may by those rules be paired with a later one |
| `EmphasisLaws.NoPairLeftAnywhere` | pkg/goldmark/parser/delimiter.go:176-236 | in the result, at every level of the tree, no delimiter left as text may be paired with a later one beside it |
| `EmphasisLaws.RulesAre` | pkg/goldmark/parser/delimiter.go:86-89 | the test on lengths in CalcComsumption is rules 9 and 10 |
| `EmphasisLaws.FewestNestings` | pkg/goldmark/parser/delimiter.go:86-94 | no two nodes of level one come from the same pair of delimiters, as rule 13 of section 6.2 of CommonMark 0.30 has it for one pair |
| `EmphasisContext.Context.RemoveDelimiter` | pkg/goldmark/parser/parser.go:310-335 | the delimiter leaves the list and its remaining characters stay as text |
| `EmphasisContext.Context.FindOpener` | pkg/goldmark/parser/delimiter.go:183-196 | the backward search finds the nearest opener, or whether there was a candidate at all |
| `EmphasisContext.Context.Wrap` | pkg/goldmark/parser/delimiter.go:208-217 | exactly the siblings between opener and closer become the children of the new node |
| `EmphasisContext.Context.MatchPair` | pkg/goldmark/parser/delimiter.go:205-234 | siblings, list and lengths after a match |
| `EmphasisContext.Context.ClearDelimiters` | pkg/goldmark/parser/parser.go:337-349 | no delimiter is left and each has become its text |
| `EmphasisContext.Context.ProcessDelimiters` | pkg/goldmark/parser/delimiter.go:156-237 | the in-place algorithm ends and computes the function that the laws are about |
| `ConnHandshake.StepKeeps` | upg/base.go:139-181 | every step of any call keeps the pool, the pairing of caller and canceller, and the history of each call in order |
| `ConnHandshake.GivenBackOnce` | upg/base.go:125-137 | a call that has returned got no connection, or gave the one it got back exactly once |
| `ConnHandshake.ReleasedByOutcome` | upg/base.go:125-187 | what a returned call did to its connection, by the actions of the run: without a signal from the canceller a usable connection is put back, a bad one is cancelled and removed, one of an aborted transaction is removed; with a signal, and after a failed initialisation, it is removed |
| `ConnHandshake.PoolIsHistory` | upg/base.go:125-137 | what is idle and what is removed is exactly what the calls have taken, put back and removed |
| `ConnHandshake.RunsOnInitialised` | upg/base.go:74-123 | a function runs only on an initialised connection, none is initialised twice, and a request is cancelled from beside the function only when its context has ended |
| `ConnHandshake.Returns` | upg/base.go:139-187 | any call gets any idle or new connection and can return, however its function ends |
| `ConnHandshake.IsCancelled` | upg/base.go:147-176 | a call whose context ends can be cancelled, however its function ends |
| `ConnHandshake.CancelledIsRemoved` | upg/base.go:148-176 | a connection whose request was cancelled is never put back, and is removed only after the cancel request has returned |
| `ConnHandshake.CancelMeetsOwnConnection` | upg/base.go:148-176 | while a cancel request runs, its connection is neither in the pool nor with another call |
| `ConnHandshake.AllReturned` | upg/base.go:74-97 | when all calls have returned, each connection ever made is idle or removed, never both and never neither |
| `ConnHandshake.Proceed` | upg/base.go:139-181 | an unfinished call or canceller always has a step of its own to take, whenever its context ends |
| `ConnHandshake.StuckMeansFinished` | upg/base.go:139-181 | no deadlock and no goroutine left behind |
| `ConnHandshake.RunsEnd` | upg/base.go:139-181 | no run is longer than the steps its calls have left |
| `ConnHandshake.RunsAreShort` | upg/base.go:139-181 | thirteen steps for each call at most |
| `ChildOrder.SortPermutes` | pkg/goldmark/ast/ast.go:254-284 | the sorted list is a permutation, for any comparator |
| `ChildOrder.SortOrders` | pkg/goldmark/ast/ast.go:254-284 | for a total preorder it is in order |
| `ChildOrder.EqualsAreReversed` | pkg/goldmark/ast/ast.go:259-265 | elements that compare equal come out in the opposite order |
| `ChildLinks.CutKeeps` | pkg/goldmark/ast/ast.go:217-237 | taking out a child keeps all parent, sibling and end links of the forest coherent |
| `ChildLinks.PutKeeps` | pkg/goldmark/ast/ast.go:312-326 | putting a node in at any place does |
| `ChildLinks.OrderKeeps` | pkg/goldmark/ast/ast.go:254-284 | linking the same children in a new order does |
| `ChildLinks.ClearKeeps` | pkg/goldmark/ast/ast.go:240-251 | freeing all children does |
| `ChildLinks.IsolateLists` | pkg/goldmark/ast/ast.go:185-189 | an isolated node is in no list, and no other node changes its parent |
| `ChildLinks.InsertedLists` | pkg/goldmark/ast/ast.go:340-361 | the node leaves its old list and stands before the given child, at the end, or in no list at all if that is no child |
| `ChildLinks.ReplacedLists` | pkg/goldmark/ast/ast.go:329-332 | the new node stands exactly where the old child stood; where the old node is no child of n the new one is only taken out of its list; other lists lose at most the new node, and no other parent changes |
| `ChildLinks.ReplacedByItself` | pkg/goldmark/ast/ast.go:329-332 | a child replaced by itself is lost |
| `ChildLinks.InsertedAfterIff` | pkg/goldmark/ast/ast.go:335-337 | the node comes to stand behind the given child if and only if it was not there already |
| `ChildLinks.SecondBehindFirst` | pkg/goldmark/ast/ast.go:335-337 | a list of two children from which inserting the second behind the first takes the second out |
| `ChildList.Node.RemoveChild` | pkg/goldmark/ast/ast.go:217-237 | the link updates refine removal from a sequence, and do nothing to a node of another parent |
| `ChildList.Node.EnsureIsolated` | pkg/goldmark/ast/ast.go:185-189 | the node is in no list |
| `ChildList.Node.AppendChild` | pkg/goldmark/ast/ast.go:312-326 | the link updates refine appending to a sequence |
| `ChildList.Node.InsertBefore` | pkg/goldmark/ast/ast.go:340-361 | the link updates refine insertion into a sequence |
| `ChildList.Node.InsertAfter` | pkg/goldmark/ast/ast.go:335-337 | insertion before the next sibling |
| `ChildList.Node.ReplaceChild` | pkg/goldmark/ast/ast.go:329-332 | insertion, then removal of the old child |
| `ChildList.Node.RemoveChildren` | pkg/goldmark/ast/ast.go:240-251 | every child is free and no other link changes |
| `ChildList.Node.LastBelow` | pkg/goldmark/ast/ast.go:267-270 | the inner loop stops at the last node before the place of insertion |
| `ChildList.Node.InsertSorted` | pkg/goldmark/ast/ast.go:259-277 | one node is linked into its place of the sorted list |
| `ChildList.Node.SortChildren` | pkg/goldmark/ast/ast.go:254-284 | all first, last, next and previous links encode the sorted list, and no other node changes |
| `RoutePaths.LiteralFoundIff` | utree/tree.go:54-72 | a registered literal route is found under its own name if and only if no star or parameter branches off on its way |
| `RoutePaths.ParameterHidesLiteral` | utree/tree.go:54-72 | with /a and /:x registered, the path /a leads to the second |
| `RoutePaths.SlashAtEndIff` | utree/tree.go:32-52 | a slash at the end of a route gives the same tokens if and only if the route ends in a parameter or has a star |
| `RoutePaths.FoundMatches` | utree/tree.go:54-72 | what the walk finds is the end of a route that the path matches |
| `RoutePaths.FindExtends` | utree/tree.go:54-72 | a walk never leaves the route it has begun |
| `RoutePaths.FoundIff` | utree/tree.go:54-72 | the walk finds a way if and only if it takes the whole path, leads to some route, and passes by no star and no parameter that a route has there; so there is at most one |
| `RouteTree.Tree.constructor` | utree/tree.go:18-20 | no routes |
| `RouteTree.SlashReader` | utree/tree.go:24-29 | the next slash, or the end |
| `RouteTree.Tree.WalkTo` | utree/tree.go:35-48 | the node of the route's tokens, made with all nodes on its way and no others |
| `RouteTree.Tree.Set` | utree/tree.go:32-52 | exactly the route of the same tokens is added or replaced, every node still lies on the way to a route, and all new nodes are fresh |
| `RouteTree.Tree.Walk` | utree/tree.go:54-72 | star first, then parameter, then literal, without a way back |
| `RouteTree.Tree.Get` | utree/tree.go:75-82 | the route that the walk leads to, if it is registered, and nothing otherwise; where every node lies on the way to a route the walk is the search among the registered routes |
| `RouteTree.Register` | utree/tree.go:32-52 | after any sequence of Set calls on a new tree the routes are the registrations, later ones replacing earlier ones of the same tokens |
| `RouteTree.Route` | utree/tree.go:75-82 | after any sequence of Set calls Get answers what a search among the registrations finds, star first, then parameter, then literal, and nothing where that finds none |
| `RouteTree.Tree.Delete` | utree/tree.go:84-91 | exactly the route the path leads to is unregistered |
| `RouteTree.FindAgrees` | utree/tree.go:54-72 | the walk through the nodes is the search among the registered routes |
| `RouteTree.Tree.Dump` | utree/tree.go:113-132 | the entries of the listing that the next rows describe |
| `RouteTree.ListingIff` | utree/tree.go:113-132 | every registered route below the root is listed and nothing else |
| `RouteTree.ListingAscends` | utree/tree.go:113-132 | routes are listed in the byte order of their tokens |
| `RouteTree.AscendingOnce` | utree/tree.go:113-132 | a listing in that order has no route twice |
| `RouteParams.Params` | uweb/context.go:155-172 | the loop fills the map with the pairs of segments, later ones replacing earlier ones |
| `RouteParams.Context.Param` | uweb/context.go:150-175 | every call, the first or a later one, gives the name what the pairing of segments last binds to it |
| `RouteParams.JoinSplit` | uweb/context.go:156-169 | joining what was split at slashes gives the path back |
| `RouteParams.PairsAreBindings` | uweb/context.go:163-172 | on a clean route that the path matches, pairing segments gives, name by name, what the walk consumed at each parameter |
| `RouteParams.FilledIsPath` | uweb/context.go:163-172 | the bytes bound at the parameters, put into the route, give the path back, but for a slash at the end |
| `RouteParams.CleanAgrees` | uweb/context.go:150-175 | for a clean route that the walk found among any routes, names repeated or not, each parameter is bound to exactly the bytes the walk took there, the whole rest for a star |
| `RouteParams.ParamAgreesIff` | uweb/context.go:150-175 | for a route with distinct names, Param and the walk agree on every path that leads to it, whatever else is registered, if and only if up to the first star each segment begins with a colon or a star or has neither in it |
| `RouteParams.ColonInsideSegment` | uweb/context.go:163-172 | a route and a path for which the two disagree |
| `ScramFields.EscapeRoundTrip` | pkg/sasl/scram.go:71-89 | every user name is recovered from its escaped form, which has no comma |
| `ScramFields.EscapeUser` | pkg/sasl/scram.go:71-89 | the single pass fills a buffer of the right size with the escaped name |
| `ScramFields.LoopEndsIff` | pkg/sasl/scram.go:121-156 | the attribute loop ends if and only if its last field is well formed or some field is refused |
| `ScramFields.CommaAtEndLoops` | pkg/sasl/scram.go:121-156 | a challenge that ends in a comma, which the loop never leaves |
| `ScramFields.RoundsScan` | pkg/sasl/scram.go:121-156 | one round for each field computes a fold over the fields between commas |
| `ScramFields.ReadAttributes` | pkg/sasl/scram.go:118-156 | the loop, where it ends, computes that fold |
| `ScramClient.NextKeeps` | pkg/sasl/negotiator.go:111-140 | every step keeps the messages, the cache and the step of the client in agreement |
| `ScramClient.SuccessMeansSigned` | pkg/sasl/scram.go:267-274 | in every run, success without error means that the server nonce extends the client nonce and that the last challenge is the server signature over exactly the messages exchanged |
| `ScramClient.SignedMeansSuccess` | pkg/sasl/scram.go:112-278 | after any acceptable first challenge the client succeeds on that signature and fails on anything else |
| `ScramServer.ServerAccepts` | pkg/sasl/scram.go:176-265 | after any challenge that the client accepts, a server with the user's stored key accepts the second message by the test of section 3 of RFC 5802, and its answer makes the client succeed |
| `ScramServer.LoginSucceeds` | pkg/sasl/scram.go:63-278 | a login from beginning to end against such a server succeeds, whatever nonce, salt and iteration count it sends |
| `ScramServer.HelloIsRead` | pkg/sasl/scram.go:71-94 | the server reads user, nonce and identity from the first message as the client meant them |
| `ScramServer.IdentityReadIff` | pkg/sasl/scram.go:55-60 | the identity is read as it is if and only if it has no comma and no equals sign |
| `ScramServer.ScannedIff` | pkg/sasl/scram.go:121-156 | a challenge is accepted if and only if its last field is an attribute and no field is the reserved one, a count that is no number or a salt that is no base64 |
| `ScramClient.Negotiator.constructor` | pkg/sasl/negotiator.go:44-60 | the initial state with the given nonce |
| `ScramClient.Negotiator.Reset` | pkg/sasl/negotiator.go:149-159 | the initial state again with a new nonce |
| `ScramClient.Negotiator.DoStep` | pkg/sasl/negotiator.go:111-140 | one step of the machine, with what is sent and whether more is to come |
| `QueryReplies.ErrorStops` | upg/messages.go:1349-1366 | the fields of an error end exactly at the end of its body |
| `QueryReplies.FrameConsumed` | upg/messages.go:667-792 | every frame a reader handles is consumed exactly |
| `QueryReplies.HandledIff` | upg/messages.go:667-792 | a frame is read up to its end, whatever follows it and whatever came before, if and only if the reader handles it |
| `QueryReplies.ErrorExact` | upg/messages.go:1349-1366 | an error message is read up to its end, whatever follows, if and only if its body is made of fields and a zero byte |
| `QueryReplies.EmptyErrorLosesStep` | upg/messages.go:1349-1366 | an error message without a body makes the reader lose step with the stream |
| `QueryReplies.TagPanicsIff` | upg/result.go:24-40 | a command tag within the buffer makes the reader panic if and only if it is not empty and ends in a space |
| `QueryReplies.SpaceAtEndPanics` | upg/result.go:24-40 | a stream on which the reader panics |
| `QueryReplies.Resynchronises` | upg/messages.go:667-792 | a stream of handled frames is read exactly through ReadyForQuery |
| `QueryReplies.MeaningsAre` | upg/messages.go:667-792 | the rows are the DataRow frames, and the error kept is the earliest |
| `QueryReplies.LastTagCounts` | upg/result.go:24-40 | of several command tags the last one gives the number of rows affected |
| `QueryReplies.TagNumber` | upg/result.go:24-40 | for every reply without an error: the rows affected are the number between the last space and the last byte of the last command tag, and -1 where that is no number |
| `QueryReplies.TagWithoutSpace` | upg/result.go:24-40 | a last tag without a space gives -1 |
| `QueryReplies.NoTagNothing` | upg/messages.go:667-792 | a reply without a tag gives 0 |
| `QueryReplies.ErrorIsReported` | upg/messages.go:1349-1366 | a reply with an error message gives exactly the fields of the first one, the last field of a code counting |
| `QueryReplies.Int32Is` | upg/messages.go:1333-1339 | four bytes are a number in two's complement, most significant first |
| `QueryReplies.ReaderMeets` | upg/messages.go:667-792 | for every such stream: nothing behind ReadyForQuery is touched, the earliest error is reported, and without one the row count is right |
| `QueryReplies.Reader.ReadMessageType` | upg/messages.go:1368-1378 | type and length of the next frame, if the buffer holds four bytes |
| `QueryReplies.Reader.ReadString` | upg/messages.go:1341-1347 | the bytes up to a zero byte, if they fit the buffer |
| `QueryReplies.Reader.ReadError` | upg/messages.go:1349-1366 | the fields of an error, later ones of a kind replacing earlier ones |
| `QueryReplies.Reader.ReadSimpleQuery` | upg/messages.go:667-728 | the loop computes the outcome that the laws are about, on any bytes, a panic included |
| `QueryReplies.Reader.ReadExtQuery` | upg/messages.go:730-792 | the same for the extended protocol |
| `LocalTimes.ParseDecimalDigits` | utoml/decode.go:74-86 | the number of a run of digits, or an error |
| `LocalTimes.FractionReads` | utoml/decode.go:247-287 | a fraction of p digits gives the nanoseconds back just when they end in enough zeros |
| `LocalTimes.ReadFraction` | utoml/decode.go:247-287 | the loop over the fraction, digits beyond nine dropped |
| `LocalTimes.ReadTime` | utoml/decode.go:201-290 | the time and what follows it, or an error |
| `LocalTimes.TimeRoundTripIff` | utoml/localtime.go:94-106 | a printed time is read back, with nothing left, if and only if its precision fits its nanoseconds |
| `LocalTimes.ParsedTimeStays` | utoml/decode.go:201-290 | every time the parser accepts, from any bytes, is a time of day and prints as text that reads as the same time |
| `LocalTimes.ReadDate` | utoml/decode.go:29-72 | the clamped date; an error just for text that is not of the form of a date, so that the test for an impossible date never fails |
| `LocalTimes.LocalDate.String` | utoml/localtime.go:34-46 | the date is clamped in place and printed |
| `LocalTimes.DateRoundTripIff` | utoml/localtime.go:34-46 | a printed date is read back as its clamped form if and only if its year has four digits |
| `LocalTimes.ParsedDateStays` | utoml/decode.go:524-556 | every date the parser accepts is a date of the calendar and prints as text that reads as the same date |
| `LocalTimes.TimeIs` | utoml/decode.go:201-291 | two digits each for hours, minutes and seconds in this order are that time, or no time beyond 23:59:60 |
| `LocalTimes.DateIs` | utoml/decode.go:29-72 | four digits for the year, two for month and day are that date of the calendar |
| `LocalTimes.ClampKeeps` | utoml/decode.go:29-72 | every field that can stay stays; one that cannot becomes 1970 or 1 |
| `LocalTimes.LeapYearsAre` | utoml/decode.go:554-556 | there are y/4 - y/100 + y/400 leap years up to the year y, so that leap years are those of the Gregorian calendar |
| `LocalTimes.MonthLengths` | utoml/decode.go:547-552 | counted from March, month m begins after (153 m + 2) / 5 days, and a year has 365 days, 366 if it is a leap year |

## Left out

- Concurrent `Del` in the step machine of the hash map: an element linked behind one that is being deleted can be lost, so
  the source does not promise it. `Del` is modelled in `SequentialMap`.
- The hash functions and the unsafe address arithmetic of `pkg/hashmap`: a hash is any function of the key, slots are an array.
- The value that a concurrent `GetOrInsert` returns for a key that is there; its loop is that of `Insert`.
- MapCollisions.CollisionLoses: its run has no resize. The source starts one when more than half of the slots are filled,
  which `MapCollisions.FilledByCalls` rules out for an index of at least twice as many slots as keys.
- SequentialMap.Map.Insert: needs an index of at most 2^62 slots and at most 2^61 elements, so that a resize fits a
  64-bit word; `MapHistory.RunAll` shows from the sizes and the number of calls when that holds.
- SequentialMap.Map.GetOrInsert: the same bound.
- SequentialMap.Map.Set: the same bound.
- SequentialMap.Map.Grow: the same bound; the product with 100 in the fill rate is not wrapped at 64 bits.
- MapHistory.RunAll: for histories whose index cannot outgrow 2^62 slots, counting twice each size asked for and eight
  slots for each call.
- SequentialMap.Map.constructor: needs a size of at least one, for size zero the source dereferences nil.
- SequentialMap.Map.Range: the callback deletes only the key it is shown; other changes during an iteration are not modelled.
- A resize started by an insert runs as part of that insert in `SequentialMap`, while the source starts a goroutine for it;
  `MapSteps` has it as a goroutine.
- Comments kept as nodes (`KeepComments`), positions, raw ranges and error messages of the TOML parser.
- Struct reflection, `omitempty`, comments, floats, date-times and text marshalers of the TOML encoder; the order of map keys
  is the order of the entries.
- TomlDecoder.FindInvalid: the test of eight bytes in two machine words is a test of eight bytes.
- TomlNumbers.ParseInteger: needs text on which the source does not panic; `TomlSoundness.ScalarIsSafe` shows that the
  parser emits no other.
- Setting decoded values into Go values (`utoml/unmarshaler.go`), and the check for duplicate tables.
- `ProcessDelimiters` with a bottom, the rules that decide what may open or close, and the merging of adjacent text.
- EmphasisContext.Context.ProcessDelimiters: the list of delimiters and the siblings are sequences, not linked nodes.
- EmphasisContext.Context.RemoveDelimiter: the same, and the text left behind is not merged with its neighbours.
- EmphasisContext.Context.Wrap: siblings are a sequence.
- EmphasisContext.Context.MatchPair: siblings and list are sequences.
- EmphasisContext.Context.ClearDelimiters: the same, without merging text.
- EmphasisLaws.FewestNestings: of rule 13 of CommonMark, the part about one pair of delimiters.
- The child count of syntax tree nodes: `InsertBefore` counts twice when it appends.
- Attributes, walking and text of syntax tree nodes.
- ChildList.Node.SortChildren: the comparator depends on the nodes only, not on their links.
- Panics of the function run on a connection, sticky pools, and the inside of the pool in `upg`; a cancel request always
  returns.
- QueryReplies.ReaderMeets: needs a buffer of at least four bytes; that of the source has 2^20.
- QueryReplies.Resynchronises: the same.
- The other readers of `upg/messages.go`, and the size of the buffer behind the stream as it grows.
- RouteTree.Tree.Set: for the empty route the source may store a nil path, depending on the string's data address; here it is
  the empty path.
- Channel binding and all cryptography of `pkg/sasl`: hash, HMAC, PBKDF2 and base64 are arbitrary functions, and the server of
  `ScramServer` is written from the RFC because the source has none.
- ScramServer.ServerAccepts: for a nonce without a comma, as the source draws it, and an identity without comma and equals
  sign; `ScramServer.IdentityReadIff` says what happens otherwise.
- The classification of errors as usable, bad or aborted (`isBadConn`).
- ScramFields.ReadAttributes: needs a challenge on which the source's loop ends; `ScramFields.LoopEndsIff` says which.
- ScramClient.Negotiator.DoStep: needs a client that has not errored, where the source panics, and a challenge on which the
  attribute loop ends.
- The values of floats, `LocalDateTime` and offset date-times; their tokens are in `TomlTokens`.
- `umap`, `ulog`, `ureq`, `pkg/cast`, `pkg/mime` and `pkg/hex`, which would only add easy members or depend on the system.
