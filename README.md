# study-map core, modelled in Dafny

study-map is a Bible study tool. It has three parts:

- An index builder (Rust) reads verse-marked XML. It numbers books, chapters and verses. It keeps a catalog of the texts it has indexed and a tree of statistics: per book, the text length of every chapter.
- A web front end (TypeScript) cuts a text into a requested number of ranges of chapters for display. It gives every range a human title such as `Genesis 3-5` or `Ruth - Esther`, and groups search hits by book, chapter and verse.
- Small HTTP handlers (Rust) serve files from the data directory.

This project models these parts:

- **The verse reader** (`ReadBible`, `index-builder/src/read_bible.rs`). A method loops over the XML reader's events with the four mutable locators. It is proved equal to a state machine `Run`. Lemmas cover what each tag does, which passages reach the callback, and that an error or `Eof` ends the read.
- **The statistics tree** (`Stats`, `index-builder/src/stats.rs`). `L0L1Stats` is a class whose `Add` grows the book and chapter vectors in place. It sets names once and adds the UTF-8 byte length of the text plus one.
- **The catalog** (`Index`, `index-builder/src/index.rs`):
  - `Catalog.Add` is an upsert by id over a linear scan.
  - `Load` turns any failure to open into an empty catalog.
- **Range titles and chunking** (`Titles`, `Ranges`, `Split`, `Merge`, `Chunks`, `src/chunks.ts`):
  - `describeRange`.
  - The three ways `l0BoundaryChunks` builds its ranges. `splitL0Children` hands chunks to the largest books greedily. `mergeL0Children` folds the smallest chunk into its smaller neighbour.
  - For the exact and splitting cases, and for merging with the redirect of the merge loop corrected (see Findings), the model proves that the ranges cut the whole text into consecutive pieces. Each piece is titled by `describeRange` of its ends. The merge loop as written is modelled too, and an input is given on which its ranges do not cut the whole text.
- **The search-result tree** (`ResultTree`, `src/result_tree.ts`):
  - Hits are filed in a sparse nested JavaScript array. The model covers holes, writes past the end and flattening.
  - `subtree(path)` is proved to return exactly the hits filed under `path`.
- **The HTTP layer** (`Lib`, `Info`, `api/_lib.rs`, `api/info.rs`):
  - The error type, its status code and message, and the response builder.
  - The statistics handler. It resolves `stats-{id}.json` inside the canonical data directory and refuses any id that resolves outside it.

Supporting modules:

- `Wrappers`: `Option` and `Result`.
- `Book`: the book data types of `src/types.ts`.
- `Decimal`: the decimal rendering of numbers and its read-back.
- `Utf8`: the byte length of a string.

Three behaviours of the code that the model keeps as written:

- `Catalog::load` treats every failure to open `catalog.json` as an empty catalog, not only a missing file.
- The info handler returns a `NotFoundError` variant that the `RequestError` enum as written does not declare. It is modelled as a third variant. The wildcard arm of `status_code` gives it 500.
- The info handler gives `NotFoundError` only when the resolved path lies outside the data directory or the file cannot be opened. A stats file that does not exist already fails in `canonicalize`, so the handler gives the operating-system error (`ENOENT`, a 500 through `Other`), not `NotFoundError`.

## Model

| member | source | states |
|---|---|---|
| ReadBible.ParseUsize | index-builder/src/read_bible.rs:43-46 | `parse::<usize>`: the empty string is rejected, and any number accepted fits in 64 bits |
| ReadBible.ParseUsizeOfRendering | index-builder/src/read_bible.rs:43-46 | every usize is parsed back from its own decimal rendering |
| ReadBible.ParseUsizeRejects | index-builder/src/read_bible.rs:43-46 | `parse::<usize>` rejects a string holding a non-digit anywhere except a leading `+`, a lone `+`, and the rendering of any number above `usize::MAX` |
| ReadBible.Step | index-builder/src/read_bible.rs:33-66 | the effect of one XML event on the four locators; `BookTagStep`, `ChapterVerseTagStep`, `TextStep` and `IgnoredStep` state its cases |
| ReadBible.Run | index-builder/src/read_bible.rs:32-67 | the read loop as a state machine over the events; `Read` is proved equal to it, and `RunDeliversLocated`, `RunExtendsDelivered`, `AbortIsFinal` and `EofIsFinal` state its properties |
| ReadBible.Read | index-builder/src/read_bible.rs:21-70 | the imperative event loop returns exactly the outcome of the state machine `Run` from the initial locators |
| ReadBible.BookTagStep | index-builder/src/read_bible.rs:35-41 | a `b` tag increments the book index exactly when its name differs from the current book; chapter and verse are kept |
| ReadBible.ChapterVerseTagStep | index-builder/src/read_bible.rs:42-47 | a `c` or `v` tag overwrites only its own locator with the parsed `n`, and an unparsable `n` fails the read |
| ReadBible.TextStep | index-builder/src/read_bible.rs:50-62 | text is passed on with exactly the current locators only once book, chapter and verse are set; a decoding failure fails the read; earlier text is dropped |
| ReadBible.IgnoredStep | index-builder/src/read_bible.rs:48 | other tags and other events change nothing |
| ReadBible.StepKeepsCounted | index-builder/src/read_bible.rs:35-41 | once a book is set, its index is at least 1 |
| ReadBible.RunDeliversLocated | index-builder/src/read_bible.rs:50-59 | every passage the callback receives has a non-empty book, a book index of at least 1, and a chapter and verse of at least 1 |
| ReadBible.RunExtendsDelivered | index-builder/src/read_bible.rs:53-59 | passages already accepted are never taken back |
| ReadBible.AbortIsFinal | index-builder/src/read_bible.rs:43-64 | an error from a number, decoding, the callback or the XML reader ends the read; later events are never looked at |
| ReadBible.EofIsFinal | index-builder/src/read_bible.rs:63 | `Eof` ends the read with success whatever follows it |
| ReadBible.BookNumberingExample | index-builder/src/read_bible.rs:35-41 | books A, A, B, A are numbered 1, 1, 2, 3, and text before the first verse is dropped |
| ReadBible.NumberingChapterRun | index-builder/src/read_bible.rs:50-51 | on one fixed event stream (chapter 1, text, verse 1, text, ...), the text between the chapter marker and the first verse marker is not delivered. This is an example; the general rule is `TextStep` |
| Stats.Padded | index-builder/src/stats.rs:33-39 | `add_level` grows the vector to reach `index`, keeps the old entries as a prefix and fills the new ones with defaults |
| Stats.L0L1Stats.constructor | index-builder/src/stats.rs:46-51 | a new tree has its name and no books |
| Stats.L0L1Stats.AddLevel | index-builder/src/stats.rs:33-39 | the root's books are padded to reach `index`, and the book at `index` is returned |
| Stats.L0L1Stats.Add | index-builder/src/stats.rs:54-80 | the new book vector is `Added` of the old one; the root name is unchanged |
| Stats.Added | index-builder/src/stats.rs:54-79 | the book vector after `add`; `AddedShape`, `AddedNames` and `AddedLength` state what it is |
| Stats.NameAfter | index-builder/src/stats.rs:65-69 | the rule of `add` for a book or chapter name (also lines 72-76): a name already set is kept, and an empty one takes the name supplied; `AddedNames` states it for the whole tree |
| Stats.AddedShape | index-builder/src/stats.rs:64-71 | the tree grows to reach `(l0, l1)` and never shrinks; other books and chapters are unchanged |
| Stats.AddedNames | index-builder/src/stats.rs:65-76 | a book or chapter name is set by the first non-empty name supplied and never overwritten |
| Stats.AddedLength | index-builder/src/stats.rs:78 | the chapter at `(l0, l1)` gains the UTF-8 byte length of the value plus one; every other chapter keeps its length |
| Stats.AddedLengthsCommute | index-builder/src/stats.rs:78 | two additions give the same chapter lengths in either order |
| Stats.PaddingExample | index-builder/src/stats.rs:64-78 | adding to book 2 of an empty tree creates two default books before it |
| Utf8.ByteLength | index-builder/src/stats.rs:78 | `str::len`, the UTF-8 byte length, lies between the character count and four times it |
| Utf8.AsciiByteLength | index-builder/src/stats.rs:78 | an ASCII string takes one byte per character |
| Index.FirstIndex | index-builder/src/index.rs:77 | `position`: a result holds the id, and no result means no entry holds it |
| Index.FirstIndexIsFirst | index-builder/src/index.rs:77 | the position found is the first entry with that id |
| Index.Catalog.constructor | index-builder/src/index.rs:62-65 | a catalog holds the entry list it is given |
| Index.Catalog.Position | index-builder/src/index.rs:77 | the scan returns the first index whose id matches, or none |
| Index.Catalog.Add | index-builder/src/index.rs:76-82 | the entry list becomes the upsert of the old list with the new item |
| Index.Upserted | index-builder/src/index.rs:76-82 | the entry list after `add`; `UpsertReplaces`, `UpsertAppends`, `UpsertContains`, `UpsertKeepsUnique` and `UpsertIdempotent` state what it is |
| Index.UpsertReplaces | index-builder/src/index.rs:79 | with the id present, `add` overwrites that first entry and nothing else |
| Index.UpsertAppends | index-builder/src/index.rs:80 | with the id absent, `add` appends and keeps the prior entries in order |
| Index.UpsertContains | index-builder/src/index.rs:76-82 | after `add(c)`, `c` is in the catalog, at the matched position or at the end |
| Index.UpsertKeepsUnique | index-builder/src/index.rs:76-82 | `add` keeps ids unique |
| Index.UpsertIdempotent | index-builder/src/index.rs:76-82 | adding the same item twice is the same as adding it once |
| Index.Load | index-builder/src/index.rs:68-74 | a file that cannot be opened gives an empty catalog; an opened file gives whatever the deserialiser gives, errors included |
| Titles.DescribeRange | src/chunks.ts:5-29 | the title starts with the first book's name. A range of whole books is named by the book name(s). A single chapter carries its 1-based number |
| Titles.TitleChaptersReadBack | src/chunks.ts:19-23 | inside one book, a title other than the bare name is the name, a space and the 1-based first chapter. When the range spans several chapters, a `-` and the 1-based last chapter follow. Each number is written exactly as its decimal rendering, with no leading zero, and reads back |
| Titles.TitleAcrossBooksReadBack | src/chunks.ts:27 | a range across books that is not a run of whole books is titled `A S - B E`: the first book's name, the 1-based start chapter, ` - `, the last book's name and the 1-based end chapter. Each number is written exactly as its decimal rendering, with no leading zero, and reads back from its place in the title |
| Decimal.NatToString | src/chunks.ts:20 | the rendering of a number is non-empty decimal digits with no leading zero |
| Decimal.DigitsOfNatToString | src/chunks.ts:20 | the rendering reads back as the number |
| Ranges.ChainCoversOnce | src/chunks.ts:31-33 | every chapter position between the ends of a chain of ranges lies in exactly one range |
| Ranges.TilesHoldEachChapterOnce | src/chunks.ts:31-33 | when ranges tile the text, every chapter of every book is held by exactly one range |
| Chunks.ExactRanges | src/chunks.ts:39-48 | one range per book, from its first to its last chapter, titled with the book's name |
| Chunks.ExactTiles | src/chunks.ts:41-47 | one range per book tiles the text |
| Chunks.L0BoundaryChunks | src/chunks.ts:33-49 | exactly `numElements` ranges, titled by `describeRange`. They stay within one book and tile the text when splitting. When merging, they cover whole books and tile the text with the merge loop's redirect corrected; as written, the merge loop can lose books (see Findings) |
| Split.Largest | src/chunks.ts:59-70 | the heap pop: the book returned has the smallest priority, that is the largest chunk size |
| Split.ChunkCounts | src/chunks.ts:61-75 | every book gets at least one chunk, the counts add up to the desired number, and the greedy balance invariant holds |
| Split.MaxChunk | src/chunks.ts:59 | the largest chunk size any book has under the counts, attained by some book |
| Split.GreedyIsOptimal | src/chunks.ts:67-75 | no other way of handing out the same number of chunks gives a smaller largest chunk |
| Split.CeilIsLeast | src/chunks.ts:59 | `Math.ceil(len / chunks)` is the least size that covers the book |
| Split.CeilAntitone | src/chunks.ts:59 | more chunks never make a chunk larger |
| Split.Ceil | src/chunks.ts:59 | `Math.ceil(len / chunks)` on whole numbers; `CeilIsLeast` states that it is the least size covering the book |
| Split.Priority | src/chunks.ts:59 | the heap priority `0x7fffffff - ceil(len / chunks)`: a smaller priority means a larger chunk size; `Largest` pops by it |
| Split.Round | src/chunks.ts:81-82 | `Math.round(chunkSize * i)` with `chunkSize = n / k`, in exact arithmetic with halves rounding up; `RoundFirst`, `RoundLast` and `RoundMonotone` state its properties |
| Split.RoundFirst | src/chunks.ts:81 | the first piece of a book starts at chapter 0 |
| Split.RoundLast | src/chunks.ts:82 | the last piece of a book ends at its last chapter |
| Split.RoundMonotone | src/chunks.ts:81-82 | piece boundaries never go backwards |
| Split.Pieces | src/chunks.ts:80-88 | a book cut into `k` chunks gives `k` ranges |
| Split.PieceBounds | src/chunks.ts:81-82 | piece `i` runs from chapter `round(n*i/k)` to one before `round(n*(i+1)/k)` of its own book |
| Split.PieceCuts | src/chunks.ts:79-82 | the pieces of a book run between consecutive cut points, from the book's first chapter to past its last |
| Split.BookPiecesChain | src/chunks.ts:80-88 | the pieces of a book chain across exactly its chapters |
| Split.PiecesFrom | src/chunks.ts:77-89 | the flat map gives as many ranges as the chunk counts add up to |
| Split.PiecesFromChain | src/chunks.ts:77-89 | the pieces of all books chain across the whole text |
| Split.PiecesFromTitled | src/chunks.ts:86 | every piece is titled by `describeRange` of its ends |
| Split.SameBookFrom | src/chunks.ts:77-89 | every piece starts and ends in the same book |
| Split.SplitL0Children | src/chunks.ts:52-90 | exactly the desired number of ranges, each within one book, tiling the text and titled by `describeRange` |
| Merge.SortByPermutes | src/chunks.ts:99 | sorting by length is a permutation of the chunks |
| Merge.SortBySorted | src/chunks.ts:99 | sorting gives chunks in non-decreasing key order |
| Merge.SortBy | src/chunks.ts:99 | the `sort` of lines 99, 107 and 134 by a key: it keeps the number of chunks; `SortByPermutes` and `SortBySorted` state that it is an ordered permutation |
| Merge.Reordered | src/chunks.ts:105-108 | the re-sort of the loop: it keeps the number of chunks; `ReorderedSorts` states what it does to them |
| Merge.ReorderedSorts | src/chunks.ts:105-108 | the chunks after the re-sort are a permutation of those before. They are left as they are while the first is no longer than the second, and otherwise put in length order |
| Merge.Absorb | src/chunks.ts:112-127 | a merge target exists exactly when the chunk has a neighbour on some side. The target is the previous neighbour when it is strictly smaller than the next one (a missing neighbour counts as infinitely large), and the next one otherwise. The target gains the chunk's length, keeps the store's size and stays within the books; every other stored chunk is unchanged |
| Merge.Initial | src/chunks.ts:93-101 | the state before the loop keeps every index in range; `InitialState` states what it is |
| Merge.InitialState | src/chunks.ts:93-101 | one chunk per book, holding its length and only that book; the chunks are in length order; `chunkMap` maps every book, and nothing else, to its own chunk |
| Merge.Step | src/chunks.ts:104-132 | one iteration removes exactly one chunk and keeps every index in range |
| Merge.LoopAsWritten | src/chunks.ts:103-132 | the loop as written keeps every index in range |
| Merge.FinalRanges | src/chunks.ts:134-144 | one range per chunk left |
| Merge.RangeOf | src/chunks.ts:136-143 | a chunk becomes the range from chapter 0 of its first book to the last chapter of its last book, titled by `describeRange`; `FinalRangesTile` and `FinalRangesTitled` state its properties |
| Merge.Redirect | src/chunks.ts:129-130 | the corrected redirect sends every book of the removed chunk, and only those, to the chunk it went into |
| Merge.InitialInvariant | src/chunks.ts:93-101 | before the loop the merge invariant holds: chunks are live, disjoint, weigh their books, and `chunkMap` finds each book's chunk |
| Merge.SortKeepsInvariant | src/chunks.ts:105-108 | re-sorting keeps the invariant |
| Merge.SomeNeighbour | src/chunks.ts:112-116 | with two chunks or more, the first one has a neighbour on some side, so `mergeInto` is never undefined |
| Merge.ChooseNeighbour | src/chunks.ts:115-125 | the neighbour chosen is live, is not the chunk itself, and abuts it on the side it grows |
| Merge.AbsorbKeepsInvariant | src/chunks.ts:118-130 | absorbing the first chunk into its neighbour, with the corrected redirect, keeps the invariant |
| Merge.StepKeepsInvariant | src/chunks.ts:104-132 | a corrected iteration always finds a neighbour and keeps the invariant |
| Merge.LiveSpansAbut | src/chunks.ts:134 | the chunks sorted by first book follow one another across all books |
| Merge.FinalRangesTile | src/chunks.ts:134-144 | the final ranges tile the text, and their lengths add up to the whole text's length |
| Merge.FinalRangesTitled | src/chunks.ts:142 | every merged range is titled by `describeRange` of its ends |
| Merge.MergeChunks | src/chunks.ts:103-132 | the corrected loop ends with exactly `desired` chunks and the invariant |
| Merge.MergeL0Children | src/chunks.ts:92-145 | with the redirect corrected: exactly `desired` ranges, in book order, each of whole books. They tile the text, are titled by `describeRange`, and their lengths add up to the text's |
| Merge.MergeAsWritten | src/chunks.ts:92-145 | the function with the redirect as written; `MergeAsWrittenLosesBooks` gives an input on which its ranges do not tile the text |
| Merge.FourStep2 | src/chunks.ts:130 | as written, after two merges book 1 still maps to a chunk that is no longer live |
| Merge.MergeAsWrittenLosesBooks | src/chunks.ts:130 | as written, books of lengths 2, 1, 1, 2 merged into one range give `B - D`, which loses book A and does not tile |
| ResultTree.Depth | src/result_tree.ts:8 | a hit is filed under `maxDepth + 1` path components, capped at 3 |
| ResultTree.PathOf | src/result_tree.ts:8 | the path is the prefix of `[l0, l1, l2]` of that length |
| ResultTree.Put | src/result_tree.ts:14 | writing entry `k` sets it and leaves every other entry as it was, padding with holes past the end |
| ResultTree.FlattenPut | src/result_tree.ts:41 | writing an entry splices its new hits in place of the old ones in the flattened array |
| ResultTree.LookupShaped | src/result_tree.ts:31-38 | a walk no longer than the tree's depth stays in the tree; a longer one never reaches an array |
| ResultTree.InsertShaped | src/result_tree.ts:10-26 | inserting keeps the nesting the tree has |
| ResultTree.InsertAll | src/result_tree.ts:20-26 | inserting adds the hit to the whole tree, once |
| ResultTree.Insert | src/result_tree.ts:8-26 | one iteration of the insert loop, walking and creating the nested arrays along the path; `InsertShaped`, `InsertAll` and `InsertUnder` state what it does |
| ResultTree.Build | src/result_tree.ts:5-27 | the tree the insert loop builds from all the hits; `BuildUnder` states what lies under each path |
| ResultTree.SubtreeOf | src/result_tree.ts:31-42 | the walk of `subtree(path)` followed by flattening; a hit found where an array is expected is `None` |
| ResultTree.Flatten | src/result_tree.ts:41 | `flatten(node).filter(Boolean)` with `just-flatten-it`: the hits of nested arrays in order, holes dropped; `FlattenPut` states how it changes when an entry is written |
| ResultTree.InsertUnder | src/result_tree.ts:10-26 | an insert puts the hit under every prefix of its path and nowhere else; at its own path it is appended last |
| ResultTree.BuildUnder | src/result_tree.ts:7-27 | after the loop, under a path no longer than the depth are exactly the hits filed there; at full depth, in input order |
| ResultTree.WholeTree | src/result_tree.ts:29-41 | `subtree([])` gives every hit |
| ResultTree.EmptySubtree | src/result_tree.ts:46-49 | the empty tree's `subtree` gives `[]` for every path |
| ResultTree.ResultTree.constructor | src/result_tree.ts:4-30 | keeps the hits and builds the tree the insert loop builds |
| ResultTree.ResultTree.Empty | src/result_tree.ts:46-49 | no hits and an empty tree |
| ResultTree.ResultTree.Subtree | src/result_tree.ts:31-42 | `subtree(path)` returns the hits filed under `path` (in input order at full depth), and `[]` or a throw beyond the depth |
| Lib.IoMessage | api/_lib.rs:15 | the non-empty message of each of the five operating-system errors the model distinguishes: `ENOENT`, `ENOTDIR`, `EISDIR`, `ENAMETOOLONG` and a NUL byte in a path |
| Lib.IoMessageIdentifies | api/_lib.rs:15 | different operating-system errors give different messages |
| Lib.Display | api/_lib.rs:12-16 | a query-string error displays as `Invalid query string: ` and the parser's message; `Other` shows its cause unchanged |
| Lib.StatusCode | api/_lib.rs:19-25 | 400 exactly for a query-string error, 500 for every other error |
| Lib.Respond | api/_lib.rs:28-45 | a success is sent with its own code, body and content type. An error becomes a `text/plain` response with its status code and message. Every response carries the Cache-Control policy |
| Lib.QueryStringBodyKeepsDetail | api/_lib.rs:12-13 | different parser messages give different response bodies |
| Info.ComponentsOfPlainName | api/info.rs:16-17 | a file name without `/` joins as one path component |
| Info.Components | api/info.rs:16-17 | `join` of a relative file name: the name split at each `/` |
| Info.StatsName | api/info.rs:17 | the file name `stats-{id}.json` |
| Info.StatsNameNul | api/info.rs:17 | the file name holds a NUL character exactly when the book id does |
| Info.DataDir | api/info.rs:15 | the canonical path of `./data`, or the operating-system error |
| Info.StatsPath | api/info.rs:16-18 | the canonical path of the stats file inside the data directory. A NUL in the name fails first, before the data path is looked at; a data path that is a file then fails with `ENOTDIR` |
| Info.Canonicalize | api/info.rs:15-18 | a resolved path names a directory or a file that exists, and has no `.` or `..` component; a component longer than 255 bytes fails with `ENAMETOOLONG` |
| Info.Ancestors | api/info.rs:20 | `ancestors()` starts with the path itself and has one entry per component plus the root |
| Info.AncestorsArePrefixes | api/info.rs:20-23 | a directory is among the ancestors exactly when the path lies inside it or is it |
| Info.Handler | api/info.rs:11-34 | a bad query string gives `QueryStringError` with the parser's message; a success is a 200 JSON response |
| Info.ServesOnlyDataFiles | api/info.rs:20-27 | whatever the book id, a file served lies inside the data directory, has no `.` or `..` component, and its text is served unchanged |
| Info.OutsideIsNotFound | api/info.rs:20-23 | an id that resolves outside the data directory gives `NotFoundError` |
| Info.PlainIdIsServed | api/info.rs:15-33 | an id without `/` or NUL, whose file name fits in 255 bytes and whose file exists and opens, is served with that file's text |
| Info.UnopenableIsNotFound | api/info.rs:25 | a path inside the data directory that resolves but cannot be opened gives `NotFoundError` |
| Info.UnresolvedIsOther | api/info.rs:16-18 | whenever `./data` resolves but the stats path does not, the handler gives `Other` with the operating-system error of `canonicalize` |
| Info.MissingFileIsOther | api/info.rs:16-18 | a plain id whose stats file does not exist gives `Other` with `ENOENT`, not `NotFoundError` |
| Info.NulIdIsOther | api/info.rs:16-18 | whenever `./data` resolves, to a directory or to a file, an id holding a NUL byte gives `Other` with the NUL-in-path error |
| Info.TraversalResolves | api/info.rs:16-18 | `stats-/../../x.json` resolves to a file above the data directory when `data/stats-` exists |
| Info.TraversalIsRefused | api/info.rs:20-23 | the id `/../../x` is refused with `NotFoundError` |

## Left out

- Reading the XML file, the XML tokenizer and entity unescaping are not modelled. Closing tags, self-closing tags such as `<v n="1"/>` (`Event::Empty`), comments and the other events the loop ignores are one `Other` event. `ReadBible.Read` takes the event sequence as a parameter, and a text event carries its decoded text or a decoding failure.
- ReadBible.Read: requires every `b`, `c` and `v` tag to carry an `n` attribute, because `get_name` panics on a missing one. The panic is not modelled.
- ReadBible.Read: the callback is a function of the passages already accepted and the new one. A callback with other side effects is not modelled.
- `book_index` is an unbounded natural number, so its `usize` overflow is not modelled. A text would need 2^64 books to reach it.
- Stats.Added: the chapter length is an unbounded natural number, so the `usize` overflow of `len += text.len() + 1` is not modelled. It would need 2^64 bytes of text in one chapter.
- `open_index`, the search schema, the tokenizer and `Catalog::write` in `index.rs` are file-system and search-engine code. They are not part of this model. `Index.Load` takes the outcome of opening the file and the deserialiser as parameters.
- Titles.DescribeRange: a book's `name` is optional in the front end's types (`name?: string`), and the statistics writer leaves an empty name out of the JSON. The model gives every book a string name and treats a missing one as `""`. The source's titles for such a book are not modelled: `undefined` for a whole book, or text such as `undefined 3-5`.
- Chunks.ExactRanges: for the same reason, a book without a name is titled `""` here, where the source's title is `undefined`.
- `evenChunks` in `src/chunks.ts` is not modelled. The front end does not use it.
- Chunks.L0BoundaryChunks: requires at least one book and at least one range, unless the two counts are equal. Outside that, the source crashes: it pops an empty heap, or reads `chunks[1]` of a one-element array.
- Split.Largest: picks the first book of largest chunk size. The heap may pick any of several tied books. Every such choice satisfies the same contract and the same balance invariant.
- Split.Round: `Math.round` of a floating-point product is modelled in exact rational arithmetic, halves rounding up. Floating-point error in `chunkSize * i` is not modelled.
- Split.Priority: `0x7fffffff - Math.ceil(...)` is computed on unbounded integers. `Heapify` stores priorities in a `Uint32Array`. Priorities here stay in [0, 2^31) for any book shorter than 2^31, so the storage changes nothing.
- Merge.MergeL0Children: also returns the final chunk lengths, so that their sum can be stated. `totalLength` is a whole number; floating-point lengths are not modelled.
- `SearchResult.score` and `highlight` are left out of the hit datatype. They are not used by the tree.
- ResultTree.Build: the insert loop walks the nested arrays by reference. The model rebuilds each array on the path as a new value. Aliasing between arrays cannot arise in the source, because every inner array is created fresh.
- ResultTree.ResultTree.Subtree: for a path shorter than the depth, the order of hits is stated only as a multiset. They come out in index order of the nested arrays, not in input order.
- ResultTree.ResultTree.Subtree: the `console.log` call is output only and is not modelled. `Flatten` of a hit object (a path one longer than the depth) throws, and is modelled as `None`.
- Query-string parsing (`serde_qs`) is not modelled. `Info.Handler` takes its outcome as a parameter.
- Info.Canonicalize: symbolic links are not modelled.
- Info.Handler: a failure of `read_to_string` on the opened file, for example invalid UTF-8 giving `Other` with `InvalidData`, is not modelled; file contents are strings.
- Lib.Display: `NotFoundError` has no `#[error]` text in the source. The model shows it as `Not found`.
- Lib.IoMessage: only five operating-system errors are modelled: `ENOENT`, `ENOTDIR`, `EISDIR`, `ENAMETOOLONG` and the NUL-byte `InvalidInput` error. Others, such as `EACCES`, `ELOOP` or the `PATH_MAX` limit of 4096 bytes on a whole path, are not modelled. The conversion of an `io::Error` into `RequestError` is modelled as `Other` carrying the error. The messages are those printed on Linux by recent Rust standard libraries, whose path calls build their C string through `run_path_with_cstr`. Older standard libraries built it with `CString::new(..)?` and print `data provided contains a nul byte` for a NUL in a path.

## Findings

| source | as written | input that shows it | evidently intended | confidence | as-written member | corrected member |
|---|---|---|---|---|---|---|
| src/chunks.ts:130 | after a merge, `chunkMap.set(chunk.originalIndex, mergeInto)` redirects only the removed chunk's original book. Once that chunk has grown to the left, that is no longer its first book, and the other books it held still map to the removed chunk, and later merges grow that dead chunk | four books A, B, C, D of lengths 2, 1, 1, 2 merged into 1 range: the result is the single range `B - D`, so book A is lost and the lengths no longer add up | redirect every book the removed chunk held, so that the ranges always cut the whole text | not executed | Merge.MergeAsWrittenLosesBooks | Merge.MergeL0Children |
