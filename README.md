# TelegramFilesBot message tree, in Dafny

The bot shows the contents of a remote drive as a tree of chat messages. It
has three parts, and this project models each of them.

**The engine.** `DefaultMessageProvider`, and its two earlier copies named
`MessageHolder`, build the tree:

- they walk the drive's folder listing;
- they give every folder a node with a fresh id from a global counter;
- they cut each node's texts and file lists into pages of at most
  `MAX_TEXT_LENGTH` characters;
- they chain those pages with "previous page" and "next page" entries;
- they sort every node's entries so that the navigation buttons come first
  and the "back" button last.

A search builds a separate parentless tree of matching files and caches it
per chat. A lookup finds a node by id, searching in pre-order.

**The token codec.** It writes the callback token `"1_<id>"` or
`"2_<id>_<chatId>"` that addresses a node, and reads it back.

**The data types.** `BotMessage`, `RemoteData` and `plusNotNull`.

Modules, in dependency order:

- `Wrappers`: `Option`.
- `Lists`: generic list operations:
  - `plusNotNull`;
  - Kotlin's `chunked`;
  - a stable insertion sort (`sortedBy`);
  - grouping by key.
- `Markdown`: `String.escaped`, the MarkdownV2 escaping.
- `Remote`: `RemoteData`, the `filterIsInstance` filters, and the repository
  as input data.
- `Messages`: `BotMessage`, the arena node, the resource strings, the sort
  key of `sorted()`, and `createBackMessage`.
- `Pagination`: the page bodies that `addText` and `addFiles` compute.
- `Chain`: the page chain that `createNodes` and `connectNodes` build, as a
  function of the page bodies.
- `Lookup`: the arena's well-formedness, the two `findMessageByIdInternal`
  variants, and their pre-order reference.
- `Codec`: `serialize` and `deserialize`.
- `Engine`: the engine class `MessageProvider` and the private helpers that
  change nodes in place.

## The engine as modelled

The engine's nodes have mutable `text` and `nodes` fields. The model
therefore keeps them in an arena `map<int, Node>`, keyed by id.

A node's entry list holds `BotMessage` references:

- `Content(id, title)` names a node of the arena;
- `Back(parent, title)` is an immutable marker.

`title` is the source's `label`, which is a Dafny keyword.

The `Content` entries form a DAG, not a tree: every further page of a node
copies the entries of the first page. Two things make the lookups terminate:

- a ghost `level` map: every `Content` entry leads to a deeper level, or to
  a later page on the same level;
- a ghost `depthBound`.

The class `MessageProvider` has the fields of the Kotlin class:

- the id counter `nextId`;
- `arena`;
- `searchCache`;
- `rootId`, the id of `rootMessage`.

Its private helpers are methods that take the arena and the counter and give
back the updated ones. Each helper states its new state against a
specification function:

- `Paginated`, with `Chain.ChainPage`;
- `Pagination.TextPieces`;
- `Pagination.FilePieces`.

The recursion of `loadRemoteMessages` is stated by the ghost predicate
`Engine.Loaded` over a ghost `LoadTree`. The tree records the ids the call
handed out, each node's text before the call, and the counter when its
pages were begun. A node is loaded from a source id when:

- every folder of that listing has a fresh child, in order, with the
  selected text of the folder name, loaded in turn from the folder's id;
- the node, with its old text and as entries those children and its `Back`
  marker, is the base of its text pages, and the last text page is the base
  of its file pages (`Engine.ListingPaged`, pages as `Chain.ChainPage`).

Its entries are then exactly those children and its `Back` marker, plus
"next page" links to pages made during its own expansion.

The general properties are lemmas about those functions. The lookups are
proved equal to "the first match in the pre-order walk"
(`Lookup.Visits`).

Three places where the code behaves differently from what its constants and
error handling suggest; the model follows the code:

- A text page body is `base + "\n\n" + piece`, where the piece is at most
  `MAX_TEXT_LENGTH - |base|` characters. A body can therefore be 4098
  characters long, not at most 4096 (`Pagination.TextPieceReachesBound`).
- A 150-character text under a limit of 100 gives a first body of 102
  characters (`Pagination.LongTextTwoPages`).
- A malformed token throws rather than giving null (`Codec.MalformedTokens`,
  `Codec.SearchMissingField`).

## Model

| member | source | states |
|---|---|---|
| `Lists.PlusNotNull` | src/main/kotlin/com/pechuro/guitarbot/ext/CollectionExt.kt:3-7 | the list is kept as a prefix, and the element is appended exactly when it is present |
| `Lists.PlusNotNullMembers` | src/main/kotlin/com/pechuro/guitarbot/ext/CollectionExt.kt:3-7 | an entry is in the result iff it is in the list or is the present element |
| `Lists.Chunked` | src/main/java/com/pechuro/guitarbot/data/impl/DefaultMessageProvider.kt:109 | the chunks concatenate back to the list; each chunk is non-empty and at most n long; all but the last are exactly n; there are no chunks iff the list is empty |
| `Lists.ChunkedCount` | src/main/java/com/pechuro/guitarbot/data/impl/DefaultMessageProvider.kt:109 | the number of chunks is the ceiling of length/n |
| `Lists.ChunkAll` | src/main/java/com/pechuro/guitarbot/data/impl/DefaultMessageProvider.kt:101 | `flatMap { chunked }` loses nothing, and every piece is non-empty and at most n long |
| `Lists.ChunkAllEmpty` | src/main/java/com/pechuro/guitarbot/data/impl/DefaultMessageProvider.kt:101 | no piece at all iff every input string is empty |
| `Lists.ChunkAllPerString` | src/main/java/com/pechuro/guitarbot/data/impl/DefaultMessageProvider.kt:101 | `flatMap { chunked }` is the concatenation of `chunked` applied to each string on its own, in order |
| `Lists.ChunkAllAppend` | src/main/java/com/pechuro/guitarbot/data/impl/DefaultMessageProvider.kt:101 | `flatMap { chunked }` of two lists joined is the two results joined: no piece spans two strings |
| `Lists.SortByProperties` | src/main/java/com/pechuro/guitarbot/data/impl/DefaultMessageProvider.kt:145-152 | `sortedBy` gives a list that is sorted by key, is a permutation, and is stable (each key's entries keep their order) |
| `Lists.SortByMembers` | src/main/java/com/pechuro/guitarbot/data/impl/DefaultMessageProvider.kt:145-152 | sorting keeps exactly the same members |
| `Lists.SortedGroups` | src/main/java/com/pechuro/guitarbot/data/impl/DefaultMessageProvider.kt:145-152 | a sorted list within keys lo..hi is its key groups concatenated in key order |
| `Markdown.Escaped` | src/main/java/com/pechuro/guitarbot/data/impl/DefaultMessageProvider.kt:15-17 | escaping adds one character per reserved character, and a result never starts with a reserved character |
| `Markdown.UnescapedEscaped` | src/main/java/com/pechuro/guitarbot/data/impl/DefaultMessageProvider.kt:15-17 | escaping is undone by unescaping (loses nothing) |
| `Markdown.EscapedIsSafe` | src/main/java/com/pechuro/guitarbot/data/impl/DefaultMessageProvider.kt:15-17 | every reserved character in an escaped string is preceded by a backslash |
| `Markdown.EscapedPlain` | src/main/java/com/pechuro/guitarbot/data/impl/DefaultMessageProvider.kt:15-17 | a string without reserved characters is unchanged |
| `Markdown.EscapedAppend` | src/main/java/com/pechuro/guitarbot/data/impl/DefaultMessageProvider.kt:15-17 | escaping distributes over concatenation |
| `Remote.FilterFolders` | src/main/java/com/pechuro/guitarbot/data/impl/DefaultMessageProvider.kt:70 | the folder filter keeps exactly the folder entries |
| `Remote.FilterFiles` | src/main/java/com/pechuro/guitarbot/data/impl/DefaultMessageProvider.kt:108 | the file filter keeps exactly the file entries |
| `Remote.FilterTexts` | src/main/java/com/pechuro/guitarbot/data/impl/DefaultMessageProvider.kt:99 | the text filter keeps exactly the text entries |
| `Remote.FilterFoldersAppend` | src/main/java/com/pechuro/guitarbot/data/impl/DefaultMessageProvider.kt:70 | the folder filter keeps the listing order (it distributes over concatenation) |
| `Remote.FilterFilesAppend` | src/main/java/com/pechuro/guitarbot/data/impl/DefaultMessageProvider.kt:108 | the file filter keeps the listing order |
| `Remote.FilterTextsAppend` | src/main/java/com/pechuro/guitarbot/data/impl/DefaultMessageProvider.kt:99 | the text filter keeps the listing order |
| `Remote.FilterFilesOfFiles` | src/main/java/com/pechuro/guitarbot/data/impl/DefaultMessageProvider.kt:47 | a `findFiles` answer is its own file filter |
| `Remote.FilterPartition` | src/main/kotlin/com/pechuro/guitarbot/domain/RemoteData.kt:3-20 | each entry of a listing is in exactly one of the three filters |
| `Messages.CreateBackMessage` | src/main/java/com/pechuro/guitarbot/data/impl/DefaultMessageProvider.kt:164 | a `Back` marker to the given parent, labelled with the "back" text |
| `Messages.BackTo` | src/main/java/com/pechuro/guitarbot/data/impl/DefaultMessageProvider.kt:82 | a marker exactly when the node has a parent, and then the `CreateBackMessage` of that parent |
| `Messages.SortKey` | src/main/java/com/pechuro/guitarbot/data/impl/DefaultMessageProvider.kt:145-152 | key 1 iff the label is "previous page"; key 2 iff "next page" (and not the former); key 4 iff "back" (and neither); otherwise 3 |
| `Messages.SortedNodesGroups` | src/main/java/com/pechuro/guitarbot/data/impl/DefaultMessageProvider.kt:145-152 | `sorted()` gives the previous-page entries, then next-page, then the others, then back, each group in its original order |
| `Messages.SortedNodesMembers` | src/main/java/com/pechuro/guitarbot/data/impl/DefaultMessageProvider.kt:145-152 | `sorted()` is a permutation of the entries |
| `Pagination.Bodies` | src/main/java/com/pechuro/guitarbot/data/impl/DefaultMessageProvider.kt:101 | one body per text entry: its text, in order |
| `Pagination.WithBase` | src/main/java/com/pechuro/guitarbot/data/impl/DefaultMessageProvider.kt:102 | every piece becomes the base, a blank line and the piece |
| `Pagination.TextPieces` | src/main/java/com/pechuro/guitarbot/data/impl/DefaultMessageProvider.kt:98-102 | text pagination fails (`chunked` throws) iff there is a text entry and the base is at least `limit` long |
| `Pagination.TextPiecesLossless` | src/main/java/com/pechuro/guitarbot/data/impl/DefaultMessageProvider.kt:98-102 | every body is the base plus a piece of at most `limit - |base|` characters; the pieces are exactly the `chunked` pieces of each sorted text in turn, so they concatenate to the texts in page order |
| `Pagination.SortedTextsOrder` | src/main/java/com/pechuro/guitarbot/data/impl/DefaultMessageProvider.kt:100 | texts are taken sorted by page, all of them, stably |
| `Pagination.TextPieceBound` | src/main/java/com/pechuro/guitarbot/data/impl/DefaultMessageProvider.kt:101-102 | a text body is at most `limit + 2` characters |
| `Pagination.TextPieceReachesBound` | src/main/java/com/pechuro/guitarbot/data/impl/DefaultMessageProvider.kt:101-102 | the bound `limit + 2` is reached by a single text of `limit - |base|` characters |
| `Pagination.EmptyTextsGiveNoPiece` | src/main/java/com/pechuro/guitarbot/data/impl/DefaultMessageProvider.kt:99-103 | texts that are all empty give no page |
| `Pagination.LongTextTwoPages` | src/main/java/com/pechuro/guitarbot/data/impl/DefaultMessageProvider.kt:101-102 | 150 characters under a limit of 100 give two pages, the first 102 characters long |
| `Pagination.FormatFileName` | src/main/java/com/pechuro/guitarbot/data/impl/DefaultMessageProvider.kt:162 | a file line is the bullet, `" ["`, the escaped name, `"]("`, the url, `")"` and a newline, each at its stated position, and has the stated length |
| `Pagination.FormattedFilesAppend` | src/main/java/com/pechuro/guitarbot/data/impl/DefaultMessageProvider.kt:157 | the lines of two lists of files are the lines of each, in order |
| `Pagination.FormattedFilesLines` | src/main/java/com/pechuro/guitarbot/data/impl/DefaultMessageProvider.kt:157 | the rendering splits at any file boundary |
| `Pagination.MapToText` | src/main/java/com/pechuro/guitarbot/data/impl/DefaultMessageProvider.kt:154-160 | the rendering starts with the base; it is exactly the base iff there are no files, and otherwise continues with a blank line and the file lines |
| `Pagination.RenderingsAt` | src/main/java/com/pechuro/guitarbot/data/impl/DefaultMessageProvider.kt:110 | one rendering per batch, the `i`-th being the `i`-th batch mapped to text |
| `Pagination.FilePieces` | src/main/java/com/pechuro/guitarbot/data/impl/DefaultMessageProvider.kt:107-111 | file pagination fails iff there is a file and the base is at least `limit` long; every page is non-empty and at most `limit` long; no files means no page |
| `Pagination.FilePiecesLossless` | src/main/java/com/pechuro/guitarbot/data/impl/DefaultMessageProvider.kt:107-111 | the batches hold every file in order, at most `perPage` each and all but the last full; the pages are exactly the `chunked` pieces of each batch's rendering in turn, and concatenate to the renderings |
| `Pagination.FilePiecesPerRendering` | src/main/java/com/pechuro/guitarbot/data/impl/DefaultMessageProvider.kt:107-111 | with at least one batch, the file pages are the `chunked` pieces of each batch rendering, one rendering after the other |
| `Pagination.FileRenderingShape` | src/main/java/com/pechuro/guitarbot/data/impl/DefaultMessageProvider.kt:110 | every batch renders as the node's text, a blank line and its file lines |
| `Pagination.ThirteenFilesThreeBatches` | src/main/java/com/pechuro/guitarbot/data/impl/DefaultMessageProvider.kt:109 | 13 files with 6 per page make 3 batches |
| `Chain.PageIds` | src/main/java/com/pechuro/guitarbot/data/impl/DefaultMessageProvider.kt:116-137 | page 0 is the node itself, and page k is the (k-1)-th fresh id |
| `Chain.NextEntry` | src/main/java/com/pechuro/guitarbot/data/impl/DefaultMessageProvider.kt:141 | a page has a next-page link iff it is not the last |
| `Chain.CreatedPage` | src/main/java/com/pechuro/guitarbot/data/impl/DefaultMessageProvider.kt:116-137 | page k has body k, and its entries are the node's entries, preceded on pages k >= 1 by the previous-page marker |
| `Chain.ChainLinks` | src/main/java/com/pechuro/guitarbot/data/impl/DefaultMessageProvider.kt:116-143 | page k links forward to k+1 and back to k-1; it keeps every entry of the node; its entries are a permutation of those it was given |
| `Chain.LastPageEntries` | src/main/java/com/pechuro/guitarbot/data/impl/DefaultMessageProvider.kt:139-143 | the last page's `Content` entries are all entries of the node |
| `Chain.ChainPageHeader` | src/main/java/com/pechuro/guitarbot/data/impl/DefaultMessageProvider.kt:123-133 | page 0 keeps the node's parent and label; later pages are children of the node labelled "next page" |
| `Chain.ChainOrder` | src/main/java/com/pechuro/guitarbot/data/impl/DefaultMessageProvider.kt:139-152 | the exact entry order of a page: own marker, inherited previous-page entries, next link, then the others by key group |
| `Chain.EntryGroup` | src/main/java/com/pechuro/guitarbot/data/impl/DefaultMessageProvider.kt:141 | the next link falls in group 2, the own marker in group 1 |
| `Chain.PreviousEntries` | src/main/java/com/pechuro/guitarbot/data/impl/DefaultMessageProvider.kt:139-152 | a page's previous-page entries are its own marker, then the node's, in order |
| `Chain.TwoPreviousMarkers` | src/main/java/com/pechuro/guitarbot/data/impl/DefaultMessageProvider.kt:83-84 | file pages chained after text pages carry two previous-page markers |
| `Codec.ParseInteger` | src/main/java/com/pechuro/guitarbot/domain/BotMessageInfo.kt:13-16 | a parsed value is within the type's range |
| `Codec.ParseDecimal` | src/main/java/com/pechuro/guitarbot/domain/BotMessageInfo.kt:35-47 | parsing undoes the decimal form of every in-range value |
| `Codec.DecimalWithoutDelimiter` | src/main/java/com/pechuro/guitarbot/domain/BotMessageInfo.kt:9 | a number's decimal form never holds the delimiter |
| `Codec.SplitNormal` | src/main/java/com/pechuro/guitarbot/domain/BotMessageInfo.kt:12 | a `Normal` token splits into its two numbers |
| `Codec.SplitSearch` | src/main/java/com/pechuro/guitarbot/domain/BotMessageInfo.kt:12 | a `Search` token splits into its three numbers |
| `Codec.RoundTrip` | src/main/java/com/pechuro/guitarbot/domain/BotMessageInfo.kt:11-47 | `deserialize(serialize(x)) == x` for all 64-bit ids and chat ids |
| `Codec.UnrecognisedIff` | src/main/java/com/pechuro/guitarbot/domain/BotMessageInfo.kt:13-19 | null iff the first field is a number other than 1 and 2 |
| `Codec.DelimiterCount` | src/main/java/com/pechuro/guitarbot/domain/BotMessageInfo.kt:35-47 | a `Normal` token holds one delimiter, and a `Search` token two |
| `Codec.NormalTakesLastField` | src/main/java/com/pechuro/guitarbot/domain/BotMessageInfo.kt:14 | type 1 reads the last field: `"1_5_9"` is `Normal(9)`, `"1"` is `Normal(1)` |
| `Codec.SearchIgnoresExtraFields` | src/main/java/com/pechuro/guitarbot/domain/BotMessageInfo.kt:15-18 | type 2 ignores fields after the third |
| `Codec.SearchMissingField` | src/main/java/com/pechuro/guitarbot/domain/BotMessageInfo.kt:15-18 | a type-2 token with two fields throws |
| `Codec.MalformedTokens` | src/main/java/com/pechuro/guitarbot/domain/BotMessageInfo.kt:13-19 | an unknown type gives null; a non-numeric type or id throws |
| `Lookup.WfAdd` | src/main/java/com/pechuro/guitarbot/data/impl/DefaultMessageProvider.kt:127-133 | adding a fresh node whose entries lead deeper keeps the arena well formed |
| `Lookup.WfRetext` | src/main/java/com/pechuro/guitarbot/data/impl/DefaultMessageProvider.kt:120 | overwriting a node's text keeps the arena well formed |
| `Lookup.WfRelink` | src/main/java/com/pechuro/guitarbot/data/impl/DefaultMessageProvider.kt:141 | overwriting a node's entries with valid edges keeps the arena well formed |
| `Lookup.First` | src/main/kotlin/com/pechuro/guitarbot/data/MessageHolder.kt:74-82 | the first entry with the id: none iff no entry has the id, and otherwise an entry with the id before which no entry has it |
| `Lookup.FirstBack` | src/main/kotlin/com/pechuro/guitarbot/data/MessageHolder.kt:74-82 | the first `Back` entry: none iff there is none, and otherwise a `Back` entry with no `Back` entry before it |
| `Lookup.FirstContent` | src/main/java/com/pechuro/guitarbot/data/impl/DefaultMessageProvider.kt:87-96 | found iff some `Content` entry has the id |
| `Lookup.FindNodeIsFirst` | src/main/kotlin/com/pechuro/guitarbot/data/MessageHolder.kt:74-82 | the Kotlin lookup answers the first pre-order entry with the id |
| `Lookup.FindNodeInIsFirst` | src/main/kotlin/com/pechuro/guitarbot/data/MessageHolder.kt:77-79 | the `forEach` answers the first match in the walk of the remaining entries |
| `Lookup.FindContentIsFirst` | src/main/java/com/pechuro/guitarbot/data/impl/DefaultMessageProvider.kt:87-96 | the Java-set lookup answers the id iff the pre-order walk meets that node |
| `Lookup.FindContentInIsFirst` | src/main/java/com/pechuro/guitarbot/data/impl/DefaultMessageProvider.kt:91-93 | the same for the `forEach` over the remaining entries |
| `Lookup.VisitsInArena` | src/main/java/com/pechuro/guitarbot/data/impl/DefaultMessageProvider.kt:87-96 | every node the walk meets is in the arena |
| `Lookup.BackLookup` | src/main/kotlin/com/pechuro/guitarbot/domain/BotMessage.kt:25 | the Kotlin lookup of id -1 answers the first `Back` entry met |
| `Lookup.LookupsAgree` | src/main/kotlin/com/pechuro/guitarbot/domain/MessageHolder.kt:72-80 | for every id other than -1, the two lookups find the node together, and the Kotlin one answers that node |
| `Engine.LastPage` | src/main/java/com/pechuro/guitarbot/data/impl/DefaultMessageProvider.kt:105 | `lastOrNull() ?: parentNode`: the node itself for no page, and otherwise the last page id |
| `Engine.CreateNodes` | src/main/java/com/pechuro/guitarbot/data/impl/DefaultMessageProvider.kt:116-137 | the arena afterwards holds every page as `CreatedPage`; the counter advances by pages - 1; other nodes are unchanged |
| `Engine.ConnectNodes` | src/main/java/com/pechuro/guitarbot/data/impl/DefaultMessageProvider.kt:139-143 | every page becomes `Connected` (next link in front, then sorted); other nodes are unchanged |
| `Engine.Paginate` | src/main/java/com/pechuro/guitarbot/data/impl/DefaultMessageProvider.kt:103-105 | the chain is `Paginated`; the node keeps its entries; the returned page is `LastPage` and leads deeper |
| `Engine.AddText` | src/main/java/com/pechuro/guitarbot/data/impl/DefaultMessageProvider.kt:98-105 | fails iff `TextPieces` does, changing nothing; otherwise the text pages are `Paginated` |
| `Engine.AddFiles` | src/main/java/com/pechuro/guitarbot/data/impl/DefaultMessageProvider.kt:107-114 | fails iff `FilePieces` does, changing nothing; no file changes nothing; otherwise the file pages are `Paginated` |
| `Engine.LinkEntries` | src/main/java/com/pechuro/guitarbot/data/impl/DefaultMessageProvider.kt:69-82 | the node's entries become exactly the folder children followed by the `Back` marker to its parent, if it has one; nothing else in the arena changes |
| `Engine.AddListing` | src/main/java/com/pechuro/guitarbot/data/impl/DefaultMessageProvider.kt:83-84 | fails iff the text pagination or the file pagination on the last text page fails; on success the texts are `Paginated` on the node and the files `Paginated` on the last text page (`LastPage`), with no page meaning no change; the node keeps its entries and gains only "next page" links; other old nodes are unchanged |
| `Engine.LastTextPage` | src/main/java/com/pechuro/guitarbot/data/impl/DefaultMessageProvider.kt:83-84 | the page `addFiles` starts from: the node itself without text pages, and otherwise a page whose text is the last text body |
| `Engine.ListingPagedFrom` | src/main/java/com/pechuro/guitarbot/data/impl/DefaultMessageProvider.kt:83-84 | a successful `AddListing` leaves the text chain and then the file chain on its last page in the arena (`ListingPaged`) |
| `Engine.ListingFirstPage` | src/main/java/com/pechuro/guitarbot/data/impl/DefaultMessageProvider.kt:83-84 | the node then shows the first text page, or the first file page when there is one text page and some files, or its old text when there is no page |
| `Engine.ListingPagedFrame` | src/main/java/com/pechuro/guitarbot/data/impl/DefaultMessageProvider.kt:83-84 | those pages stay in place while the node and the nodes made since the pagination began are untouched |
| `Engine.AddFolders` | src/main/java/com/pechuro/guitarbot/data/impl/DefaultMessageProvider.kt:69-81 | on success one fresh child per folder, in listing order and increasing id, labelled with the folder name, with the selected text of the escaped name, each expanded in full from its folder (`Loaded`, pages included) |
| `Engine.AddFolder` | src/main/java/com/pechuro/guitarbot/data/impl/DefaultMessageProvider.kt:71-80 | a fresh child of the node, labelled with the folder name, then expanded; on success it is `Loaded` from the folder id, starting from the selected text of the escaped name, which it keeps when its folder has no texts or files; old nodes are unchanged |
| `Engine.LoadRemoteMessages` | src/main/java/com/pechuro/guitarbot/data/impl/DefaultMessageProvider.kt:67-85 | on success `node` is `Loaded` from the source id: its entries are the expanded folder children and the back marker, its texts are paged on it and its files on the last text page, from its old text, and each child is expanded in turn; other old nodes are unchanged |
| `Engine.LoadedFrame` | src/main/java/com/pechuro/guitarbot/data/impl/DefaultMessageProvider.kt:67-85 | an expanded subtree stays expanded while its root and the nodes made during its expansion are untouched |
| `Engine.LoadedRootEntries` | src/main/java/com/pechuro/guitarbot/data/impl/DefaultMessageProvider.kt:82 | a parentless expanded node, such as the root, holds no `Back` marker |
| `Engine.ListingLoaded` | src/main/java/com/pechuro/guitarbot/data/impl/DefaultMessageProvider.kt:69-84 | the folder loop, the entry assignment and the pagination together leave the node `Loaded` |
| `Engine.TreesKept` | src/main/java/com/pechuro/guitarbot/data/impl/DefaultMessageProvider.kt:79-84 | the expansions of the children survive the entry assignment and the pagination of their parent |
| `Engine.StartSearch` | src/main/java/com/pechuro/guitarbot/data/impl/DefaultMessageProvider.kt:38-47 | a fresh parentless root with the found/not-found text, its files paginated, and no old node changed |
| `Engine.MessageProvider.constructor` | src/main/kotlin/com/pechuro/guitarbot/data/MessageHolder.kt:19-29 | the root has the escaped main text and no entries; the cache is empty |
| `Engine.MessageProvider.Sync` | src/main/java/com/pechuro/guitarbot/data/impl/DefaultMessageProvider.kt:60-65 | on success the root is `Loaded` from source id `""` starting from its old text, with its pages and every child's pages, holds no `Back` marker, and keeps its text when the root listing has no texts or files; the cache is untouched |
| `Engine.MessageProvider.Search` | src/main/java/com/pechuro/guitarbot/data/impl/DefaultMessageProvider.kt:37-50 | a new search tree (`SearchTree`), cached for the chat on success; old nodes are unchanged |
| `Engine.MessageProvider.TreeRoot` | src/main/java/com/pechuro/guitarbot/data/impl/DefaultMessageProvider.kt:53-56 | `Normal` is the main root; `Search` is the chat's cached root, absent iff not cached |
| `Engine.MessageProvider.Get` | src/main/java/com/pechuro/guitarbot/data/impl/DefaultMessageProvider.kt:52-58 | the first pre-order `Content` node with the token's id, from the token's tree root |
| `Engine.MessageProvider.FindMessage` | src/main/kotlin/com/pechuro/guitarbot/data/MessageHolder.kt:46-52 | the first pre-order entry with the id; agrees with `Get` for ids other than -1; for -1, the first `Back` marker |
| `Engine.CreateDefaultProvider` | src/main/java/com/pechuro/guitarbot/data/impl/DefaultMessageProvider.kt:21-35 | a fresh, valid provider with the default settings and root 0; on success the main tree, pages included, is `Loaded` below it from the escaped main text, which it keeps when the root listing has no texts or files |

## Left out

- The three engine copies are one class. They differ only in three places,
  each modelled as said here:
  - the bullet: `Pagination.BULLET`, or `LEGACY_BULLET` for
    domain/MessageHolder.kt, a `Settings` field;
  - the lookup: `Get` versus `FindMessage`;
  - whether `sync()` runs at construction: `CreateDefaultProvider` versus
    the constructor.
- domain/MessageHolder.kt folds `connectNodes` into `createNodes`. Its
  `getTextForFiles` and `getFormattedFiles` are `MapToText` and
  `FormattedFiles`.
- BotMessageType.kt and MessageInfo.kt are the same code as BotMessageInfo.kt
  under other names, so `Codec` models one copy.
- The id generator is a process-wide `AtomicLong`. Here it is a per-instance
  counter without 64-bit wrap-around.
- Concurrency is left out: the counter's atomicity and the unsynchronised
  cache.
- The repository (Google Drive) is input data:
  - `getBySourceId` and `findFiles` are maps;
  - the `rank` map witnesses that the folder structure is finite;
  - network errors are not modelled.
- The resource strings (`getStringFromResources`) are parameters. The
  `format` call of `message.selectedText` is an arbitrary function.
- Characters are Dafny `char`s:
  - no Unicode digits in `toInt` or `toLong`;
  - `chunked` counts UTF-16 code units, as Kotlin does, only when the input
    holds no surrogate pairs.
- The text of a node is not reset before it is expanded again. A second
  `sync()` therefore appends the texts to the old page text, as the source
  does; the model keeps that behaviour and states no more about it.
- Engine.LoadRemoteMessages: does not state when `ok` is false, only that a
  failure leaves every old node other than `node` unchanged. A failure is a
  "chunked" throw deep in the recursion.
- Engine.CreateDefaultProvider: when "chunked" throws during the sync, the
  Kotlin constructor throws and no provider exists; the model returns the
  provider with `ok` false.
