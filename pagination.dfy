/**
 * What `addText` and `addFiles` compute before they touch the tree: the list
 * of page bodies. Text entries are sorted by page number and each text is cut
 * into pieces of at most `limit - |base|` characters, every piece becoming
 * the body `base + "\n\n" + piece`; files are taken in batches of `perPage`,
 * each batch rendered as `base`, a blank line and one bullet line per file,
 * and each rendering is cut into pieces of at most `limit - |base|`
 * characters. `limit` is `MAX_TEXT_LENGTH` (4096) and `perPage` is
 * `Configuration.App.MAX_FILES_PER_PAGE` (6).
 */
module Pagination {
  import opened Wrappers
  import opened Lists
  import opened Markdown
  import opened Remote

  const MAX_TEXT_LENGTH: int := 4096
  const MAX_FILES_PER_PAGE: nat := 6

  /** The bullet of DefaultMessageProvider.kt and data/MessageHolder.kt. */
  const BULLET: string := "\U{2022}"
  /** The bullet of domain/MessageHolder.kt: the UTF-8 bytes of the bullet
      read as Windows-1252 text. */
  const LEGACY_BULLET: string := "\U{00E2}\U{20AC}\U{00A2}"

  const SEPARATOR: string := "\n\n"

  // ---------------------------------------------------------------------
  // Text pages.

  function PageKey(): TextEntry -> int
  {
    (t: TextEntry) => t.page
  }

  /** `filterIsInstance<RemoteData.Text>().sortedBy { it.page }`. */
  function SortedTexts(entries: seq<RemoteData>): seq<TextEntry>
  {
    SortBy(FilterTexts(entries), PageKey())
  }

  function Bodies(texts: seq<TextEntry>): (r: seq<string>)
    ensures |r| == |texts|
    ensures forall i :: 0 <= i < |r| ==> r[i] == texts[i].text
  {
    if texts == [] then [] else [texts[0].text] + Bodies(texts[1..])
  }

  /** `map { "$base\n\n$it" }`. */
  function WithBase(base: string, pieces: seq<string>): (r: seq<string>)
    ensures |r| == |pieces|
    ensures forall i :: 0 <= i < |r| ==> r[i] == base + SEPARATOR + pieces[i]
  {
    if pieces == [] then [] else [base + SEPARATOR + pieces[0]] + WithBase(base, pieces[1..])
  }

  /** The pieces the texts of a listing are cut into, `chunk` characters at a
      time. */
  function TextChunks(entries: seq<RemoteData>, chunk: nat): seq<string>
    requires chunk > 0
  {
    ChunkAll(Bodies(SortedTexts(entries)), chunk)
  }

  /**
   * The page bodies `addText` creates on a node with text `base`, or `None`
   * where Kotlin's `chunked` throws because the chunk size `limit - |base|`
   * is not positive (it is only called when there is a text entry).
   */
  function TextPieces(entries: seq<RemoteData>, base: string, limit: int): (r: Option<seq<string>>)
    ensures r.None? <==> FilterTexts(entries) != [] && limit <= |base|
    ensures FilterTexts(entries) == [] ==> r == Some([])
  {
    var texts := SortedTexts(entries);
    SortByProperties(FilterTexts(entries), PageKey());
    if texts == [] then Some([])
    else if limit - |base| <= 0 then None
    else Some(WithBase(base, TextChunks(entries, limit - |base|)))
  }

  /**
   * Text pagination loses nothing and keeps the page order: every body is
   * `base`, a blank line and a piece of at most `limit - |base|` (non-zero)
   * characters, and the pieces concatenate to the texts in page order.
   */
  lemma TextPiecesLossless(entries: seq<RemoteData>, base: string, limit: int)
    requires TextPieces(entries, base, limit).Some? && FilterTexts(entries) != []
    ensures var bodies := TextPieces(entries, base, limit).value;
            var chunks := TextChunks(entries, limit - |base|);
            && bodies == WithBase(base, chunks)
            && Flatten(chunks) == Flatten(Bodies(SortedTexts(entries)))
            && (forall i :: 0 <= i < |chunks| ==> 0 < |chunks[i]| <= limit - |base|)
            && chunks == Flatten(ChunkEach(Bodies(SortedTexts(entries)), limit - |base|))
  {
    SortByProperties(FilterTexts(entries), PageKey());
    ChunkAllPerString(Bodies(SortedTexts(entries)), limit - |base|);
  }

  /** The texts are taken in page order, all of them and each once, texts
      with equal page numbers keeping their listing order. */
  lemma SortedTextsOrder(entries: seq<RemoteData>)
    ensures SortedByKey(SortedTexts(entries), PageKey())
    ensures multiset(SortedTexts(entries)) == multiset(FilterTexts(entries))
    ensures forall k :: WithKey(SortedTexts(entries), PageKey(), k) == WithKey(FilterTexts(entries), PageKey(), k)
  {
    SortByProperties(FilterTexts(entries), PageKey());
  }

  /** A text page body is at most `limit + 2` characters: the separator is not
      counted against the limit. */
  lemma TextPieceBound(entries: seq<RemoteData>, base: string, limit: int, i: nat)
    requires TextPieces(entries, base, limit).Some?
    requires i < |TextPieces(entries, base, limit).value|
    ensures |TextPieces(entries, base, limit).value[i]| <= limit + 2
  {
    var chunks := TextChunks(entries, limit - |base|);
    assert TextPieces(entries, base, limit).value[i] == base + SEPARATOR + chunks[i];
  }

  /** The bound `limit + 2` is reached: a single text of `limit - |base|`
      characters gives one body of `limit + 2` characters (4098 for the real
      limit). */
  lemma TextPieceReachesBound(base: string, limit: int, text: string)
    requires |base| < limit && |text| == limit - |base|
    ensures TextPieces([Text(0, text)], base, limit) == Some([base + SEPARATOR + text])
    ensures |base + SEPARATOR + text| == limit + 2
  {
    var entries := [Text(0, text)];
    assert FilterTexts(entries) == [Text(0, text)] by {
      assert entries[1..] == [];
    }
    var t: TextEntry := Text(0, text);
    SortBySingle(t, PageKey());
    var sorted := SortedTexts(entries);
    assert sorted == [Text(0, text)];
    assert Bodies(sorted) == [text];
    var chunk := limit - |base|;
    assert Chunked(text, chunk) == [text];
    assert ChunkAll([text], chunk) == [text] + ChunkAll([], chunk);
    assert TextChunks(entries, chunk) == [text];
    assert WithBase(base, [text]) == [base + SEPARATOR + text];
  }

  /** Texts that are all empty give no page at all. */
  lemma EmptyTextsGiveNoPiece(entries: seq<RemoteData>, base: string, limit: int)
    requires |base| < limit
    requires forall d :: d in entries && d.Text? ==> d.text == ""
    ensures TextPieces(entries, base, limit) == Some([])
  {
    var texts := SortedTexts(entries);
    if texts != [] {
      SortByMembers(FilterTexts(entries), PageKey());
      var bodies := Bodies(texts);
      assert forall i :: 0 <= i < |bodies| ==> |bodies[i]| == 0 by {
        forall i | 0 <= i < |bodies| ensures |bodies[i]| == 0 {
          assert texts[i] in texts;
        }
      }
      ChunkAllEmpty(bodies, limit - |base|);
    }
  }

  /**
   * One text of 150 characters under a limit of 100, on a node whose text
   * has at most 25 characters, gives exactly two pages, and the first page
   * body is 102 characters long, more than the limit.
   */
  lemma LongTextTwoPages(base: string)
    requires |base| <= 25
    ensures var r := TextPieces([Text(0, seq(150, _ => 'A'))], base, 100);
            r.Some? && |r.value| == 2 && |r.value[0]| == 102
  {
    var text := seq(150, _ => 'A');
    var entries := [Text(0, text)];
    assert FilterTexts(entries) == [Text(0, text)] by {
      assert entries[1..] == [];
    }
    var t: TextEntry := Text(0, text);
    SortBySingle(t, PageKey());
    assert SortedTexts(entries) == [Text(0, text)];
    assert Bodies(SortedTexts(entries)) == [text];
    var chunk := 100 - |base|;
    var pieces := Chunked(text, chunk);
    assert ChunkAll([text], chunk) == pieces + ChunkAll([], chunk);
    ChunkedCount(text, chunk);
    assert |pieces| <= 1 ==> |pieces| * chunk <= chunk;
    assert |pieces| >= 3 ==> (|pieces| - 1) * chunk >= 2 * chunk;
    assert |pieces[0]| == chunk;
  }

  // ---------------------------------------------------------------------
  // File pages.

  /** `formatFileName()`: `"<bullet> [<escaped name>](<url>)\n"`. */
  function FormatFileName(bullet: string, f: FileEntry): (r: string)
    ensures |r| == |bullet| + |f.name| + ReservedCount(f.name) + |f.url| + 6
    ensures r[..|bullet|] == bullet && r[|r| - 1] == '\n'
    ensures r[|bullet|..|bullet| + 2] == " ["
    ensures r[|bullet| + 2..|bullet| + 2 + |Escaped(f.name)|] == Escaped(f.name)
    ensures r[|bullet| + 2 + |Escaped(f.name)|..|r| - 1] == "](" + f.url + ")"
  {
    var name := Escaped(f.name);
    var link := "](" + f.url + ")";
    var r := bullet + " [" + name + link + "\n";
    assert r[..|bullet|] == bullet && r[|bullet|..|bullet| + 2] == " [";
    assert r[|bullet| + 2..|bullet| + 2 + |name|] == name;
    assert r[|bullet| + 2 + |name|..|r| - 1] == link;
    r
  }

  /** `joinToString(separator = "") { it.formatFileName() }`. */
  function FormattedFiles(bullet: string, files: seq<FileEntry>): string
  {
    if files == [] then "" else FormatFileName(bullet, files[0]) + FormattedFiles(bullet, files[1..])
  }

  /** The lines of consecutive batches are the lines of all their files. */
  lemma {:induction false} FormattedFilesAppend(bullet: string, a: seq<FileEntry>, b: seq<FileEntry>)
    ensures FormattedFiles(bullet, a + b) == FormattedFiles(bullet, a) + FormattedFiles(bullet, b)
  {
    if a == [] {
      assert a + b == b;
    } else {
      assert (a + b)[0] == a[0] && (a + b)[1..] == a[1..] + b;
      FormattedFilesAppend(bullet, a[1..], b);
    }
  }

  /** Every file contributes one line, in order: the rendering of a batch is
      the rendering of its first file followed by that of the others. */
  lemma FormattedFilesLines(bullet: string, files: seq<FileEntry>, i: nat)
    requires i <= |files|
    ensures FormattedFiles(bullet, files) ==
            FormattedFiles(bullet, files[..i]) + FormattedFiles(bullet, files[i..])
  {
    assert files == files[..i] + files[i..];
    FormattedFilesAppend(bullet, files[..i], files[i..]);
  }

  /** `mapToText(base)` / `getTextForFiles(base, files)`: `base` alone for no
      files, otherwise `base`, a blank line and the file lines. */
  function MapToText(base: string, bullet: string, files: seq<FileEntry>): (r: string)
    ensures |r| >= |base| && r[..|base|] == base
    ensures files == [] <==> |r| == |base|
    ensures files != [] ==> r[|base|..] == SEPARATOR + FormattedFiles(bullet, files)
  {
    if files == [] then base
    else
      var lines := SEPARATOR + FormattedFiles(bullet, files);
      assert (base + lines)[..|base|] == base && (base + lines)[|base|..] == lines;
      base + lines
  }

  function Renderings(base: string, bullet: string, batches: seq<seq<FileEntry>>): seq<string>
  {
    if batches == [] then [] else [MapToText(base, bullet, batches[0])] + Renderings(base, bullet, batches[1..])
  }

  /** The batches of `MAX_FILES_PER_PAGE` files, `chunked(perPage)`. */
  function Batches(entries: seq<RemoteData>, perPage: nat): seq<seq<FileEntry>>
    requires perPage > 0
  {
    Chunked(FilterFiles(entries), perPage)
  }

  /**
   * The page bodies `addFiles` creates on a node with text `base`, or `None`
   * where the chunk size `limit - |base|` is not positive and there is a file.
   * With no file there is no rendering and no page.
   */
  function FilePieces(entries: seq<RemoteData>, base: string, bullet: string, limit: int, perPage: nat)
    : (r: Option<seq<string>>)
    requires perPage > 0
    ensures r.None? <==> FilterFiles(entries) != [] && limit <= |base|
    ensures r.Some? ==> forall i :: 0 <= i < |r.value| ==> 0 < |r.value[i]| <= limit
    ensures FilterFiles(entries) == [] ==> r == Some([])
  {
    var batches := Batches(entries, perPage);
    if batches == [] then Some([])
    else if limit - |base| <= 0 then None
    else Some(ChunkAll(Renderings(base, bullet, batches), limit - |base|))
  }

  /**
   * File pagination loses nothing: the batches hold every file in order, at
   * most `perPage` each and all but the last exactly `perPage`, and the
   * pages concatenate to the batch renderings.
   */
  lemma FilePiecesLossless(entries: seq<RemoteData>, base: string, bullet: string, limit: int, perPage: nat)
    requires perPage > 0 && FilePieces(entries, base, bullet, limit, perPage).Some?
    ensures var batches := Batches(entries, perPage);
            && Flatten(batches) == FilterFiles(entries)
            && (forall i :: 0 <= i < |batches| ==> 0 < |batches[i]| <= perPage)
            && (forall i :: 0 <= i < |batches| - 1 ==> |batches[i]| == perPage)
            && Flatten(FilePieces(entries, base, bullet, limit, perPage).value) ==
               Flatten(Renderings(base, bullet, batches))
            && (batches != [] ==>
                  FilePieces(entries, base, bullet, limit, perPage).value ==
                  Flatten(ChunkEach(Renderings(base, bullet, batches), limit - |base|)))
  {
    if Batches(entries, perPage) != [] {
      FilePiecesPerRendering(entries, base, bullet, limit, perPage);
    }
  }

  /** Each batch rendering is cut into pages on its own. */
  lemma FilePiecesPerRendering(entries: seq<RemoteData>, base: string, bullet: string, limit: int, perPage: nat)
    requires perPage > 0 && FilePieces(entries, base, bullet, limit, perPage).Some?
    requires Batches(entries, perPage) != []
    ensures limit - |base| > 0
    ensures FilePieces(entries, base, bullet, limit, perPage).value ==
            Flatten(ChunkEach(Renderings(base, bullet, Batches(entries, perPage)), limit - |base|))
  {
    var batches := Batches(entries, perPage);
    assert limit - |base| > 0;
    var chunk: nat := limit - |base|;
    var renderings := Renderings(base, bullet, batches);
    assert FilePieces(entries, base, bullet, limit, perPage) == Some(ChunkAll(renderings, chunk));
    ChunkAllPerString(renderings, chunk);
  }

  /** Every batch renders as `base`, a blank line and its file lines, so the
      pages of a node repeat its text once per batch. */
  lemma FileRenderingShape(entries: seq<RemoteData>, base: string, bullet: string, perPage: nat, i: nat)
    requires perPage > 0 && i < |Batches(entries, perPage)|
    ensures var batches := Batches(entries, perPage);
            && |Renderings(base, bullet, batches)| == |batches|
            && Renderings(base, bullet, batches)[i] == base + (SEPARATOR + FormattedFiles(bullet, batches[i]))
  {
    var batches := Batches(entries, perPage);
    RenderingsAt(base, bullet, batches, i);
    assert batches[i] != [];
  }

  /** One rendering per batch, in batch order. */
  lemma {:induction false} RenderingsAt(base: string, bullet: string, batches: seq<seq<FileEntry>>, i: nat)
    requires i < |batches|
    ensures |Renderings(base, bullet, batches)| == |batches|
    ensures Renderings(base, bullet, batches)[i] == MapToText(base, bullet, batches[i])
  {
    if |batches| > 1 {
      RenderingsAt(base, bullet, batches[1..], if i > 0 then i - 1 else 0);
    }
  }

  /** Thirteen files with six files per page make three batches. */
  lemma ThirteenFilesThreeBatches(entries: seq<RemoteData>)
    requires |FilterFiles(entries)| == 13
    ensures |Batches(entries, MAX_FILES_PER_PAGE)| == 3
  {
    var n := |Batches(entries, MAX_FILES_PER_PAGE)|;
    ChunkedCount(FilterFiles(entries), MAX_FILES_PER_PAGE);
    assert n <= 2 ==> n * 6 <= 12;
    assert n >= 4 ==> (n - 1) * 6 >= 18;
  }
}
