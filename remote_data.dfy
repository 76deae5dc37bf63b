/**
 * The entries a remote listing is made of (domain/RemoteData.kt), and the
 * repository the engine reads them from, given as input data: a fixed answer
 * for every source id and for every search predicate.
 */
module Remote {

  /** `Folder(name, id)`, `File(name, mimeType, url)`, `Text(page, text)`. */
  datatype RemoteData =
    | Folder(name: string, id: string)
    | File(name: string, mimeType: string, url: string)
    | Text(page: int, text: string)

  type FolderEntry = d: RemoteData | d.Folder? witness Folder("", "")
  type FileEntry = d: RemoteData | d.File? witness File("", "", "")
  type TextEntry = d: RemoteData | d.Text? witness Text(0, "")

  /** `filterIsInstance<RemoteData.Folder>()`. */
  function FilterFolders(s: seq<RemoteData>): (r: seq<FolderEntry>)
    ensures forall d :: d in r <==> d in s && d.Folder?
    ensures |r| <= |s|
  {
    if s == [] then []
    else (if s[0].Folder? then [s[0]] else []) + FilterFolders(s[1..])
  }

  /** `filterIsInstance<RemoteData.File>()`. */
  function FilterFiles(s: seq<RemoteData>): (r: seq<FileEntry>)
    ensures forall d :: d in r <==> d in s && d.File?
    ensures |r| <= |s|
  {
    if s == [] then []
    else (if s[0].File? then [s[0]] else []) + FilterFiles(s[1..])
  }

  /** `filterIsInstance<RemoteData.Text>()`. */
  function FilterTexts(s: seq<RemoteData>): (r: seq<TextEntry>)
    ensures forall d :: d in r <==> d in s && d.Text?
    ensures |r| <= |s|
  {
    if s == [] then []
    else (if s[0].Text? then [s[0]] else []) + FilterTexts(s[1..])
  }

  /** The filters keep the listing's order: filtering a concatenation is
      the concatenation of the filtered parts. */
  lemma {:induction false} FilterFoldersAppend(a: seq<RemoteData>, b: seq<RemoteData>)
    ensures FilterFolders(a + b) == FilterFolders(a) + FilterFolders(b)
  {
    if a == [] {
      assert a + b == b;
    } else {
      assert (a + b)[0] == a[0] && (a + b)[1..] == a[1..] + b;
      FilterFoldersAppend(a[1..], b);
    }
  }

  lemma {:induction false} FilterFilesAppend(a: seq<RemoteData>, b: seq<RemoteData>)
    ensures FilterFiles(a + b) == FilterFiles(a) + FilterFiles(b)
  {
    if a == [] {
      assert a + b == b;
    } else {
      assert (a + b)[0] == a[0] && (a + b)[1..] == a[1..] + b;
      FilterFilesAppend(a[1..], b);
    }
  }

  lemma {:induction false} FilterTextsAppend(a: seq<RemoteData>, b: seq<RemoteData>)
    ensures FilterTexts(a + b) == FilterTexts(a) + FilterTexts(b)
  {
    if a == [] {
      assert a + b == b;
    } else {
      assert (a + b)[0] == a[0] && (a + b)[1..] == a[1..] + b;
      FilterTextsAppend(a[1..], b);
    }
  }

  /** A list of files, as `findFiles` answers, is its own file filter. */
  lemma {:induction false} FilterFilesOfFiles(files: seq<FileEntry>)
    ensures FilterFiles(files) == files
  {
    if files != [] {
      FilterFilesOfFiles(files[1..]);
    }
  }

  /** A listing splits into its three kinds: every entry is in exactly one
      of the filters. */
  lemma {:induction false} FilterPartition(s: seq<RemoteData>)
    ensures |FilterFolders(s)| + |FilterFiles(s)| + |FilterTexts(s)| == |s|
  {
    if s != [] {
      FilterPartition(s[1..]);
    }
  }

  /**
   * The repository: `getBySourceId(id)` answers `listings[id]` and
   * `findFiles(query)` answers `matches[query]`, an absent key being
   * an empty list. `rank` witnesses that the folder structure is finite and
   * acyclic: a folder's rank is below that of the listing holding it.
   */
  datatype Repository = Repository(
    listings: map<string, seq<RemoteData>>,
    matches: map<string, seq<FileEntry>>,
    rank: map<string, nat>)
  {
    function GetBySourceId(id: string): seq<RemoteData>
    {
      if id in listings then listings[id] else []
    }

    function FindFiles(query: string): seq<FileEntry>
    {
      if query in matches then matches[query] else []
    }

    /** The termination measure of the recursive folder expansion. */
    function Measure(id: string): nat
    {
      if id in rank then rank[id] + 1 else 0
    }

    ghost predicate Valid()
    {
      forall id, d :: id in listings && d in listings[id] && d.Folder? ==> Measure(d.id) < Measure(id)
    }

    /** In a valid repository every folder of a listing is ranked strictly
        below the listing it came from. */
    lemma FolderDescends(id: string, f: FolderEntry)
      requires Valid() && f in FilterFolders(GetBySourceId(id))
      ensures Measure(f.id) < Measure(id)
    {
    }
  }
}
