/**
 * The page chain `createNodes` and `connectNodes` build from a node `p` and
 * a list of page bodies. Page 0 is `p` itself with its text replaced by the
 * first body; page k >= 1 is a fresh node labelled "next page", whose parent
 * is `p` and whose entries are a "previous page" marker for page k - 1
 * followed by the entries `p` had when the chain was started. Linking then
 * puts page k + 1 in front of the entries of page k and sorts every page's
 * entries by `SortKey`.
 */
module Chain {
  import opened Wrappers
  import opened Lists
  import opened Messages

  /** The ids of the pages: `p`, then fresh ids from `start` on. */
  function PageIds(p: int, start: int, n: nat): (r: seq<int>)
    ensures |r| == n
    ensures n > 0 ==> r[0] == p
    ensures forall k :: 1 <= k < n ==> r[k] == start + k - 1
  {
    seq(n, k => if k == 0 then p else start + k - 1)
  }

  /** The marker `createNodes` puts on page k >= 1. */
  function PreviousMarker(res: Strings, pages: seq<int>, k: int): BotMessage
    requires 1 <= k < |pages|
  {
    Back(Some(pages[k - 1]), res.previousPage)
  }

  /** `listOfNotNull(getOrNull(k + 1))`. */
  function NextEntry(res: Strings, pages: seq<int>, k: int): (r: seq<BotMessage>)
    requires 0 <= k < |pages|
    ensures |r| <= 1
    ensures r != [] <==> k + 1 < |pages|
  {
    if k + 1 < |pages| then [Content(pages[k + 1], res.nextPage)] else []
  }

  /** The entries of page k when `createNodes` has made it. */
  function CreatedEntries(res: Strings, pages: seq<int>, baseNodes: seq<BotMessage>, k: int): seq<BotMessage>
    requires 0 <= k < |pages|
  {
    if k == 0 then baseNodes else [PreviousMarker(res, pages, k)] + baseNodes
  }

  /** Page k as `createNodes` leaves it; `base` is node `p` before. */
  function CreatedPage(res: Strings, p: int, base: Node, pages: seq<int>, bodies: seq<string>, k: int): (n: Node)
    requires |pages| == |bodies| && 0 <= k < |pages|
    ensures n.text == bodies[k]
    ensures n.nodes == CreatedEntries(res, pages, base.nodes, k)
  {
    if k == 0 then base.(text := bodies[0])
    else Node(Some(p), res.nextPage, bodies[k], CreatedEntries(res, pages, base.nodes, k))
  }

  /** `connectNodes`: the next page in front, then the stable sort. */
  function Connected(res: Strings, pages: seq<int>, n: Node, k: int): Node
    requires 0 <= k < |pages|
  {
    n.(nodes := SortedNodes(res, NextEntry(res, pages, k) + n.nodes))
  }

  /** Page k of the finished chain. */
  function ChainPage(res: Strings, p: int, base: Node, pages: seq<int>, bodies: seq<string>, k: int): Node
    requires |pages| == |bodies| && 0 <= k < |pages|
  {
    Connected(res, pages, CreatedPage(res, p, base, pages, bodies, k), k)
  }

  /**
   * The chain is linked both ways and keeps the entries of `p`: page k holds
   * page k + 1 under the "next page" label, page k >= 1 holds a "previous
   * page" marker for page k - 1, every entry of `p` is on every page, and
   * nothing else is.
   */
  lemma ChainLinks(res: Strings, p: int, base: Node, pages: seq<int>, bodies: seq<string>, k: int)
    requires |pages| == |bodies| && 0 <= k < |pages|
    ensures var page := ChainPage(res, p, base, pages, bodies, k);
            && page.text == bodies[k]
            && (k + 1 < |pages| ==> Content(pages[k + 1], res.nextPage) in page.nodes)
            && (k > 0 ==> Back(Some(pages[k - 1]), res.previousPage) in page.nodes)
            && (forall m :: m in base.nodes ==> m in page.nodes)
            && multiset(page.nodes) ==
               multiset(NextEntry(res, pages, k) + CreatedEntries(res, pages, base.nodes, k))
  {
    var entries := NextEntry(res, pages, k) + CreatedEntries(res, pages, base.nodes, k);
    SortedNodesMembers(res, entries);
    if k + 1 < |pages| { assert entries[0] == Content(pages[k + 1], res.nextPage); }
    if k > 0 { assert PreviousMarker(res, pages, k) in entries; }
  }

  /** The last page links to no further page: every `Content` entry on it
      is an entry of `p`. */
  lemma LastPageEntries(res: Strings, p: int, base: Node, pages: seq<int>, bodies: seq<string>)
    requires |pages| == |bodies| > 0
    ensures forall m :: m in ChainPage(res, p, base, pages, bodies, |pages| - 1).nodes && m.Content? ==>
              m in base.nodes
  {
    var k := |pages| - 1;
    var entries := CreatedEntries(res, pages, base.nodes, k);
    assert NextEntry(res, pages, k) + entries == entries;
    SortedNodesMembers(res, entries);
  }

  /** Pages after the first are labelled "next page" and belong to `p`; the
      first page keeps the identity and label of `p`. */
  lemma ChainPageHeader(res: Strings, p: int, base: Node, pages: seq<int>, bodies: seq<string>, k: int)
    requires |pages| == |bodies| && 0 <= k < |pages|
    ensures var page := ChainPage(res, p, base, pages, bodies, k);
            && (k == 0 ==> page.parent == base.parent && page.title == base.title)
            && (k > 0 ==> page.parent == Some(p) && page.title == res.nextPage)
  {
  }

  /**
   * The order of a page's entries, with distinct navigation labels: its own
   * "previous page" marker, the "previous page" entries inherited from `p`,
   * the link to the next page, then the remaining entries of `p` grouped as
   * `SortKey` says.
   */
  lemma ChainOrder(res: Strings, p: int, base: Node, pages: seq<int>, bodies: seq<string>, k: int)
    requires res.Distinct()
    requires |pages| == |bodies| && 0 <= k < |pages|
    ensures ChainPage(res, p, base, pages, bodies, k).nodes ==
            (if k > 0 then [PreviousMarker(res, pages, k)] else []) + Group(res, base.nodes, 1) +
            NextEntry(res, pages, k) + Group(res, base.nodes, 2) +
            Group(res, base.nodes, 3) + Group(res, base.nodes, 4)
  {
    var next := NextEntry(res, pages, k);
    var own: seq<BotMessage> := if k > 0 then [PreviousMarker(res, pages, k)] else [];
    var entries := next + (own + base.nodes);
    assert CreatedEntries(res, pages, base.nodes, k) == own + base.nodes;
    var g1, g2, g3, g4 := Group(res, base.nodes, 1), Group(res, base.nodes, 2),
                          Group(res, base.nodes, 3), Group(res, base.nodes, 4);
    var sorted := SortedNodes(res, entries);
    SortedNodesGroups(res, entries);
    EntryGroup(res, next, own, base.nodes, 1);
    EntryGroup(res, next, own, base.nodes, 2);
    EntryGroup(res, next, own, base.nodes, 3);
    EntryGroup(res, next, own, base.nodes, 4);
    Regroup(sorted, Group(res, entries, 1), Group(res, entries, 2), Group(res, entries, 3), Group(res, entries, 4),
            own, g1, next, g2, g3, g4);
  }

  /** Regrouping a concatenation of four groups. */
  lemma Regroup<T>(s: seq<T>, x1: seq<T>, x2: seq<T>, x3: seq<T>, x4: seq<T>,
                   own: seq<T>, g1: seq<T>, next: seq<T>, g2: seq<T>, g3: seq<T>, g4: seq<T>)
    requires s == x1 + x2 + x3 + x4
    requires x1 == own + g1 && x2 == next + g2 && x3 == g3 && x4 == g4
    ensures s == own + g1 + next + g2 + g3 + g4
  {
  }

  /** One group of a page's entries before sorting: the next-page link has
      key 2, the own previous-page marker key 1. */
  lemma EntryGroup(res: Strings, next: seq<BotMessage>, own: seq<BotMessage>, rest: seq<BotMessage>, g: int)
    requires res.Distinct()
    requires next == [] || (|next| == 1 && next[0].title == res.nextPage)
    requires own == [] || (|own| == 1 && own[0].title == res.previousPage)
    ensures Group(res, next + (own + rest), g) ==
            (if g == 1 then own else []) + (if g == 2 then next else []) + Group(res, rest, g)
  {
    var key := EntryKey(res);
    WithKeyAppend(own, rest, key, g);
    WithKeyAppend(next, own + rest, key, g);
    if next != [] { assert next[1..] == []; }
    if own != [] { assert own[1..] == []; }
  }

  /** The "previous page" entries of page k are its own marker followed by
      those that `p` had, in their order (the sort is stable). */
  lemma PreviousEntries(res: Strings, p: int, base: Node, pages: seq<int>, bodies: seq<string>, k: int)
    requires res.Distinct()
    requires |pages| == |bodies| && 0 <= k < |pages|
    ensures Group(res, ChainPage(res, p, base, pages, bodies, k).nodes, 1) ==
            (if k > 0 then [PreviousMarker(res, pages, k)] else []) + Group(res, base.nodes, 1)
  {
    var key := EntryKey(res);
    var next := NextEntry(res, pages, k);
    var own: seq<BotMessage> := if k > 0 then [PreviousMarker(res, pages, k)] else [];
    var entries := next + (own + base.nodes);
    assert CreatedEntries(res, pages, base.nodes, k) == own + base.nodes;
    SortByProperties(entries, key);
    WithKeyAppend(own, base.nodes, key, 1);
    WithKeyAppend(next, own + base.nodes, key, 1);
    if next != [] { assert next == [next[0]] && next[0].title == res.nextPage; }
    if own != [] { assert own == [own[0]] && own[0].title == res.previousPage; }
    assert WithKey(next, key, 1) == [] && WithKey(own, key, 1) == own;
  }

  /**
   * File pages made after text pages: the chain of file pages starts on the
   * last text page, so each further file page carries two "previous page"
   * markers, its own for the file page before it, then the one the last text
   * page had for the text page before that.
   */
  lemma TwoPreviousMarkers(res: Strings, p: int, base: Node, textPages: seq<int>, texts: seq<string>,
                           filePages: seq<int>, files: seq<string>, j: int)
    requires res.Distinct()
    requires |textPages| == |texts| >= 2 && Group(res, base.nodes, 1) == []
    requires |filePages| == |files| && 1 <= j < |filePages|
    requires filePages[0] == textPages[|textPages| - 1]
    ensures var last := ChainPage(res, p, base, textPages, texts, |textPages| - 1);
            var page := ChainPage(res, filePages[0], last, filePages, files, j);
            Group(res, page.nodes, 1) ==
            [Back(Some(filePages[j - 1]), res.previousPage), Back(Some(textPages[|textPages| - 2]), res.previousPage)]
  {
    var n := |textPages| - 1;
    var last := ChainPage(res, p, base, textPages, texts, n);
    PreviousEntries(res, p, base, textPages, texts, n);
    PreviousEntries(res, filePages[0], last, filePages, files, j);
  }
}
