/**
 * The message-tree engine: `DefaultMessageProvider` (DefaultMessageProvider.kt)
 * and its two earlier copies `MessageHolder` (data/MessageHolder.kt and
 * domain/MessageHolder.kt), which differ only in the bullet of a file line,
 * in the lookup (see `Get` and `FindMessage`), and in whether the tree is
 * loaded at construction.
 *
 * The engine object owns an id counter (`idGenerator`), the nodes (an arena
 * keyed by id, since a node's `text` and `nodes` are overwritten in place),
 * the root of the main tree and a cache from chat id to the root of that
 * chat's last search-result tree: the class `MessageProvider`. Its private
 * helpers, which change nodes and draw ids, are methods that take the arena
 * and the counter and give back the updated ones.
 */
module Engine {
  import opened Wrappers
  import opened Lists
  import opened Markdown
  import opened Remote
  import opened Messages
  import opened Pagination
  import opened Chain
  import opened Lookup
  import opened Codec

  /** The resource strings, the bullet in front of a file line,
      `MAX_TEXT_LENGTH` and `MAX_FILES_PER_PAGE`. */
  datatype Settings = Settings(res: Strings, bullet: string, limit: int, perPage: PageSize)

  /** `chunked` accepts only a positive size. */
  type PageSize = n: nat | n > 0 witness 1

  /** The arena grew from `a0` with counter `n0` to `a` with counter `n`: no
      node was removed, none changed label, parent or level, and every new
      node has an id handed out in between. */
  ghost predicate Grows(a0: Arena, l0: map<int, nat>, n0: int, a: Arena, l: map<int, nat>, n: int)
  {
    && Extends(a0, l0, a, l)
    && n0 <= n
    && (forall x :: x in a ==> x in a0 || n0 <= x < n)
  }

  /** Adding a node under a fresh id is growth. */
  lemma GrowsAdd(a0: Arena, l0: map<int, nat>, bound: nat, n0: int, id: int, node: Node, lv: nat)
    requires Wf(a0, l0, bound, n0) && n0 <= id
    ensures Grows(a0, l0, n0, a0[id := node], l0[id := lv], id + 1)
  {
    forall x | x in a0 ensures x != id {
      assert x < n0;
    }
  }

  /** Growth composes. */
  lemma GrowsTrans(a0: Arena, l0: map<int, nat>, n0: int, a1: Arena, l1: map<int, nat>, n1: int,
                   a2: Arena, l2: map<int, nat>, n2: int)
    requires Grows(a0, l0, n0, a1, l1, n1) && Grows(a1, l1, n1, a2, l2, n2)
    ensures Grows(a0, l0, n0, a2, l2, n2)
  {
    ExtendsTrans(a0, l0, a1, l1, a2, l2);
  }

  /** Every `Content` entry of `p` leads to a deeper level: true of a node
      whose entries are its folders and its `Back` marker. */
  ghost predicate Deeper(a: Arena, l: map<int, nat>, p: int)
    requires p in a && p in l
  {
    forall m :: m in a[p].nodes && m.Content? ==> m.id in a && m.id in l && l[m.id] > l[p]
  }

  /** The chain of pages `bodies` on node `p` is built: the arena was `a0`
      with counter `n0` and is `a` with counter `n`. */
  ghost predicate Paginated(res: Strings, a0: Arena, n0: int, a: Arena, n: int, p: int, bodies: seq<string>)
    requires p in a0
  {
    var pages := PageIds(p, n0, |bodies|);
    && n == n0 + (if bodies == [] then 0 else |bodies| - 1)
    && (forall k :: 0 <= k < |bodies| ==>
          pages[k] in a && a[pages[k]] == ChainPage(res, p, a0[p], pages, bodies, k))
    && (forall x :: x in a0 && x != p ==> x in a && a[x] == a0[x])
  }

  /** The id of the last page of a chain of `count` pages on `p`. */
  function LastPage(p: int, n0: int, count: nat): (r: int)
    ensures count == 0 ==> r == p
    ensures count > 0 ==> r == PageIds(p, n0, count)[count - 1]
  {
    if count <= 1 then p else n0 + count - 2
  }

  /**
   * `createNodes(parentNode)`: page 0 is `p` with the first body as text;
   * every further body becomes a node with a fresh id, labelled "next page",
   * with `p` as parent and as entries a "previous page" marker for the page
   * before, followed by the entries of `p`.
   */
  method CreateNodes(res: Strings, a0: Arena, ghost l0: map<int, nat>, ghost bound: nat, n0: int,
                     p: int, bodies: seq<string>)
    returns (a: Arena, ghost l: map<int, nat>, n: int, pages: seq<int>)
    requires Wf(a0, l0, bound, n0) && p in a0 && p in l0 && Deeper(a0, l0, p)
    ensures Wf(a, l, bound, n) && Grows(a0, l0, n0, a, l, n)
    ensures pages == PageIds(p, n0, |bodies|)
    ensures n == n0 + (if bodies == [] then 0 else |bodies| - 1)
    ensures forall k :: 0 <= k < |bodies| ==>
              && pages[k] in a && pages[k] in l && l[pages[k]] == l0[p]
              && a[pages[k]] == CreatedPage(res, p, a0[p], pages, bodies, k)
    ensures forall x :: x in a0 && x != p ==> a[x] == a0[x]
    ensures bodies == [] ==> a == a0 && l == l0
  {
    pages := PageIds(p, n0, |bodies|);
    a, l, n := a0, l0, n0;
    if bodies == [] {
      return;
    }
    var base := a0[p];
    WfRetext(a0, l0, bound, n0, p, bodies[0]);
    a := a0[p := base.(text := bodies[0])];
    assert pages[0] == p && p < n0;
    var k := 1;
    while k < |bodies|
      invariant 1 <= k <= |bodies|
      invariant n == n0 + k - 1
      invariant Wf(a, l, bound, n) && Grows(a0, l0, n0, a, l, n)
      invariant forall j :: 0 <= j < k ==>
                  && pages[j] in a && pages[j] in l && l[pages[j]] == l0[p]
                  && a[pages[j]] == CreatedPage(res, p, base, pages, bodies, j)
      invariant forall x :: x in a0 && x != p ==> a[x] == a0[x]
    {
      var page := CreatedPage(res, p, base, pages, bodies, k);
      PageAdded(res, a0, l0, bound, n0, a, l, n, p, pages, bodies, k);
      PagesKept(res, a0, l0, bound, n0, a, l, n, p, pages, bodies, k);
      a := a[n := page];
      l := l[n := l0[p]];
      n := n + 1;
      k := k + 1;
    }
  }

  /** One step of `createNodes`: page k, made with the next id, keeps the
      arena well formed and grown from the one before the pagination. */
  lemma PageAdded(res: Strings, a0: Arena, l0: map<int, nat>, bound: nat, n0: int,
                  a: Arena, l: map<int, nat>, n: int, p: int, pages: seq<int>, bodies: seq<string>, k: int)
    requires Wf(a0, l0, bound, n0) && p in a0 && p in l0 && Deeper(a0, l0, p)
    requires pages == PageIds(p, n0, |bodies|) && 1 <= k < |bodies| && n == n0 + k - 1
    requires Wf(a, l, bound, n) && Grows(a0, l0, n0, a, l, n)
    requires forall x :: x in a0 && x != p ==> a[x] == a0[x]
    ensures var a' := a[n := CreatedPage(res, p, a0[p], pages, bodies, k)];
            var l' := l[n := l0[p]];
            Wf(a', l', bound, n + 1) && Grows(a0, l0, n0, a', l', n + 1)
  {
    var base := a0[p];
    var page := CreatedPage(res, p, base, pages, bodies, k);
    var lv := l0[p];
    forall m | m in page.nodes && m.Content?
      ensures m.id in a && m.id in l && a[m.id].title == m.title && l[m.id] > lv
    {
      assert m in base.nodes;
      assert m.id in a0;
    }
    WfAdd(a, l, bound, n, n, page, lv);
    GrowsAdd(a, l, bound, n, n, page, lv);
    GrowsTrans(a0, l0, n0, a, l, n, a[n := page], l[n := lv], n + 1);
  }

  /** One step of `createNodes`: the pages made before page k, and the
      nodes other than `p`, are as they were. */
  lemma PagesKept(res: Strings, a0: Arena, l0: map<int, nat>, bound: nat, n0: int,
                  a: Arena, l: map<int, nat>, n: int, p: int, pages: seq<int>, bodies: seq<string>, k: int)
    requires Wf(a0, l0, bound, n0) && p in a0 && p in l0
    requires pages == PageIds(p, n0, |bodies|) && 1 <= k < |bodies| && n == n0 + k - 1
    requires Wf(a, l, bound, n) && a0.Keys <= a.Keys
    requires forall j :: 0 <= j < k ==>
               && pages[j] in a && pages[j] in l && l[pages[j]] == l0[p]
               && a[pages[j]] == CreatedPage(res, p, a0[p], pages, bodies, j)
    requires forall x :: x in a0 && x != p ==> a[x] == a0[x]
    ensures var a' := a[n := CreatedPage(res, p, a0[p], pages, bodies, k)];
            var l' := l[n := l0[p]];
            && (forall j :: 0 <= j < k + 1 ==>
                  && pages[j] in a' && pages[j] in l' && l'[pages[j]] == l0[p]
                  && a'[pages[j]] == CreatedPage(res, p, a0[p], pages, bodies, j))
            && (forall x :: x in a0 && x != p ==> a'[x] == a0[x])
  {
    var a' := a[n := CreatedPage(res, p, a0[p], pages, bodies, k)];
    assert n == pages[k];
    forall j | 0 <= j < k + 1
      ensures pages[j] in a' && a'[pages[j]] == CreatedPage(res, p, a0[p], pages, bodies, j)
    {
      if j < k {
        assert pages[j] in a && pages[j] < n;
      }
    }
    forall x | x in a0 && x != p ensures a'[x] == a0[x] {
      assert x in a && x < n;
    }
  }

  /**
   * `connectNodes()`: every page puts the page after it (if any) in front
   * of its entries, and the entries are sorted with `sorted()`.
   */
  method ConnectNodes(res: Strings, a0: Arena, ghost l: map<int, nat>, ghost bound: nat, ghost top: int,
                      pages: seq<int>)
    returns (a: Arena)
    requires Wf(a0, l, bound, top)
    requires forall j :: 0 <= j < |pages| ==> pages[j] in a0 && pages[j] in l
    requires forall i, j :: 0 <= i < |pages| && 0 <= j < |pages| && i != j ==> pages[i] != pages[j]
    requires forall j :: 1 <= j < |pages| ==>
               pages[j - 1] < pages[j] && a0[pages[j]].title == res.nextPage && l[pages[j]] == l[pages[j - 1]]
    ensures Wf(a, l, bound, top) && Extends(a0, l, a, l)
    ensures forall x :: x in a <==> x in a0
    ensures forall j :: 0 <= j < |pages| ==> pages[j] in a && a[pages[j]] == Connected(res, pages, a0[pages[j]], j)
    ensures forall x :: x in a0 && x !in pages ==> a[x] == a0[x]
  {
    a := a0;
    var i := 0;
    while i < |pages|
      invariant 0 <= i <= |pages|
      invariant Wf(a, l, bound, top) && Extends(a0, l, a, l)
      invariant forall x :: x in a <==> x in a0
      invariant forall j :: 0 <= j < i ==> pages[j] in a && a[pages[j]] == Connected(res, pages, a0[pages[j]], j)
      invariant forall j :: i <= j < |pages| ==> pages[j] in a && a[pages[j]] == a0[pages[j]]
      invariant forall x :: x in a0 && x !in pages ==> a[x] == a0[x]
    {
      PageLinked(res, a0, a, l, bound, top, pages, i);
      a := a[pages[i] := Connected(res, pages, a[pages[i]], i)];
      i := i + 1;
    }
  }

  /** One step of `connectNodes`: linking page i keeps the arena well formed
      and leaves every other node as it was. */
  lemma PageLinked(res: Strings, a0: Arena, a: Arena, l: map<int, nat>, bound: nat, top: int,
                   pages: seq<int>, i: int)
    requires Wf(a0, l, bound, top) && Wf(a, l, bound, top) && Extends(a0, l, a, l)
    requires forall x :: x in a <==> x in a0
    requires forall j :: 0 <= j < |pages| ==> pages[j] in a0 && pages[j] in l
    requires forall i, j :: 0 <= i < |pages| && 0 <= j < |pages| && i != j ==> pages[i] != pages[j]
    requires forall j :: 1 <= j < |pages| ==>
               pages[j - 1] < pages[j] && a0[pages[j]].title == res.nextPage && l[pages[j]] == l[pages[j - 1]]
    requires 0 <= i < |pages|
    requires forall j :: 0 <= j < i ==> pages[j] in a && a[pages[j]] == Connected(res, pages, a0[pages[j]], j)
    requires forall j :: i <= j < |pages| ==> pages[j] in a && a[pages[j]] == a0[pages[j]]
    requires forall x :: x in a0 && x !in pages ==> a[x] == a0[x]
    ensures var a' := a[pages[i] := Connected(res, pages, a[pages[i]], i)];
            && Wf(a', l, bound, top) && Extends(a0, l, a', l)
            && (forall x :: x in a' <==> x in a0)
            && (forall j :: 0 <= j < i + 1 ==> pages[j] in a' && a'[pages[j]] == Connected(res, pages, a0[pages[j]], j))
            && (forall j :: i + 1 <= j < |pages| ==> pages[j] in a' && a'[pages[j]] == a0[pages[j]])
            && (forall x :: x in a0 && x !in pages ==> a'[x] == a0[x])
  {
    var x := pages[i];
    var node := a[x];
    var next := NextEntry(res, pages, i);
    var sorted := SortedNodes(res, next + node.nodes);
    SortedNodesMembers(res, next + node.nodes);
    forall m | m in sorted ensures EdgeOk(a, l, x, m) {
      if m !in node.nodes {
        assert m in next;
      }
    }
    WfRelink(a, l, bound, top, x, sorted);
    var a' := a[x := node.(nodes := sorted)];
    forall j | 0 <= j < |pages| && j != i ensures a'[pages[j]] == a[pages[j]] {
      assert pages[j] != x;
    }
  }

  /** The pages `CreateNodes` makes are distinct, increase after the first,
      are labelled "next page" after the first and share the level of `p`:
      what `ConnectNodes` needs. */
  lemma CreatedPagesLinkable(res: Strings, a1: Arena, l: map<int, nat>, lv: nat, n0: int, p: int,
                             base: Node, bodies: seq<string>, pages: seq<int>)
    requires p < n0 && pages == PageIds(p, n0, |bodies|)
    requires forall k :: 0 <= k < |bodies| ==>
               && pages[k] in a1 && pages[k] in l && l[pages[k]] == lv
               && a1[pages[k]] == CreatedPage(res, p, base, pages, bodies, k)
    ensures forall i, j :: 0 <= i < |pages| && 0 <= j < |pages| && i != j ==> pages[i] != pages[j]
    ensures forall j :: 1 <= j < |pages| ==>
              pages[j - 1] < pages[j] && a1[pages[j]].title == res.nextPage && l[pages[j]] == l[pages[j - 1]]
  {
  }

  /** Creating the pages and then linking them builds the chain: every page
      is its `ChainPage`, and no other node that existed before changed. */
  lemma ChainBuilt(res: Strings, a0: Arena, l0: map<int, nat>, n0: int, a1: Arena, l: map<int, nat>, n: int,
                   a: Arena, p: int, bodies: seq<string>, pages: seq<int>)
    requires p in a0 && (forall x :: x in a0 ==> x < n0)
    requires pages == PageIds(p, n0, |bodies|)
    requires Grows(a0, l0, n0, a1, l, n) && n == n0 + (if bodies == [] then 0 else |bodies| - 1)
    requires forall k :: 0 <= k < |bodies| ==>
               pages[k] in a1 && a1[pages[k]] == CreatedPage(res, p, a0[p], pages, bodies, k)
    requires forall x :: x in a0 && x != p ==> a1[x] == a0[x]
    requires Extends(a1, l, a, l) && (forall x :: x in a <==> x in a1)
    requires forall j :: 0 <= j < |pages| ==> pages[j] in a && a[pages[j]] == Connected(res, pages, a1[pages[j]], j)
    requires forall x :: x in a1 && x !in pages ==> a[x] == a1[x]
    ensures Grows(a0, l0, n0, a, l, n)
    ensures Paginated(res, a0, n0, a, n, p, bodies)
  {
    ExtendsTrans(a0, l0, a1, l, a, l);
    forall k | 0 <= k < |bodies|
      ensures pages[k] in a && a[pages[k]] == ChainPage(res, p, a0[p], pages, bodies, k)
    {
      assert a1[pages[k]] == CreatedPage(res, p, a0[p], pages, bodies, k);
    }
    forall x | x in a0 && x != p ensures x in a && a[x] == a0[x] {
      assert x < n0;
      assert x !in pages;
    }
  }

  /** The first page of the chain keeps the entries of `p` and gains at most
      the link to the second page, the first fresh id. */
  lemma ChainKeepsEntries(res: Strings, a0: Arena, n0: int, a: Arena, n: int, p: int, bodies: seq<string>)
    requires p in a0 && Paginated(res, a0, n0, a, n, p, bodies)
    requires bodies == [] ==> a == a0
    ensures p in a && forall m :: m in a0[p].nodes ==> m in a[p].nodes
    ensures forall m :: m in a[p].nodes ==> m in a0[p].nodes || m == Content(n0, res.nextPage)
  {
    if bodies != [] {
      var pages := PageIds(p, n0, |bodies|);
      assert pages[0] == p && a[p] == ChainPage(res, p, a0[p], pages, bodies, 0);
      ChainLinks(res, p, a0[p], pages, bodies, 0);
      var next := NextEntry(res, pages, 0);
      assert |pages| > 1 ==> pages[1] == n0;
      forall m | m in a[p].nodes ensures m in a0[p].nodes || m == Content(n0, res.nextPage) {
        assert m in multiset(next + a0[p].nodes);
      }
    }
  }

  /** The last page of the chain, linking to no further page, has only
      `Content` entries deeper than `p`. */
  lemma ChainEndsDeeper(res: Strings, a0: Arena, l0: map<int, nat>, n0: int, a: Arena, l: map<int, nat>, n: int,
                        p: int, bodies: seq<string>)
    requires p in a0 && p in l0 && Deeper(a0, l0, p) && Extends(a0, l0, a, l)
    requires Paginated(res, a0, n0, a, n, p, bodies)
    requires bodies != [] ==> var last := PageIds(p, n0, |bodies|)[|bodies| - 1];
                               last in l && l[last] == l0[p]
    requires bodies == [] ==> a == a0 && l == l0
    ensures var last := LastPage(p, n0, |bodies|);
            last in a && last in l && Deeper(a, l, last)
  {
    if bodies != [] {
      var pages := PageIds(p, n0, |bodies|);
      var k := |bodies| - 1;
      var page := ChainPage(res, p, a0[p], pages, bodies, k);
      assert a[pages[k]] == page;
      LastPageEntries(res, p, a0[p], pages, bodies);
      forall m | m in page.nodes && m.Content? ensures m.id in a && m.id in l && l[m.id] > l[pages[k]] {
        assert m in a0[p].nodes;
      }
    }
  }

  /** `createNodes(p).connectNodes().lastOrNull() ?: p`: the chain of pages
      `bodies` on `p`, and its last page. */
  method Paginate(res: Strings, a0: Arena, ghost l0: map<int, nat>, ghost bound: nat, n0: int,
                  p: int, bodies: seq<string>)
    returns (a: Arena, ghost l: map<int, nat>, n: int, last: int)
    requires Wf(a0, l0, bound, n0) && p in a0 && p in l0 && Deeper(a0, l0, p)
    ensures Wf(a, l, bound, n) && Grows(a0, l0, n0, a, l, n)
    ensures Paginated(res, a0, n0, a, n, p, bodies)
    ensures last == LastPage(p, n0, |bodies|)
    ensures bodies == [] ==> a == a0 && l == l0 && n == n0
    ensures forall m :: m in a0[p].nodes ==> m in a[p].nodes
    ensures forall m :: m in a[p].nodes ==> m in a0[p].nodes || m == Content(n0, res.nextPage)
    ensures forall x :: x in a0 && x != p ==> a[x] == a0[x]
    ensures last in a && last in l && Deeper(a, l, last)
  {
    var a1, pages;
    a1, l, n, pages := CreateNodes(res, a0, l0, bound, n0, p, bodies);
    CreatedPagesLinkable(res, a1, l, l0[p], n0, p, a0[p], bodies, pages);
    a := ConnectNodes(res, a1, l, bound, n, pages);
    ChainBuilt(res, a0, l0, n0, a1, l, n, a, p, bodies, pages);
    ChainKeepsEntries(res, a0, n0, a, n, p, bodies);
    ChainEndsDeeper(res, a0, l0, n0, a, l, n, p, bodies);
    last := LastPage(p, n0, |bodies|);
  }

  /**
   * `addText(parentNode)`: the text entries of a listing, paginated on `p`.
   * It fails (`chunked` throws) when there is a text and the text of `p` is
   * `limit` characters or longer; nothing has changed then.
   */
  method AddText(s: Settings, entries: seq<RemoteData>, a0: Arena, ghost l0: map<int, nat>, ghost bound: nat,
                 n0: int, p: int)
    returns (ok: bool, a: Arena, ghost l: map<int, nat>, n: int, last: int)
    requires Wf(a0, l0, bound, n0) && p in a0 && p in l0 && Deeper(a0, l0, p)
    ensures Wf(a, l, bound, n) && Grows(a0, l0, n0, a, l, n)
    ensures ok <==> TextPieces(entries, a0[p].text, s.limit).Some?
    ensures !ok ==> a == a0 && l == l0 && n == n0 && last == p
    ensures ok ==> var bodies := TextPieces(entries, a0[p].text, s.limit).value;
                   Paginated(s.res, a0, n0, a, n, p, bodies) && last == LastPage(p, n0, |bodies|)
    ensures ok && TextPieces(entries, a0[p].text, s.limit).value == [] ==> a == a0 && n == n0
    ensures FilterTexts(entries) == [] ==> ok && a == a0 && n == n0 && last == p
    ensures forall m :: m in a0[p].nodes ==> m in a[p].nodes
    ensures forall m :: m in a[p].nodes ==> m in a0[p].nodes || m == Content(n0, s.res.nextPage)
    ensures forall x :: x in a0 && x != p ==> a[x] == a0[x]
    ensures last in a && last in l && Deeper(a, l, last)
    ensures last == p || n0 <= last < n
  {
    var pieces := TextPieces(entries, a0[p].text, s.limit);
    if pieces.None? {
      return false, a0, l0, n0, p;
    }
    ok := true;
    a, l, n, last := Paginate(s.res, a0, l0, bound, n0, p, pieces.value);
  }

  /**
   * `addFiles(parentNode)`: the file entries of a listing, in batches of
   * `perPage`, paginated on `p`. With no file nothing changes; it fails when
   * there is a file and the text of `p` is `limit` characters or longer.
   */
  method AddFiles(s: Settings, entries: seq<RemoteData>, a0: Arena, ghost l0: map<int, nat>, ghost bound: nat,
                  n0: int, p: int)
    returns (ok: bool, a: Arena, ghost l: map<int, nat>, n: int, last: int)
    requires Wf(a0, l0, bound, n0) && p in a0 && p in l0 && Deeper(a0, l0, p)
    ensures Wf(a, l, bound, n) && Grows(a0, l0, n0, a, l, n)
    ensures ok <==> FilePieces(entries, a0[p].text, s.bullet, s.limit, s.perPage).Some?
    ensures !ok ==> a == a0 && l == l0 && n == n0 && last == p
    ensures ok ==> var bodies := FilePieces(entries, a0[p].text, s.bullet, s.limit, s.perPage).value;
                   Paginated(s.res, a0, n0, a, n, p, bodies) && last == LastPage(p, n0, |bodies|)
    ensures ok && FilePieces(entries, a0[p].text, s.bullet, s.limit, s.perPage).value == [] ==> a == a0 && n == n0
    ensures FilterFiles(entries) == [] ==> ok && a == a0 && n == n0 && last == p
    ensures forall m :: m in a0[p].nodes ==> m in a[p].nodes
    ensures forall m :: m in a[p].nodes ==> m in a0[p].nodes || m == Content(n0, s.res.nextPage)
    ensures forall x :: x in a0 && x != p ==> a[x] == a0[x]
    ensures last in a && last in l && Deeper(a, l, last)
    ensures last == p || n0 <= last < n
  {
    var pieces := FilePieces(entries, a0[p].text, s.bullet, s.limit, s.perPage);
    if pieces.None? {
      return false, a0, l0, n0, p;
    }
    ok := true;
    a, l, n, last := Paginate(s.res, a0, l0, bound, n0, p, pieces.value);
  }

  /**
   * `node.nodes = folders.plusNotNull(back)`: the entries of `node` become
   * the folder entries `kids` followed by a `Back` marker to its parent if
   * it has one.
   */
  method LinkEntries(res: Strings, a0: Arena, ghost l: map<int, nat>, ghost b: nat, ghost n: int,
                     node: int, kids: seq<BotMessage>)
    returns (a: Arena)
    requires Wf(a0, l, b, n) && node in a0 && node in l
    requires forall j :: 0 <= j < |kids| ==>
               && kids[j].Content? && kids[j].id in a0 && kids[j].id in l
               && a0[kids[j].id].title == kids[j].title && l[kids[j].id] > l[node]
    ensures Wf(a, l, b, n) && Grows(a0, l, n, a, l, n) && Deeper(a, l, node)
    ensures forall x :: x in a0 && x != node ==> a[x] == a0[x]
    ensures a[node].text == a0[node].text
    ensures a == a0[node := a0[node].(nodes := PlusNotNull(kids, BackTo(res, a0[node].parent)))]
    ensures forall j :: 0 <= j < |kids| ==> kids[j] in a[node].nodes
    ensures a0[node].parent.Some? ==> CreateBackMessage(res, a0[node].parent.value) in a[node].nodes
  {
    var back := BackTo(res, a0[node].parent);
    var nodes := PlusNotNull(kids, back);
    forall m | m in nodes ensures EdgeOk(a0, l, node, m) {
      PlusNotNullMembers(kids, back, m);
      if m in kids {
        var j :| 0 <= j < |kids| && kids[j] == m;
      }
    }
    WfRelink(a0, l, b, n, node, nodes);
    a := a0[node := a0[node].(nodes := nodes)];
    forall m | m in a[node].nodes && m.Content? ensures m.id in a && m.id in l && l[m.id] > l[node] {
      PlusNotNullMembers(kids, back, m);
      var j :| 0 <= j < |kids| && kids[j] == m;
    }
    forall j | 0 <= j < |kids| ensures kids[j] in a[node].nodes {
      PlusNotNullMembers(kids, back, kids[j]);
    }
    if back.Some? {
      PlusNotNullMembers(kids, back, back.value);
    }
  }

  /** A "next page" link to a page made with the counter at `start` or
      later. */
  predicate NextLink(res: Strings, m: BotMessage, start: int)
  {
    m.Content? && m.title == res.nextPage && start <= m.id
  }

  /**
   * `addText(node)` and then `addFiles` on the last text page: the texts
   * are paginated on `node`, giving the arena `aT`, the counter `nT` and the
   * last text page `textLast`; the files are paginated on `textLast`, whose
   * text is then the base of the file pages. It fails exactly when one of
   * the two does. The entries `node` had stay on it, and it gains at most
   * "next page" links to new pages; a listing with neither texts nor files
   * changes nothing.
   */
  method AddListing(s: Settings, entries: seq<RemoteData>, a0: Arena, ghost l0: map<int, nat>, ghost b: nat,
                    n0: int, node: int)
    returns (ok: bool, a: Arena, ghost l: map<int, nat>, n: int, ghost aT: Arena, ghost nT: int,
             ghost textLast: int)
    requires Wf(a0, l0, b, n0) && node in a0 && node in l0 && Deeper(a0, l0, node)
    ensures Wf(a, l, b, n) && Grows(a0, l0, n0, a, l, n)
    ensures forall x :: x in a0 && x != node ==> a[x] == a0[x]
    ensures textLast in aT
    ensures ok <==> && TextPieces(entries, a0[node].text, s.limit).Some?
                    && FilePieces(entries, aT[textLast].text, s.bullet, s.limit, s.perPage).Some?
    ensures ok ==> var texts := TextPieces(entries, a0[node].text, s.limit).value;
                   && Paginated(s.res, a0, n0, aT, nT, node, texts)
                   && textLast == LastPage(node, n0, |texts|)
                   && (texts == [] ==> aT == a0 && nT == n0)
    ensures ok ==> var files := FilePieces(entries, aT[textLast].text, s.bullet, s.limit, s.perPage).value;
                   && Paginated(s.res, aT, nT, a, n, textLast, files)
                   && (files == [] ==> a == aT && n == nT)
    ensures forall m :: m in a0[node].nodes ==> m in a[node].nodes
    ensures forall m :: m in a[node].nodes ==> m in a0[node].nodes || NextLink(s.res, m, n0)
    ensures FilterTexts(entries) == [] && FilterFiles(entries) == [] ==> ok && a == a0 && n == n0
  {
    var last;
    ok, a, l, n, last := AddText(s, entries, a0, l0, b, n0, node);
    var a1, n1, last1 := a, n, last;
    aT, nT, textLast := a1, n1, last1;
    if !ok {
      return;
    }
    ghost var lT := l;
    assert node in aT && node < n0;
    ok, a, l, n, last := AddFiles(s, entries, a1, lT, b, n1, last1);
    GrowsTrans(a0, l0, n0, aT, lT, nT, a, l, n);
    forall x | x in a0 && x != node ensures a[x] == a0[x] {
      assert x < n0 && aT[x] == a0[x];
    }
    if textLast != node {
      assert a[node] == aT[node];
    }
    forall m | m in a0[node].nodes ensures m in a[node].nodes {
      assert m in aT[node].nodes;
    }
    ListingEntries(s.res, a0[node], aT[node], a[node], n0, nT, textLast == node);
  }

  /** The entries of `node` after `addText`, which links at most to page
      `n0`, and `addFiles`, which, when the text chain has one page, links
      at most to page `nT`. */
  lemma ListingEntries(res: Strings, before: Node, texted: Node, after: Node, n0: int, nT: int, single: bool)
    requires n0 <= nT
    requires forall m :: m in texted.nodes ==> m in before.nodes || m == Content(n0, res.nextPage)
    requires single ==> forall m :: m in after.nodes ==> m in texted.nodes || m == Content(nT, res.nextPage)
    requires !single ==> after == texted
    ensures forall m :: m in after.nodes ==> m in before.nodes || NextLink(res, m, n0)
  {
  }

  /** The chain of pages `bodies` on `p`, begun from the node value `base`
      with the counter at `start`, is in `a`; with no body, `p` is still
      `base`. */
  ghost predicate ChainAt(res: Strings, a: Arena, p: int, base: Node, start: int, bodies: seq<string>)
  {
    var pages := PageIds(p, start, |bodies|);
    && (bodies == [] ==> p in a && a[p] == base)
    && (forall k :: 0 <= k < |bodies| ==> pages[k] in a && a[pages[k]] == ChainPage(res, p, base, pages, bodies, k))
  }

  /** The text pages but the last of the chain of `bodies` on `node`, begun
      from `base` with the counter at `start`, are in `a`. */
  ghost predicate TextChainAt(res: Strings, a: Arena, node: int, base: Node, start: int, bodies: seq<string>)
  {
    var pages := PageIds(node, start, |bodies|);
    forall k :: 0 <= k < |bodies| - 1 ==> pages[k] in a && a[pages[k]] == ChainPage(res, node, base, pages, bodies, k)
  }

  /** The last text page, which `addFiles` starts from: `base` itself when
      there is no text page. */
  function LastTextPage(res: Strings, node: int, base: Node, start: int, bodies: seq<string>): (r: Node)
    ensures bodies == [] ==> r == base
    ensures bodies != [] ==> r.text == bodies[|bodies| - 1]
  {
    if bodies == [] then base
    else
      var pages := PageIds(node, start, |bodies|);
      ChainLinks(res, node, base, pages, bodies, |bodies| - 1);
      ChainPage(res, node, base, pages, bodies, |bodies| - 1)
  }

  /** The counter after the text pages of `bodies`. */
  function AfterPages(start: int, bodies: seq<string>): int
  {
    start + (if bodies == [] then 0 else |bodies| - 1)
  }

  /**
   * `addText(node)` and then `addFiles(lastNode)` have both succeeded on
   * `node`, whose value was `base`, with the counter at `start`: the text
   * pages are in `a`, except that the last one has become page 0 of the
   * file chain, whose base is that last text page (or `base` itself when
   * there is no text page).
   */
  ghost predicate ListingPaged(s: Settings, a: Arena, node: int, base: Node, start: int, entries: seq<RemoteData>)
  {
    var texts := TextPieces(entries, base.text, s.limit);
    && texts.Some?
    && var files := FilePieces(entries, LastTextPage(s.res, node, base, start, texts.value).text,
                               s.bullet, s.limit, s.perPage);
       && files.Some?
       && PagesAt(s.res, a, node, base, start, texts.value, files.value)
  }

  /** The text pages `texts` and then the file pages `files` on the last of
      them are in `a`. */
  ghost predicate PagesAt(res: Strings, a: Arena, node: int, base: Node, start: int, texts: seq<string>,
                          files: seq<string>)
  {
    && TextChainAt(res, a, node, base, start, texts)
    && ChainAt(res, a, LastPage(node, start, |texts|), LastTextPage(res, node, base, start, texts),
               AfterPages(start, texts), files)
  }

  /** The text pages of a successful `AddListing`, but the last, are where
      `AddText` put them. */
  lemma TextChainFrom(res: Strings, a0: Arena, n0: int, aT: Arena, nT: int, a: Arena, node: int,
                      texts: seq<string>)
    requires node in a0 && node < n0
    requires Paginated(res, a0, n0, aT, nT, node, texts)
    requires forall x :: x in aT && x != LastPage(node, n0, |texts|) ==> x in a && a[x] == aT[x]
    ensures TextChainAt(res, a, node, a0[node], n0, texts)
    ensures texts != [] ==> LastPage(node, n0, |texts|) in aT
                            && aT[LastPage(node, n0, |texts|)] == LastTextPage(res, node, a0[node], n0, texts)
  {
    var pages := PageIds(node, n0, |texts|);
    forall k | 0 <= k < |texts| - 1
      ensures pages[k] in a && a[pages[k]] == ChainPage(res, node, a0[node], pages, texts, k)
    {
      assert pages[k] in aT && pages[k] != LastPage(node, n0, |texts|);
    }
    if texts != [] {
      assert pages[|texts| - 1] == LastPage(node, n0, |texts|);
    }
  }

  /** After a listing is paged on `node`, the node shows the first text
      page; with a single text page and some files it shows the first file
      page instead, and with no page at all it keeps the text of `base`. */
  lemma ListingFirstPage(s: Settings, a: Arena, node: int, base: Node, start: int, entries: seq<RemoteData>)
    requires ListingPaged(s, a, node, base, start, entries)
    ensures node in a
    ensures var texts := TextPieces(entries, base.text, s.limit).value;
            var files := FilePieces(entries, LastTextPage(s.res, node, base, start, texts).text,
                                    s.bullet, s.limit, s.perPage).value;
            a[node].text == if |texts| > 1 || (|texts| == 1 && files == []) then texts[0]
                            else if files != [] then files[0]
                            else base.text
  {
    var texts := TextPieces(entries, base.text, s.limit).value;
    var mid := LastTextPage(s.res, node, base, start, texts);
    var files := FilePieces(entries, mid.text, s.bullet, s.limit, s.perPage).value;
    if |texts| > 1 {
      var pages := PageIds(node, start, |texts|);
      assert pages[0] == node;
      ChainLinks(s.res, node, base, pages, texts, 0);
    } else if files != [] {
      var pages := PageIds(node, AfterPages(start, texts), |files|);
      assert pages[0] == node;
      ChainLinks(s.res, node, mid, pages, files, 0);
    }
  }

  /** What `AddListing` ensures on success is `ListingPaged`. */
  lemma ListingPagedFrom(s: Settings, entries: seq<RemoteData>, a0: Arena, n0: int, aT: Arena, nT: int,
                         textLast: int, a: Arena, n: int, node: int)
    requires node in a0 && node < n0 && textLast in aT
    requires TextPieces(entries, a0[node].text, s.limit).Some?
    requires FilePieces(entries, aT[textLast].text, s.bullet, s.limit, s.perPage).Some?
    requires var texts := TextPieces(entries, a0[node].text, s.limit).value;
             && Paginated(s.res, a0, n0, aT, nT, node, texts)
             && textLast == LastPage(node, n0, |texts|)
             && (texts == [] ==> aT == a0 && nT == n0)
    requires var files := FilePieces(entries, aT[textLast].text, s.bullet, s.limit, s.perPage).value;
             && Paginated(s.res, aT, nT, a, n, textLast, files)
             && (files == [] ==> a == aT && n == nT)
    ensures ListingPaged(s, a, node, a0[node], n0, entries)
  {
    var texts := TextPieces(entries, a0[node].text, s.limit).value;
    var files := FilePieces(entries, aT[textLast].text, s.bullet, s.limit, s.perPage).value;
    TextChainFrom(s.res, a0, n0, aT, nT, a, node, texts);
    var mid := LastTextPage(s.res, node, a0[node], n0, texts);
    assert aT[textLast] == mid;
    assert nT == AfterPages(n0, texts);
    assert ChainAt(s.res, a, textLast, mid, nT, files);
  }

  /** The text pages of a listing stay in place while `node` and every node
      made since `start` are untouched. */
  lemma TextChainFrame(res: Strings, a: Arena, a': Arena, node: int, base: Node, start: int, bodies: seq<string>)
    requires TextChainAt(res, a, node, base, start, bodies)
    requires forall x :: x in a && (x == node || start <= x) ==> x in a' && a'[x] == a[x]
    ensures TextChainAt(res, a', node, base, start, bodies)
  {
    var pages := PageIds(node, start, |bodies|);
    forall k | 0 <= k < |bodies| - 1
      ensures pages[k] in a' && a'[pages[k]] == ChainPage(res, node, base, pages, bodies, k)
    {
      assert pages[k] in a && (pages[k] == node || start <= pages[k]);
    }
  }

  /** A chain of pages stays in place while `p` and every node made since
      `start` are untouched. */
  lemma ChainAtFrame(res: Strings, a: Arena, a': Arena, p: int, base: Node, start: int, bodies: seq<string>)
    requires ChainAt(res, a, p, base, start, bodies)
    requires forall x :: x in a && (x == p || start <= x) ==> x in a' && a'[x] == a[x]
    ensures ChainAt(res, a', p, base, start, bodies)
  {
    var pages := PageIds(p, start, |bodies|);
    forall k | 0 <= k < |bodies|
      ensures pages[k] in a' && a'[pages[k]] == ChainPage(res, p, base, pages, bodies, k)
    {
      assert pages[k] in a && (pages[k] == p || start <= pages[k]);
    }
  }

  /** The pages of a listing stay in place while `node` and every node made
      since `start` are untouched. */
  lemma ListingPagedFrame(s: Settings, a: Arena, a': Arena, node: int, base: Node, start: int,
                          entries: seq<RemoteData>)
    requires ListingPaged(s, a, node, base, start, entries)
    requires forall x :: x in a && (x == node || start <= x) ==> x in a' && a'[x] == a[x]
    ensures ListingPaged(s, a', node, base, start, entries)
  {
    var texts := TextPieces(entries, base.text, s.limit).value;
    var files := FilePieces(entries, LastTextPage(s.res, node, base, start, texts).text,
                            s.bullet, s.limit, s.perPage).value;
    PagesAtFrame(s.res, a, a', node, base, start, texts, files);
  }

  /** `PagesAt` survives the same changes. */
  lemma PagesAtFrame(res: Strings, a: Arena, a': Arena, node: int, base: Node, start: int, texts: seq<string>,
                     files: seq<string>)
    requires PagesAt(res, a, node, base, start, texts, files)
    requires forall x :: x in a && (x == node || start <= x) ==> x in a' && a'[x] == a[x]
    ensures PagesAt(res, a', node, base, start, texts, files)
  {
    var last := LastPage(node, start, |texts|);
    assert last == node || start <= last;
    TextChainFrame(res, a, a', node, base, start, texts);
    ChainAtFrame(res, a, a', last, LastTextPage(res, node, base, start, texts), AfterPages(start, texts), files);
  }

  /**
   * The ids one `loadRemoteMessages` call handed out: `node` was expanded
   * with the counter at `start` or later, its text was `text` when the call
   * began, its pages were made with the counter at `pagesFrom` or later, and
   * `children` are the expansions of its folders, in the listing's order.
   */
  datatype LoadTree = LoadTree(node: int, start: int, text: string, pagesFrom: int, children: seq<LoadTree>)

  /** The entries `folders.map { … }` names: one per child of `t`. */
  function ChildEntries(t: LoadTree, folders: seq<FolderEntry>): (r: seq<BotMessage>)
    requires |t.children| == |folders|
    ensures |r| == |folders|
    ensures forall i :: 0 <= i < |folders| ==> r[i] == Content(t.children[i].node, folders[i].name)
  {
    seq(|folders|, i requires 0 <= i < |folders| => Content(t.children[i].node, folders[i].name))
  }

  /** The listing has neither texts nor files, so no page is built. */
  predicate Bare(entries: seq<RemoteData>)
  {
    FilterTexts(entries) == [] && FilterFiles(entries) == []
  }

  /** The entries of a loaded node: every entry of `linked` is there, and the
      only others are "next page" links to pages made since `start`; with
      neither texts nor files there is nothing but `linked`, in its order. */
  ghost predicate EntriesLoaded(res: Strings, node: Node, linked: seq<BotMessage>, start: int, bare: bool)
  {
    && (forall m :: m in linked ==> m in node.nodes)
    && (forall m :: m in node.nodes ==> m in linked || NextLink(res, m, start))
    && (bare ==> node.nodes == linked)
  }

  /**
   * Node `t.node` is expanded from the listing of `sourceId`, as
   * `loadRemoteMessages` leaves it: every folder of the listing has a fresh
   * child, in order, labelled with the folder name, with the selected text
   * of the escaped name, and itself expanded from the folder's id. The
   * node's value, with its old text and as entries those children followed
   * by a `Back` marker to its own parent if it has one, is the base of its
   * text pages and then of the file pages on the last text page
   * (`ListingPaged`); its own entries are that list plus the "next page"
   * links its pagination made. Nothing from an earlier expansion is left.
   */
  ghost predicate Loaded(repository: Repository, s: Settings, a: Arena, t: LoadTree, sourceId: string)
    decreases t
  {
    var entries := repository.GetBySourceId(sourceId);
    var folders := FilterFolders(entries);
    && t.node in a
    && |t.children| == |folders|
    && (forall i :: 0 <= i < |t.children| ==>
          && t.start <= t.children[i].node < t.children[i].start
          && t.children[i].node in a
          && a[t.children[i].node].parent == Some(t.node)
          && a[t.children[i].node].title == folders[i].name
          && t.children[i].text == s.res.selectedText(Escaped(folders[i].name))
          && Loaded(repository, s, a, t.children[i], folders[i].id))
    && (forall i, j :: 0 <= i < j < |t.children| ==> t.children[i].node < t.children[j].node)
    && var linked := PlusNotNull(ChildEntries(t, folders), BackTo(s.res, a[t.node].parent));
       && EntriesLoaded(s.res, a[t.node], linked, t.start, Bare(entries))
       && t.start <= t.pagesFrom
       && ListingPaged(s, a, t.node, Node(a[t.node].parent, a[t.node].title, t.text, linked), t.pagesFrom, entries)
  }

  /** An expanded tree stays expanded while its root and every node made
      since its expansion began are untouched. */
  lemma {:induction false} LoadedFrame(repository: Repository, s: Settings, a: Arena, a': Arena, t: LoadTree,
                                       sourceId: string)
    requires Loaded(repository, s, a, t, sourceId)
    requires t.node in a' && a'[t.node] == a[t.node]
    requires forall x :: x in a && t.start <= x ==> x in a' && a'[x] == a[x]
    ensures Loaded(repository, s, a', t, sourceId)
    decreases t
  {
    var entries := repository.GetBySourceId(sourceId);
    var folders := FilterFolders(entries);
    forall i | 0 <= i < |t.children|
      ensures Loaded(repository, s, a', t.children[i], folders[i].id)
    {
      LoadedFrame(repository, s, a, a', t.children[i], folders[i].id);
    }
    var linked := PlusNotNull(ChildEntries(t, folders), BackTo(s.res, a[t.node].parent));
    ListingPagedFrame(s, a, a', t.node, Node(a[t.node].parent, a[t.node].title, t.text, linked), t.pagesFrom,
                      entries);
  }

  /** A parentless loaded node, such as the root, holds no `Back` marker:
      all its entries are folder nodes and page links. */
  lemma LoadedRootEntries(repository: Repository, s: Settings, a: Arena, t: LoadTree, sourceId: string)
    requires Loaded(repository, s, a, t, sourceId) && a[t.node].parent == None
    ensures forall m :: m in a[t.node].nodes ==> m.Content?
  {
    var folders := FilterFolders(repository.GetBySourceId(sourceId));
    var kids := ChildEntries(t, folders);
    assert PlusNotNull(kids, BackTo(s.res, a[t.node].parent)) == kids;
  }

  /** The last step of `loadRemoteMessages`: the children made by the loop,
      the entries set by `LinkEntries` on `linked` and the pagination from
      `linked` with the counter at `nK` make `node` loaded. */
  lemma ListingLoaded(repository: Repository, s: Settings, sourceId: string, aL: Arena, linked: Node, a: Arena,
                      node: int, n0: int, nK: int, ids: seq<int>, kids: seq<BotMessage>, trees: seq<LoadTree>)
    requires var folders := FilterFolders(repository.GetBySourceId(sourceId));
             && node in aL && node < n0
             && |ids| == |folders| && |kids| == |folders| && |trees| == |folders|
             && (forall j :: 0 <= j < |ids| ==>
                   && kids[j] == Content(ids[j], folders[j].name)
                   && n0 <= ids[j] && ids[j] in aL
                   && aL[ids[j]].parent == Some(node) && aL[ids[j]].title == folders[j].name
                   && trees[j].node == ids[j] && trees[j].start == ids[j] + 1
                   && trees[j].text == s.res.selectedText(Escaped(folders[j].name))
                   && Loaded(repository, s, aL, trees[j], folders[j].id))
             && (forall j, k :: 0 <= j < k < |ids| ==> ids[j] < ids[k])
    requires linked.nodes == PlusNotNull(kids, BackTo(s.res, aL[node].parent))
    requires node in a && a[node].parent == aL[node].parent
    requires linked.parent == a[node].parent && linked.title == a[node].title
    requires forall x :: x in aL && x != node ==> x in a && a[x] == aL[x]
    requires forall m :: m in linked.nodes ==> m in a[node].nodes
    requires forall m :: m in a[node].nodes ==> m in linked.nodes || NextLink(s.res, m, n0)
    requires Bare(repository.GetBySourceId(sourceId)) ==> a[node] == linked
    requires n0 <= nK && ListingPaged(s, a, node, linked, nK, repository.GetBySourceId(sourceId))
    ensures Loaded(repository, s, a, LoadTree(node, n0, linked.text, nK, trees), sourceId)
  {
    var folders := FilterFolders(repository.GetBySourceId(sourceId));
    var t := LoadTree(node, n0, linked.text, nK, trees);
    TreesKept(repository, s, aL, a, node, n0, folders, trees);
    assert ChildEntries(t, folders) == kids;
    assert Node(a[node].parent, a[node].title, linked.text, PlusNotNull(kids, BackTo(s.res, a[node].parent)))
        == linked;
  }

  /** The children's expansions survive the changes to `node` and the pages
      made after them. */
  lemma TreesKept(repository: Repository, s: Settings, aL: Arena, a: Arena, node: int, n0: int,
                  folders: seq<FolderEntry>, trees: seq<LoadTree>)
    requires node < n0 && |trees| == |folders|
    requires forall j :: 0 <= j < |trees| ==>
               n0 < trees[j].start && trees[j].node + 1 == trees[j].start && trees[j].node in aL
               && Loaded(repository, s, aL, trees[j], folders[j].id)
    requires forall x :: x in aL && x != node ==> x in a && a[x] == aL[x]
    ensures forall j :: 0 <= j < |trees| ==> Loaded(repository, s, a, trees[j], folders[j].id)
  {
    forall j | 0 <= j < |trees|
      ensures Loaded(repository, s, a, trees[j], folders[j].id)
    {
      LoadedFrame(repository, s, aL, a, trees[j], folders[j].id);
    }
  }

  /**
   * `loadRemoteMessages(id, node)`: the entries of `node` become one node
   * with a fresh id per folder of the listing, each expanded fully before
   * the next is made, followed by a `Back` marker to the parent of `node` if
   * it has one; then the listing's texts are paginated on `node` and its
   * files on the last text page. The text of `node` is not reset first. A
   * failure (`chunked` throwing) ends the whole expansion where it happens.
   * `ids` are the ids of the folder nodes.
   */
  method LoadRemoteMessages(repository: Repository, s: Settings, sourceId: string,
                            a0: Arena, ghost l0: map<int, nat>, ghost b0: nat, n0: int, node: int)
    returns (ok: bool, a: Arena, ghost l: map<int, nat>, ghost b: nat, n: int, ghost tree: LoadTree)
    requires repository.Valid() && Wf(a0, l0, b0, n0) && node in a0
    ensures Wf(a, l, b, n) && Grows(a0, l0, n0, a, l, n)
    ensures forall x :: x in a0 && x != node ==> a[x] == a0[x]
    ensures ok ==> tree.node == node && tree.start == n0 && tree.text == a0[node].text
                   && Loaded(repository, s, a, tree, sourceId)
    ensures ok && Bare(repository.GetBySourceId(sourceId)) ==> a[node].text == a0[node].text
    decreases repository.Measure(sourceId), 2
  {
    var entries := repository.GetBySourceId(sourceId);
    var folders := FilterFolders(entries);
    var ids, kids;
    ghost var trees;
    tree := LoadTree(node, n0, a0[node].text, n0, []);
    ok, a, l, b, n, ids, kids, trees := AddFolders(repository, s, sourceId, folders, a0, l0, b0, n0, node);
    if !ok {
      return;
    }
    var aL := a;
    assert node < n0;
    a := LinkEntries(s.res, aL, l, b, n, node, kids);
    GrowsTrans(a0, l0, n0, aL, l, n, a, l, n);
    var aK, nK := a, n;
    ghost var lK := l;
    ghost var aT, nT, textLast;
    ok, a, l, n, aT, nT, textLast := AddListing(s, entries, aK, lK, b, nK, node);
    GrowsTrans(a0, l0, n0, aK, lK, nK, a, l, n);
    if !ok {
      return;
    }
    forall x | x in aL && x != node ensures x in a && a[x] == aL[x] {
      assert aK[x] == aL[x];
    }
    assert node in aK;
    ListingPagedFrom(s, entries, aK, nK, aT, nT, textLast, a, n, node);
    ListingLoaded(repository, s, sourceId, aL, aK[node], a, node, n0, nK, ids, kids, trees);
    tree := LoadTree(node, n0, aK[node].text, nK, trees);
  }

  /** The loop of `loadRemoteMessages` over the folders of a listing: each
      folder in turn becomes a child of `node`, expanded in full; `kids` are
      the entries naming the children, in the listing's order. */
  method AddFolders(repository: Repository, s: Settings, sourceId: string, folders: seq<FolderEntry>,
                    a0: Arena, ghost l0: map<int, nat>, ghost b0: nat, n0: int, node: int)
    returns (ok: bool, a: Arena, ghost l: map<int, nat>, ghost b: nat, n: int, ids: seq<int>, kids: seq<BotMessage>,
             ghost trees: seq<LoadTree>)
    requires repository.Valid() && Wf(a0, l0, b0, n0) && node in a0
    requires folders == FilterFolders(repository.GetBySourceId(sourceId))
    ensures Wf(a, l, b, n) && Grows(a0, l0, n0, a, l, n)
    ensures node in a && node in l
    ensures forall x :: x in a0 ==> a[x] == a0[x]
    ensures ok ==> FoldersMade(repository, s, a, l, node, n0, n, folders, ids, kids, trees, |folders|)
    decreases repository.Measure(sourceId), 1
  {
    a, l, b, n := a0, l0, b0, n0;
    ids := [];
    kids := [];
    trees := [];
    var i := 0;
    while i < |folders|
      invariant 0 <= i <= |folders|
      invariant Wf(a, l, b, n) && Grows(a0, l0, n0, a, l, n)
      invariant node in a && node in l
      invariant forall x :: x in a0 ==> a[x] == a0[x]
      invariant FoldersMade(repository, s, a, l, node, n0, n, folders, ids, kids, trees, i)
    {
      var f := folders[i];
      var expanded, id;
      ghost var tree;
      var aP, nP := a, n;
      ghost var lP := l;
      expanded, a, l, b, n, id, tree := AddFolder(repository, s, sourceId, f, aP, lP, b, nP, node);
      GrowsTrans(a0, l0, n0, aP, lP, nP, a, l, n);
      if !expanded {
        ok := false;
        return;
      }
      FolderStep(repository, s, aP, lP, nP, a, l, n, node, n0, folders, ids, kids, trees, i, id, tree);
      ids := ids + [id];
      trees := trees + [tree];
      kids := kids + [Content(id, f.name)];
      i := i + 1;
    }
    ok := true;
  }

  /** The first `i` folders of `folders` have become children `ids` of
      `node`, named by `kids` and expanded as `trees`, in order. */
  ghost predicate FoldersMade(repository: Repository, s: Settings, a: Arena, l: map<int, nat>, node: int,
                              n0: int, n: int, folders: seq<FolderEntry>, ids: seq<int>, kids: seq<BotMessage>,
                              trees: seq<LoadTree>, i: int)
  {
    && node in l
    && 0 <= i <= |folders| && |ids| == i && |kids| == i && |trees| == i
    && (forall j :: 0 <= j < i ==>
          && kids[j] == Content(ids[j], folders[j].name)
          && n0 <= ids[j] < n && ids[j] in a && ids[j] in l
          && a[ids[j]].parent == Some(node) && a[ids[j]].title == folders[j].name
          && l[ids[j]] == l[node] + 1)
    && (forall j :: 0 <= j < i ==>
          && trees[j].node == ids[j] && trees[j].start == ids[j] + 1
          && trees[j].text == s.res.selectedText(Escaped(folders[j].name))
          && Loaded(repository, s, a, trees[j], folders[j].id))
    && (forall j, k :: 0 <= j < k < i ==> ids[j] < ids[k])
  }

  /** A step of `AddFolders`: the child `id` of `node`, expanded as `tree`
      after the counter reached `n`, joins the children made so far. */
  lemma FolderStep(repository: Repository, s: Settings, a: Arena, l: map<int, nat>, n: int,
                   a': Arena, l': map<int, nat>, n': int, node: int, n0: int, folders: seq<FolderEntry>,
                   ids: seq<int>, kids: seq<BotMessage>, trees: seq<LoadTree>, i: int, id: int, tree: LoadTree)
    requires node in a && node in l && i < |folders|
    requires FoldersMade(repository, s, a, l, node, n0, n, folders, ids, kids, trees, i)
    requires n0 <= n && Extends(a, l, a', l') && n <= id < n' && forall x :: x in a ==> a'[x] == a[x]
    requires id in a' && id in l' && l'[id] == l[node] + 1
    requires a'[id].parent == Some(node) && a'[id].title == folders[i].name
    requires tree.node == id && tree.start == id + 1 && tree.text == s.res.selectedText(Escaped(folders[i].name))
    requires Loaded(repository, s, a', tree, folders[i].id)
    ensures FoldersMade(repository, s, a', l', node, n0, n', folders, ids + [id],
                        kids + [Content(id, folders[i].name)], trees + [tree], i + 1)
  {
    FolderAdded(a, l, n, a', l', n', node, folders, ids, kids, i, id);
    TreesAdded(repository, s, a, a', folders, ids, trees, i, id, tree);
  }

  /** One step of `AddFolders`: the children made so far keep their
      entries, parent, title and level, and the new child joins them. */
  lemma FolderAdded(a: Arena, l: map<int, nat>, n: int, a': Arena, l': map<int, nat>, n': int,
                    node: int, folders: seq<FolderEntry>, ids: seq<int>, kids: seq<BotMessage>, i: int, id: int)
    requires 0 <= i < |folders| && |ids| == i && |kids| == i
    requires node in a && node in l && Extends(a, l, a', l') && n <= id < n'
    requires forall j :: 0 <= j < i ==>
               && kids[j] == Content(ids[j], folders[j].name)
               && ids[j] < n && ids[j] in a && ids[j] in l
               && a[ids[j]].parent == Some(node) && a[ids[j]].title == folders[j].name
               && l[ids[j]] == l[node] + 1
    requires forall j, k :: 0 <= j < k < i ==> ids[j] < ids[k]
    requires id in a' && id in l' && l'[id] == l[node] + 1
    requires a'[id].parent == Some(node) && a'[id].title == folders[i].name
    ensures node in a' && node in l' && l'[node] == l[node]
    ensures forall j :: 0 <= j < i + 1 ==>
              && (kids + [Content(id, folders[i].name)])[j] == Content((ids + [id])[j], folders[j].name)
              && (ids + [id])[j] < n' && (ids + [id])[j] in a' && (ids + [id])[j] in l'
              && a'[(ids + [id])[j]].parent == Some(node) && a'[(ids + [id])[j]].title == folders[j].name
              && l'[(ids + [id])[j]] == l'[node] + 1
    ensures forall j, k :: 0 <= j < k < i + 1 ==> (ids + [id])[j] < (ids + [id])[k]
  {
  }

  /** The other half of a step of `AddFolders`: the trees expanded so far
      stay expanded, since the new child and its expansion only add nodes,
      and the new tree joins them. */
  lemma TreesAdded(repository: Repository, s: Settings, a: Arena, a': Arena, folders: seq<FolderEntry>,
                   ids: seq<int>, trees: seq<LoadTree>, i: int, id: int, tree: LoadTree)
    requires 0 <= i < |folders| && |ids| == i && |trees| == i
    requires forall x :: x in a ==> x in a' && a'[x] == a[x]
    requires forall j :: 0 <= j < i ==>
               && ids[j] in a
               && trees[j].node == ids[j] && trees[j].start == ids[j] + 1
               && trees[j].text == s.res.selectedText(Escaped(folders[j].name))
               && Loaded(repository, s, a, trees[j], folders[j].id)
    requires tree.text == s.res.selectedText(Escaped(folders[i].name))
    requires tree.node == id && tree.start == id + 1 && Loaded(repository, s, a', tree, folders[i].id)
    ensures forall j :: 0 <= j < i + 1 ==>
              && (trees + [tree])[j].node == (ids + [id])[j] && (trees + [tree])[j].start == (ids + [id])[j] + 1
              && (trees + [tree])[j].text == s.res.selectedText(Escaped(folders[j].name))
              && Loaded(repository, s, a', (trees + [tree])[j], folders[j].id)
  {
    forall j | 0 <= j < i + 1
      ensures (trees + [tree])[j].node == (ids + [id])[j] && (trees + [tree])[j].start == (ids + [id])[j] + 1
      ensures (trees + [tree])[j].text == s.res.selectedText(Escaped(folders[j].name))
      ensures Loaded(repository, s, a', (trees + [tree])[j], folders[j].id)
    {
      if j < i {
        LoadedFrame(repository, s, a, a', trees[j], folders[j].id);
      }
    }
  }

  /** One folder `f` of the listing of `sourceId`: a fresh node labelled with
      the folder name, whose text is `message.selectedText` of the escaped
      name, is made a child of `node` and expanded from the folder's id. */
  method AddFolder(repository: Repository, s: Settings, sourceId: string, f: FolderEntry,
                   a0: Arena, ghost l0: map<int, nat>, ghost b0: nat, n0: int, node: int)
    returns (ok: bool, a: Arena, ghost l: map<int, nat>, ghost b: nat, n: int, id: int, ghost tree: LoadTree)
    requires repository.Valid() && Wf(a0, l0, b0, n0) && node in a0 && node in l0
    requires f in FilterFolders(repository.GetBySourceId(sourceId))
    ensures Wf(a, l, b, n) && Grows(a0, l0, n0, a, l, n)
    ensures forall x :: x in a0 ==> a[x] == a0[x]
    ensures n0 <= id < n && id in a && id in l && l[id] == l0[node] + 1
    ensures a[id].parent == Some(node) && a[id].title == f.name
    ensures ok ==> tree.node == id && tree.start == id + 1 && tree.text == s.res.selectedText(Escaped(f.name))
                   && Loaded(repository, s, a, tree, f.id)
    ensures ok && Bare(repository.GetBySourceId(f.id)) ==> a[id].text == s.res.selectedText(Escaped(f.name))
    decreases repository.Measure(sourceId), 0
  {
    id := n0;
    n := n0 + 1;
    ghost var lv := l0[node] + 1;
    b := b0;
    if b < lv {
      WfGrow(a0, l0, b0, id, lv, id);
      b := lv;
    }
    var child := Node(Some(node), f.name, s.res.selectedText(Escaped(f.name)), []);
    WfAdd(a0, l0, b, id, id, child, lv);
    GrowsAdd(a0, l0, b0, n0, id, child, lv);
    var a1 := a0[id := child];
    ghost var l1 := l0[id := lv];
    repository.FolderDescends(sourceId, f);
    var n1 := n;
    ok, a, l, b, n, tree := LoadRemoteMessages(repository, s, f.id, a1, l1, b, n1, id);
    GrowsTrans(a0, l0, n0, a1, l1, n1, a, l, n);
    forall x | x in a0 ensures a[x] == a0[x] {
      assert x < n0 && x != id;
    }
  }

  /**
   * The search-result tree of `files` on the fresh root `n0`: the root's
   * text is the escaped "not found" text when no file matches and the
   * "found" text otherwise; building fails exactly when its file pagination
   * does, and otherwise the files are paginated on the root, which keeps no
   * entries when there is no file.
   */
  ghost predicate SearchTree(s: Settings, files: seq<FileEntry>, a0: Arena, n0: int, ok: bool, a: Arena, n: int)
  {
    var text := Escaped(if files == [] then s.res.notFound else s.res.found);
    var root := Node(None, Escaped(s.res.find), text, []);
    var pieces := FilePieces(files, text, s.bullet, s.limit, s.perPage);
    && (ok <==> pieces.Some?)
    && (ok ==> Paginated(s.res, a0[n0 := root], n0 + 1, a, n, n0, pieces.value))
    && (files == [] ==> ok && n0 in a && a[n0] == root)
  }

  /** The search-result tree of `files`: a fresh parentless root `n0`, then
      its files paginated on it. */
  method StartSearch(s: Settings, files: seq<FileEntry>, a0: Arena, ghost l0: map<int, nat>, ghost bound: nat,
                     n0: int)
    returns (ok: bool, a: Arena, ghost l: map<int, nat>, n: int)
    requires Wf(a0, l0, bound, n0) && 0 <= n0
    ensures Wf(a, l, bound, n) && Grows(a0, l0, n0, a, l, n)
    ensures a0.Keys <= a.Keys && forall x :: x in a0 ==> x in a && a[x] == a0[x]
    ensures n0 in a && a[n0].parent == None && a[n0].title == Escaped(s.res.find)
    ensures SearchTree(s, files, a0, n0, ok, a, n)
  {
    var text := Escaped(if files == [] then s.res.notFound else s.res.found);
    var root := Node(None, Escaped(s.res.find), text, []);
    WfAdd(a0, l0, bound, n0, n0, root, 0);
    GrowsAdd(a0, l0, bound, n0, n0, root, 0);
    var a1 := a0[n0 := root];
    ghost var l1 := l0[n0 := 0];
    var last;
    ok, a, l, n, last := AddFiles(s, files, a1, l1, bound, n0 + 1, n0);
    GrowsTrans(a0, l0, n0, a1, l1, n0 + 1, a, l, n);
    forall x | x in a0 ensures x in a && a[x] == a0[x] {
      assert x < n0 && a1[x] == a0[x];
    }
  }

  /** The engine's state is well formed: the main root is a parentless
      node, the arena is well formed, and every cached search root is a
      node. */
  ghost predicate ProviderState(rootId: int, arena: Arena, level: map<int, nat>, bound: nat, nextId: int,
                                searchCache: map<int, int>)
  {
    && 0 <= rootId && rootId in arena && arena[rootId].parent == None
    && Wf(arena, level, bound, nextId)
    && searchCache.Values <= arena.Keys
  }

  /** The state stays well formed when the arena grows without changing any
      existing node and the cache gains at most nodes of the new arena. */
  lemma StateKept(rootId: int, a0: Arena, a: Arena, l: map<int, nat>, bound: nat, n: int,
                  cache0: map<int, int>, cache: map<int, int>)
    requires 0 <= rootId && rootId in a0 && a0[rootId].parent == None && cache0.Values <= a0.Keys
    requires Wf(a, l, bound, n) && forall x :: x in a0 ==> x in a && a[x] == a0[x]
    requires cache.Values <= cache0.Values + a.Keys
    ensures ProviderState(rootId, a, l, bound, n, cache)
  {
    forall x | x in a0.Keys
      ensures x in a.Keys
    {
      assert x in a0;
    }
  }

  class MessageProvider {
    /** The `DataRepository` the engine reads. */
    const repository: Repository
    const settings: Settings
    /** The id of `rootMessage`. */
    const rootId: int

    /** The next value `idGenerator.getAndIncrement()` hands out. */
    var nextId: int
    var arena: Arena
    /** `searchCache`: chat id to the root of its search-result tree. */
    var searchCache: map<int, int>
    ghost var level: map<int, nat>
    ghost var depthBound: nat

    ghost predicate Valid()
      reads this
    {
      ProviderState(rootId, arena, level, depthBound, nextId, searchCache)
    }

    /** `MessageHolder(repository)`: the root node, with the escaped main text
        and no entries, and an empty search cache. */
    constructor (repository: Repository, settings: Settings)
      ensures Valid()
      ensures this.repository == repository && this.settings == settings
      ensures rootId == 0 && nextId == 1 && searchCache == map[]
      ensures arena == map[0 := Node(None, "", Escaped(settings.res.main), [])]
    {
      this.repository := repository;
      this.settings := settings;
      rootId := 0;
      nextId := 1;
      arena := map[0 := Node(None, "", Escaped(settings.res.main), [])];
      searchCache := map[];
      level := map[0 := 0];
      depthBound := 0;
    }

    /** `sync()`: expand the main tree from the root source id `""`: the
        root's entries become one node per root folder, each expanded in
        turn, and its texts and files are paginated on it. */
    method Sync() returns (ok: bool, ghost tree: LoadTree)
      requires Valid() && repository.Valid()
      modifies this
      ensures Valid() && searchCache == old(searchCache)
      ensures Grows(old(arena), old(level), old(nextId), arena, level, nextId)
      ensures forall x :: x in old(arena) && x != rootId ==> arena[x] == old(arena[x])
      ensures ok ==> tree.node == rootId && tree.start == old(nextId) && tree.text == old(arena[rootId].text)
                     && Loaded(repository, settings, arena, tree, "")
      ensures ok ==> forall m :: m in arena[rootId].nodes ==> m.Content?
      ensures ok && Bare(repository.GetBySourceId("")) ==> arena[rootId].text == old(arena[rootId].text)
    {
      var a, n;
      ghost var l, b;
      ok, a, l, b, n, tree := LoadRemoteMessages(repository, settings, "", arena, level, depthBound, nextId, rootId);
      assert arena.Keys <= a.Keys;
      arena, level, depthBound, nextId := a, l, b, n;
      if ok {
        LoadedRootEntries(repository, settings, arena, tree, "");
      }
    }

    /**
     * `search(chatId, predicate)` / `startSearch(predicate, chatId)`: a fresh
     * parentless root labelled with the escaped "find" text, whose text is
     * the escaped "not found" text when no file matches and the "found" text
     * otherwise; the matching files are paginated on it and it becomes the
     * chat's cached search root, replacing any earlier one. No node that
     * existed before changes.
     */
    method Search(chatId: int, query: string) returns (ok: bool, root: int)
      requires Valid()
      modifies this
      ensures Valid()
      ensures Grows(old(arena), old(level), old(nextId), arena, level, nextId)
      ensures forall x :: x in old(arena) ==> arena[x] == old(arena[x])
      ensures root == old(nextId) && root in arena
      ensures arena[root].parent == None && arena[root].title == Escaped(settings.res.find)
      ensures SearchTree(settings, repository.FindFiles(query), old(arena), root, ok, arena, nextId)
      ensures ok ==> searchCache == old(searchCache)[chatId := root]
      ensures !ok ==> searchCache == old(searchCache)
    {
      var files := repository.FindFiles(query);
      root := nextId;
      var a, n;
      ghost var l;
      var a0 := arena;
      ok, a, l, n := StartSearch(settings, files, a0, level, depthBound, root);
      var cache := if ok then searchCache[chatId := root] else searchCache;
      StateKept(rootId, a0, a, l, depthBound, n, searchCache, cache);
      Install(a, l, n, cache);
    }

    /** Replaces the mutable state by a well-formed one. */
    method Install(a: Arena, ghost l: map<int, nat>, n: int, cache: map<int, int>)
      requires ProviderState(rootId, a, l, depthBound, n, cache)
      modifies this
      ensures Valid()
      ensures arena == a && level == l && nextId == n && searchCache == cache
    {
      arena, level, nextId, searchCache := a, l, n, cache;
    }

    /** The root of the tree a token addresses: the main root for `Normal`,
        the cached search root of the chat for `Search`. */
    function TreeRoot(info: MessageInfo): (r: Option<int>)
      reads this
      requires Valid()
      ensures r.Some? ==> r.value in arena
      ensures info.Normal? ==> r == Some(rootId)
      ensures info.Search? ==> (r.Some? <==> info.chatId in searchCache)
    {
      match info
      case Normal(_) => Some(rootId)
      case Search(_, chatId) => if chatId in searchCache then Some(searchCache[chatId]) else None
    }

    /**
     * `get(messageInfo)` of DefaultMessageProvider.kt: the node with the
     * token's id, searched in pre-order from the token's tree root; no
     * answer for a `Search` token whose chat has no cached search.
     */
    function Get(info: MessageInfo): (r: Option<int>)
      reads this
      requires Valid()
      ensures r.Some? ==> r.value == info.id && r.value in arena
      ensures TreeRoot(info).None? ==> r.None?
      ensures TreeRoot(info).Some? ==>
                r == FirstContent(Visits(arena, level, depthBound, nextId, TreeRoot(info).value), info.id)
    {
      var root := TreeRoot(info);
      if root.None? then None
      else
        FindContentIsFirst(arena, level, depthBound, nextId, info.id, root.value);
        VisitsInArena(arena, level, depthBound, nextId, root.value);
        FindContent(arena, level, depthBound, nextId, info.id, root.value)
    }

    /**
     * `findMessage(messageType)` of the MessageHolder.kt copies: as `Get`,
     * but the first entry met whose id is the token's, which for id -1 is
     * the first `Back` marker.
     */
    function FindMessage(info: MessageInfo): (r: Option<BotMessage>)
      reads this
      requires Valid()
      ensures TreeRoot(info).None? ==> r.None?
      ensures TreeRoot(info).Some? ==>
                r == First(Visits(arena, level, depthBound, nextId, TreeRoot(info).value), info.id)
      ensures info.id != -1 ==> (r.Some? <==> Get(info).Some?)
      ensures info.id == -1 && TreeRoot(info).Some? ==>
                r == FirstBack(Visits(arena, level, depthBound, nextId, TreeRoot(info).value))
    {
      var root := TreeRoot(info);
      if root.None? then None
      else
        FindNodeIsFirst(arena, level, depthBound, nextId, info.id, root.value);
        FindContentIsFirst(arena, level, depthBound, nextId, info.id, root.value);
        if info.id == -1 then
          BackLookup(arena, level, depthBound, nextId, root.value);
          FindNode(arena, level, depthBound, nextId, info.id, root.value)
        else
          LookupsAgree(arena, level, depthBound, nextId, info.id, root.value);
          FindNode(arena, level, depthBound, nextId, info.id, root.value)
    }
  }

  /** `DefaultMessageProvider(repository)`: the constructor also runs
      `sync()`, so on success the main tree is expanded below root `0`, whose
      text is the escaped main text unless the root listing has texts or
      files. */
  method CreateDefaultProvider(repository: Repository, res: Strings)
    returns (provider: MessageProvider, ok: bool, ghost tree: LoadTree)
    requires repository.Valid()
    ensures fresh(provider) && provider.Valid()
    ensures provider.repository == repository
    ensures provider.settings == Settings(res, BULLET, MAX_TEXT_LENGTH, MAX_FILES_PER_PAGE)
    ensures provider.rootId == 0 && provider.searchCache == map[]
    ensures 0 in provider.arena && provider.arena[0].parent == None
    ensures ok ==> tree.node == 0 && tree.start == 1 && tree.text == Escaped(res.main)
                   && Loaded(repository, provider.settings, provider.arena, tree, "")
    ensures ok ==> forall m :: m in provider.arena[0].nodes ==> m.Content?
    ensures ok && Bare(repository.GetBySourceId("")) ==> provider.arena[0].text == Escaped(res.main)
  {
    provider := new MessageProvider(repository, Settings(res, BULLET, MAX_TEXT_LENGTH, MAX_FILES_PER_PAGE));
    ok, tree := provider.Sync();
  }
}
