/**
 * The message tree's node type (domain/BotMessage.kt in both source sets) and
 * the resource strings the engine labels its nodes with.
 *
 * A `Content` node is kept in an arena keyed by its id, because its `text`
 * and `nodes` are overwritten in place; what a node's `nodes` list holds is a
 * `BotMessage` reference: a `Content` node by id (with its read-only label),
 * or a `Back` marker, an immutable value naming its parent node.
 */
module Messages {
  import opened Wrappers
  import opened Lists

  /**
   * The resource bundle entries the engine reads: `message.main`,
   * `action.previousPage`, `action.nextPage`, `action.back`, `action.find`,
   * `message.found`, `message.notFound`, and `message.selectedText`, applied
   * with `format` to an (escaped) folder name.
   */
  datatype Strings = Strings(
    main: string,
    previousPage: string,
    nextPage: string,
    back: string,
    find: string,
    found: string,
    notFound: string,
    selectedText: string -> string)
  {
    /** The three navigation labels differ from each other. */
    predicate Distinct()
    {
      previousPage != nextPage && previousPage != back && nextPage != back
    }
  }

  /** An entry of a node's `nodes` list. */
  datatype BotMessage =
    | Content(id: int, title: string)
    | Back(parent: Option<int>, title: string)

  /** The mutable part of `BotMessage.Content` with its read-only `parent`
      and `label` (here `title`, `label` being a Dafny keyword); its `id` is
      the arena key. */
  datatype Node = Node(parent: Option<int>, title: string, text: string, nodes: seq<BotMessage>)

  /** `BotMessage.id` of the Kotlin source set: `Back.id` is always -1. */
  function NodeId(m: BotMessage): (r: int)
    ensures m.Back? ==> r == -1
    ensures m.Content? ==> r == m.id
  {
    match m
    case Content(id, _) => id
    case Back(_, _) => -1
  }

  /** `createBackMessage(parent)`: a `Back` marker with the default label
      `action.back`. */
  function CreateBackMessage(res: Strings, parent: int): (r: BotMessage)
    ensures r.Back? && r.parent == Some(parent) && r.title == res.back
  {
    Back(Some(parent), res.back)
  }

  /** `node.parent?.let { createBackMessage(it) }`. */
  function BackTo(res: Strings, parent: Option<int>): (r: Option<BotMessage>)
    ensures r.Some? <==> parent.Some?
    ensures r.Some? ==> r.value == CreateBackMessage(res, parent.value)
  {
    if parent.Some? then Some(CreateBackMessage(res, parent.value)) else None
  }

  /** The key of `sorted()`: previous page 1, next page 2, back 4, anything
      else 3, the labels being compared in that order. */
  function SortKey(res: Strings, title: string): (k: int)
    ensures 1 <= k <= 4
    ensures k == 1 <==> title == res.previousPage
    ensures k == 2 <==> title == res.nextPage && title != res.previousPage
    ensures k == 4 <==> title == res.back && title != res.previousPage && title != res.nextPage
  {
    if title == res.previousPage then 1
    else if title == res.nextPage then 2
    else if title == res.back then 4
    else 3
  }

  function EntryKey(res: Strings): BotMessage -> int
  {
    (m: BotMessage) => SortKey(res, m.title)
  }

  /** `List<BotMessage>.sorted()`: the stable sort by `SortKey`. */
  function SortedNodes(res: Strings, ms: seq<BotMessage>): seq<BotMessage>
  {
    SortBy(ms, EntryKey(res))
  }

  /** The entries of `ms` whose sort key is `k`, in their original order. */
  function Group(res: Strings, ms: seq<BotMessage>, k: int): seq<BotMessage>
  {
    WithKey(ms, EntryKey(res), k)
  }

  /**
   * A sorted entry list is the previous-page entries, then the next-page
   * entries, then all other entries, then the back entries, each group in
   * the order it had before sorting.
   */
  lemma SortedNodesGroups(res: Strings, ms: seq<BotMessage>)
    ensures SortedNodes(res, ms) ==
            Group(res, ms, 1) + Group(res, ms, 2) + Group(res, ms, 3) + Group(res, ms, 4)
  {
    var key := EntryKey(res);
    var s := SortedNodes(res, ms);
    SortByProperties(ms, key);
    assert forall i :: 0 <= i < |s| ==> 1 <= key(s[i]) <= 4;
    SortedGroups(s, key, 1, 4);
    var w1, w2, w3, w4 := WithKey(s, key, 1), WithKey(s, key, 2), WithKey(s, key, 3), WithKey(s, key, 4);
    assert Groups(s, key, 4, 4) == w4 + Groups(s, key, 5, 4) == w4;
    assert Groups(s, key, 3, 4) == w3 + w4;
    assert Groups(s, key, 2, 4) == w2 + (w3 + w4);
    assert Groups(s, key, 1, 4) == w1 + (w2 + (w3 + w4));
  }

  /** Sorting keeps every entry and adds none. */
  lemma SortedNodesMembers(res: Strings, ms: seq<BotMessage>)
    ensures multiset(SortedNodes(res, ms)) == multiset(ms)
    ensures forall m :: m in SortedNodes(res, ms) <==> m in ms
  {
    SortByProperties(ms, EntryKey(res));
    SortByMembers(ms, EntryKey(res));
  }
}
