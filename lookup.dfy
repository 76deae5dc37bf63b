/**
 * The node arena and `findMessageByIdInternal`, the pre-order search by id.
 *
 * Every node is kept in an arena keyed by its id. The `Content` entries form
 * a DAG rather than a tree (every further page of a node lists the entries of
 * its first page too); what makes the search terminate is a ghost `level`: a
 * `Content` entry leads to a node of a deeper level, or to a node of the same
 * level with a larger id (the next page of a chain). `Back` entries are never
 * followed.
 */
module Lookup {
  import opened Wrappers
  import opened Messages

  type Arena = map<int, Node>

  /** A `Content` entry of node `x` names a node of the arena, carries that
      node's label, and leads deeper or, on the same level, to a later id. */
  ghost predicate EdgeOk(arena: Arena, level: map<int, nat>, x: int, m: BotMessage)
    requires x in level
  {
    m.Content? ==>
      && m.id in arena && m.id in level
      && arena[m.id].title == m.title
      && (level[m.id] > level[x] || (level[m.id] == level[x] && m.id > x))
  }

  /** The arena is well formed: its ids are in `0..top`, each has a level of
      at most `bound`, and every entry is an `EdgeOk` edge. */
  ghost predicate Wf(arena: Arena, level: map<int, nat>, bound: nat, top: int)
  {
    && (forall x :: x in arena ==> 0 <= x < top && x in level && level[x] <= bound)
    && (forall x, m :: x in arena && x in level && m in arena[x].nodes ==> EdgeOk(arena, level, x, m))
  }

  lemma WfEdge(arena: Arena, level: map<int, nat>, bound: nat, top: int, x: int, k: int)
    requires Wf(arena, level, bound, top) && x in arena && 0 <= k < |arena[x].nodes|
    ensures x in level && EdgeOk(arena, level, x, arena[x].nodes[k])
  {
    assert arena[x].nodes[k] in arena[x].nodes;
  }

  /** What every operation of the engine keeps: no node is removed, and the
      label, parent and level of every node stay as they were. */
  ghost predicate Extends(a0: Arena, l0: map<int, nat>, a1: Arena, l1: map<int, nat>)
  {
    forall x :: x in a0 ==>
      && x in a1 && a1[x].title == a0[x].title && a1[x].parent == a0[x].parent
      && (x in l0 ==> x in l1 && l1[x] == l0[x])
  }

  lemma ExtendsTrans(a0: Arena, l0: map<int, nat>, a1: Arena, l1: map<int, nat>, a2: Arena, l2: map<int, nat>)
    requires Extends(a0, l0, a1, l1) && Extends(a1, l1, a2, l2)
    ensures Extends(a0, l0, a2, l2)
  {
  }

  /** A larger id bound or level bound keeps the arena well formed. */
  lemma WfGrow(arena: Arena, level: map<int, nat>, bound: nat, top: int, bound': nat, top': int)
    requires Wf(arena, level, bound, top) && bound <= bound' && top <= top'
    ensures Wf(arena, level, bound', top')
  {
  }

  /** Adding a fresh node, whose `Content` entries all lead deeper than its
      level, keeps the arena well formed. */
  lemma WfAdd(arena: Arena, level: map<int, nat>, bound: nat, top: int, id: int, n: Node, lv: nat)
    requires Wf(arena, level, bound, top) && 0 <= top <= id && lv <= bound
    requires forall m :: m in n.nodes && m.Content? ==>
               m.id in arena && m.id in level && arena[m.id].title == m.title && level[m.id] > lv
    ensures Wf(arena[id := n], level[id := lv], bound, id + 1)
  {
    var a, l := arena[id := n], level[id := lv];
    forall x, m | x in a && x in l && m in a[x].nodes ensures EdgeOk(a, l, x, m) {
      if x != id {
        assert EdgeOk(arena, level, x, m);
      }
    }
  }

  /** Replacing the text of a node keeps the arena well formed. */
  lemma WfRetext(arena: Arena, level: map<int, nat>, bound: nat, top: int, x: int, text: string)
    requires Wf(arena, level, bound, top) && x in arena
    ensures Wf(arena[x := arena[x].(text := text)], level, bound, top)
  {
    var a := arena[x := arena[x].(text := text)];
    forall y, m | y in a && y in level && m in a[y].nodes ensures EdgeOk(a, level, y, m) {
      assert EdgeOk(arena, level, y, m);
    }
  }

  /** Replacing the entries of a node by entries that are edges of the
      arena keeps it well formed. */
  lemma WfRelink(arena: Arena, level: map<int, nat>, bound: nat, top: int, x: int, nodes: seq<BotMessage>)
    requires Wf(arena, level, bound, top) && x in arena && x in level
    requires forall m :: m in nodes ==> EdgeOk(arena, level, x, m)
    ensures Wf(arena[x := arena[x].(nodes := nodes)], level, bound, top)
  {
    var a := arena[x := arena[x].(nodes := nodes)];
    forall y, m | y in a && y in level && m in a[y].nodes ensures EdgeOk(a, level, y, m) {
      assert EdgeOk(arena, level, y, m);
    }
  }

  // ---------------------------------------------------------------------
  // DefaultMessageProvider.kt: only `Content` nodes are compared.

  /** `findMessageByIdInternal(id, node)` of DefaultMessageProvider.kt. */
  function FindContent(arena: Arena, ghost level: map<int, nat>, ghost bound: nat, ghost top: int,
                       id: int, n: int): Option<int>
    requires Wf(arena, level, bound, top) && n in arena
    decreases bound - level[n], top - n, 1, 0
  {
    if n == id then Some(n) else FindContentIn(arena, level, bound, top, id, n, 0)
  }

  /** The `forEach` over the entries of `owner` from the k-th on. */
  function FindContentIn(arena: Arena, ghost level: map<int, nat>, ghost bound: nat, ghost top: int,
                         id: int, owner: int, k: nat): Option<int>
    requires Wf(arena, level, bound, top) && owner in arena && k <= |arena[owner].nodes|
    decreases bound - level[owner], top - owner, 0, |arena[owner].nodes| - k
  {
    if k == |arena[owner].nodes| then None
    else
      WfEdge(arena, level, bound, top, owner, k);
      match arena[owner].nodes[k]
      case Back(_, _) => FindContentIn(arena, level, bound, top, id, owner, k + 1)
      case Content(c, _) =>
        match FindContent(arena, level, bound, top, id, c)
        case Some(r) => Some(r)
        case None => FindContentIn(arena, level, bound, top, id, owner, k + 1)
  }

  // ---------------------------------------------------------------------
  // The two MessageHolder.kt copies: the id is compared before the type, so
  // a `Back` entry (id -1) can be found.

  /** `findMessageByIdInternal(id, node)` of the MessageHolder.kt copies. */
  function FindNode(arena: Arena, ghost level: map<int, nat>, ghost bound: nat, ghost top: int,
                    id: int, n: int): Option<BotMessage>
    requires Wf(arena, level, bound, top) && n in arena
    decreases bound - level[n], top - n, 1, 0
  {
    if n == id then Some(Content(n, arena[n].title)) else FindNodeIn(arena, level, bound, top, id, n, 0)
  }

  function FindNodeIn(arena: Arena, ghost level: map<int, nat>, ghost bound: nat, ghost top: int,
                      id: int, owner: int, k: nat): Option<BotMessage>
    requires Wf(arena, level, bound, top) && owner in arena && k <= |arena[owner].nodes|
    decreases bound - level[owner], top - owner, 0, |arena[owner].nodes| - k
  {
    if k == |arena[owner].nodes| then None
    else
      WfEdge(arena, level, bound, top, owner, k);
      var m := arena[owner].nodes[k];
      var found := match m
        case Back(_, _) => if id == NodeId(m) then Some(m) else None
        case Content(c, _) => FindNode(arena, level, bound, top, id, c);
      if found.Some? then found else FindNodeIn(arena, level, bound, top, id, owner, k + 1)
  }

  // ---------------------------------------------------------------------
  // The reference: the pre-order sequence of the entries met.

  /** The entries met by a pre-order walk from node `n`: `n` itself, then,
      for each entry in order, a `Back` entry as it is or the walk from the
      `Content` node it names. */
  ghost function Visits(arena: Arena, level: map<int, nat>, bound: nat, top: int, n: int): seq<BotMessage>
    requires Wf(arena, level, bound, top) && n in arena
    decreases bound - level[n], top - n, 1, 0
  {
    [Content(n, arena[n].title)] + VisitsIn(arena, level, bound, top, n, 0)
  }

  ghost function VisitsIn(arena: Arena, level: map<int, nat>, bound: nat, top: int, owner: int, k: nat)
    : seq<BotMessage>
    requires Wf(arena, level, bound, top) && owner in arena && k <= |arena[owner].nodes|
    decreases bound - level[owner], top - owner, 0, |arena[owner].nodes| - k
  {
    if k == |arena[owner].nodes| then []
    else
      WfEdge(arena, level, bound, top, owner, k);
      var m := arena[owner].nodes[k];
      (match m
       case Back(_, _) => [m]
       case Content(c, _) => Visits(arena, level, bound, top, c)) +
      VisitsIn(arena, level, bound, top, owner, k + 1)
  }

  /** The first entry of `s` whose `NodeId` is `id`. */
  function First(s: seq<BotMessage>, id: int): (r: Option<BotMessage>)
    ensures r.Some? ==> NodeId(r.value) == id && r.value in s
    ensures r.None? <==> forall i :: 0 <= i < |s| ==> NodeId(s[i]) != id
    ensures r.Some? ==> exists i :: 0 <= i < |s| && s[i] == r.value && forall j :: 0 <= j < i ==> NodeId(s[j]) != id
  {
    if s == [] then None
    else if NodeId(s[0]) == id then Some(s[0])
    else
      var r := First(s[1..], id);
      assert forall i :: 1 <= i < |s| ==> s[i] == s[1..][i - 1];
      r
  }

  /** The first `Back` entry of `s`. */
  function FirstBack(s: seq<BotMessage>): (r: Option<BotMessage>)
    ensures r.Some? ==> r.value.Back? && r.value in s
    ensures r.None? <==> forall i :: 0 <= i < |s| ==> !s[i].Back?
    ensures r.Some? ==> exists i :: 0 <= i < |s| && s[i] == r.value && forall j :: 0 <= j < i ==> !s[j].Back?
  {
    if s == [] then None
    else if s[0].Back? then Some(s[0])
    else
      var r := FirstBack(s[1..]);
      assert forall i :: 1 <= i < |s| ==> s[i] == s[1..][i - 1];
      r
  }

  /** The id of the first `Content` entry of `s` with id `id`, if any. */
  function FirstContent(s: seq<BotMessage>, id: int): (r: Option<int>)
    ensures r.Some? ==> r.value == id
    ensures r.Some? <==> exists i :: 0 <= i < |s| && s[i].Content? && s[i].id == id
  {
    if s == [] then None
    else if s[0].Content? && s[0].id == id then Some(id)
    else
      var r := FirstContent(s[1..], id);
      assert forall i :: 1 <= i < |s| ==> s[i] == s[1..][i - 1];
      r
  }

  lemma {:induction false} FirstAppend(a: seq<BotMessage>, b: seq<BotMessage>, id: int)
    ensures First(a + b, id) == if First(a, id).Some? then First(a, id) else First(b, id)
  {
    if a == [] {
      assert a + b == b;
    } else {
      assert (a + b)[0] == a[0] && (a + b)[1..] == a[1..] + b;
      FirstAppend(a[1..], b, id);
    }
  }

  lemma {:induction false} FirstBackAppend(a: seq<BotMessage>, b: seq<BotMessage>)
    ensures FirstBack(a + b) == if FirstBack(a).Some? then FirstBack(a) else FirstBack(b)
  {
    if a == [] {
      assert a + b == b;
    } else {
      assert (a + b)[0] == a[0] && (a + b)[1..] == a[1..] + b;
      FirstBackAppend(a[1..], b);
    }
  }

  lemma {:induction false} FirstContentAppend(a: seq<BotMessage>, b: seq<BotMessage>, id: int)
    ensures FirstContent(a + b, id) == if FirstContent(a, id).Some? then FirstContent(a, id) else FirstContent(b, id)
  {
    if a == [] {
      assert a + b == b;
    } else {
      assert (a + b)[0] == a[0] && (a + b)[1..] == a[1..] + b;
      FirstContentAppend(a[1..], b, id);
    }
  }

  /** The Kotlin lookup answers the first entry of the pre-order walk whose
      id is `id`. */
  lemma {:induction false} FindNodeIsFirst(arena: Arena, level: map<int, nat>, bound: nat, top: int, id: int, n: int)
    requires Wf(arena, level, bound, top) && n in arena
    ensures FindNode(arena, level, bound, top, id, n) == First(Visits(arena, level, bound, top, n), id)
    decreases bound - level[n], top - n, 1, 0
  {
    var head := [Content(n, arena[n].title)];
    FirstAppend(head, VisitsIn(arena, level, bound, top, n, 0), id);
    if n != id {
      assert head[1..] == [];
      FindNodeInIsFirst(arena, level, bound, top, id, n, 0);
    }
  }

  lemma {:induction false} FindNodeInIsFirst(arena: Arena, level: map<int, nat>, bound: nat, top: int,
                                             id: int, owner: int, k: nat)
    requires Wf(arena, level, bound, top) && owner in arena && k <= |arena[owner].nodes|
    ensures FindNodeIn(arena, level, bound, top, id, owner, k) == First(VisitsIn(arena, level, bound, top, owner, k), id)
    decreases bound - level[owner], top - owner, 0, |arena[owner].nodes| - k
  {
    if k < |arena[owner].nodes| {
      WfEdge(arena, level, bound, top, owner, k);
      var m := arena[owner].nodes[k];
      var rest := VisitsIn(arena, level, bound, top, owner, k + 1);
      FindNodeInIsFirst(arena, level, bound, top, id, owner, k + 1);
      match m
      case Back(_, _) =>
        FirstAppend([m], rest, id);
        assert [m][1..] == [];
      case Content(c, _) =>
        FindNodeIsFirst(arena, level, bound, top, id, c);
        FirstAppend(Visits(arena, level, bound, top, c), rest, id);
    }
  }

  /** The lookup of DefaultMessageProvider.kt answers `id` exactly when the
      pre-order walk meets the node `id`. */
  lemma {:induction false} FindContentIsFirst(arena: Arena, level: map<int, nat>, bound: nat, top: int, id: int, n: int)
    requires Wf(arena, level, bound, top) && n in arena
    ensures FindContent(arena, level, bound, top, id, n) == FirstContent(Visits(arena, level, bound, top, n), id)
    decreases bound - level[n], top - n, 1, 0
  {
    var head := [Content(n, arena[n].title)];
    FirstContentAppend(head, VisitsIn(arena, level, bound, top, n, 0), id);
    if n != id {
      assert head[1..] == [];
      FindContentInIsFirst(arena, level, bound, top, id, n, 0);
    }
  }

  lemma {:induction false} FindContentInIsFirst(arena: Arena, level: map<int, nat>, bound: nat, top: int,
                                                id: int, owner: int, k: nat)
    requires Wf(arena, level, bound, top) && owner in arena && k <= |arena[owner].nodes|
    ensures FindContentIn(arena, level, bound, top, id, owner, k) ==
            FirstContent(VisitsIn(arena, level, bound, top, owner, k), id)
    decreases bound - level[owner], top - owner, 0, |arena[owner].nodes| - k
  {
    if k < |arena[owner].nodes| {
      WfEdge(arena, level, bound, top, owner, k);
      var m := arena[owner].nodes[k];
      var rest := VisitsIn(arena, level, bound, top, owner, k + 1);
      FindContentInIsFirst(arena, level, bound, top, id, owner, k + 1);
      match m
      case Back(_, _) =>
        FirstContentAppend([m], rest, id);
        assert [m][1..] == [];
      case Content(c, _) =>
        FindContentIsFirst(arena, level, bound, top, id, c);
        FirstContentAppend(Visits(arena, level, bound, top, c), rest, id);
    }
  }

  /** Every `Content` entry the walk meets is a node of the arena. */
  lemma {:induction false} VisitsInArena(arena: Arena, level: map<int, nat>, bound: nat, top: int, n: int)
    requires Wf(arena, level, bound, top) && n in arena
    ensures forall i :: 0 <= i < |Visits(arena, level, bound, top, n)| ==>
              var m := Visits(arena, level, bound, top, n)[i]; m.Content? ==> m.id in arena
    decreases bound - level[n], top - n, 1, 0
  {
    VisitsInInArena(arena, level, bound, top, n, 0);
  }

  lemma {:induction false} VisitsInInArena(arena: Arena, level: map<int, nat>, bound: nat, top: int, owner: int, k: nat)
    requires Wf(arena, level, bound, top) && owner in arena && k <= |arena[owner].nodes|
    ensures forall i :: 0 <= i < |VisitsIn(arena, level, bound, top, owner, k)| ==>
              var m := VisitsIn(arena, level, bound, top, owner, k)[i]; m.Content? ==> m.id in arena
    decreases bound - level[owner], top - owner, 0, |arena[owner].nodes| - k
  {
    if k < |arena[owner].nodes| {
      WfEdge(arena, level, bound, top, owner, k);
      VisitsInInArena(arena, level, bound, top, owner, k + 1);
      match arena[owner].nodes[k]
      case Back(_, _) =>
      case Content(c, _) => VisitsInArena(arena, level, bound, top, c);
    }
  }

  /** In the MessageHolder.kt copies a lookup of -1 answers the first `Back`
      entry met in pre-order, since no node id is negative. */
  lemma BackLookup(arena: Arena, level: map<int, nat>, bound: nat, top: int, n: int)
    requires Wf(arena, level, bound, top) && n in arena
    ensures FindNode(arena, level, bound, top, -1, n) == FirstBack(Visits(arena, level, bound, top, n))
  {
    var s := Visits(arena, level, bound, top, n);
    FindNodeIsFirst(arena, level, bound, top, -1, n);
    VisitsInArena(arena, level, bound, top, n);
    FirstOfMinusOne(s);
  }

  lemma {:induction false} FirstOfMinusOne(s: seq<BotMessage>)
    requires forall i :: 0 <= i < |s| ==> s[i].Content? ==> s[i].id >= 0
    ensures First(s, -1) == FirstBack(s)
  {
    if s != [] {
      assert forall i :: 0 <= i < |s[1..]| ==> s[1..][i] == s[i + 1];
      FirstOfMinusOne(s[1..]);
    }
  }

  /** For any id other than -1 the two lookups agree: both find the node, or
      neither does. */
  lemma LookupsAgree(arena: Arena, level: map<int, nat>, bound: nat, top: int, id: int, n: int)
    requires Wf(arena, level, bound, top) && n in arena && id != -1
    ensures FindNode(arena, level, bound, top, id, n).Some? <==> FindContent(arena, level, bound, top, id, n).Some?
    ensures FindNode(arena, level, bound, top, id, n).Some? ==>
              FindNode(arena, level, bound, top, id, n).value.Content? &&
              FindNode(arena, level, bound, top, id, n).value.id == id
  {
    var s := Visits(arena, level, bound, top, n);
    FindNodeIsFirst(arena, level, bound, top, id, n);
    FindContentIsFirst(arena, level, bound, top, id, n);
    FirstAgree(s, id);
  }

  lemma {:induction false} FirstAgree(s: seq<BotMessage>, id: int)
    requires id != -1
    ensures First(s, id).Some? <==> FirstContent(s, id).Some?
  {
    if s != [] {
      FirstAgree(s[1..], id);
    }
  }
}
