/** Node-to-path resolution (recursiveFindItem): a depth-first search
    from a registry for the item keyed by a node, accumulating the chain
    of submenus and groups passed through. */
module Resolver {
  import opened Menus

  /** `[item, path]`: the item found and the path from the search root to it. */
  datatype Entry = Entry(item: Item, path: seq<Item>)

  /** `itemTracker.get(node)`. */
  function Lookup(items: seq<Item>, node: nat): (r: Option<Item>)
    ensures r.Some? ==> r.value in items && r.value.node == node
    ensures r.None? <==> forall k :: 0 <= k < |items| ==> items[k].node != node
  {
    var k := IndexOf(items, node);
    if k < 0 then None else Some(items[k])
  }

  /** recursiveFindItem(node, items, path): a direct hit in `items` wins;
      otherwise the submenus and groups of `items` are searched in order. */
  function FindItem(node: nat, items: seq<Item>, path: seq<Item>): (r: Option<Entry>)
    ensures r.Some? ==> |r.value.path| > |path| && r.value.path[..|path|] == path
    ensures r.Some? ==> r.value.item == r.value.path[|r.value.path| - 1] && r.value.item.node == node
    ensures r.Some? ==> Chain(items, r.value.path[|path|..])
    decreases items, 1
  {
    match Lookup(items, node)
    case Some(x) => Some(Entry(x, path + [x]))
    case None => FindAmong(node, items, 0, path)
  }

  /** The loop of recursiveFindItem over `items[i..]`. */
  function FindAmong(node: nat, items: seq<Item>, i: nat, path: seq<Item>): (r: Option<Entry>)
    requires i <= |items|
    ensures r.Some? ==> |r.value.path| > |path| && r.value.path[..|path|] == path
    ensures r.Some? ==> r.value.item == r.value.path[|r.value.path| - 1] && r.value.item.node == node
    ensures r.Some? ==> Chain(items, r.value.path[|path|..])
    decreases items, 0, |items| - i
  {
    if i == |items| then None
    else
      var x := items[i];
      if x.IsContainer() then
        match FindItem(node, x.children, path + [x])
        case Some(e) =>
          ChainUnder(items, x, path, e.path);
          Some(e)
        case None => FindAmong(node, items, i + 1, path)
      else FindAmong(node, items, i + 1, path)
  }

  /** Prefixing a container of `items` to a chain in its children gives a chain in `items`. */
  lemma ChainUnder(items: seq<Item>, x: Item, path: seq<Item>, p: seq<Item>)
    requires x in items && x.IsContainer()
    requires |p| > |path| + 1 && p[..|path| + 1] == path + [x]
    requires Chain(x.children, p[|path| + 1..])
    ensures |p| > |path| && p[..|path|] == path && Chain(items, p[|path|..])
  {
    var q := p[|path|..];
    assert p[..|path|] == (path + [x])[..|path|];
    assert q[0] == x;
    assert q[1..] == p[|path| + 1..];
    forall i | 0 <= i < |q| - 1 ensures q[i].IsContainer() && q[i + 1] in q[i].children {
      if i > 0 {
        assert q[i] == q[1..][i - 1] && q[i + 1] == q[1..][i];
      }
    }
  }

  /** A direct hit at a level wins over any deeper match: the first item of
      `items` keyed by the node is returned, one step below `path`. */
  lemma DirectHitWins(node: nat, items: seq<Item>, path: seq<Item>, k: nat)
    requires k < |items| && items[k].node == node
    requires forall j :: 0 <= j < k ==> items[j].node != node
    ensures FindItem(node, items, path) == Some(Entry(items[k], path + [items[k]]))
  {
  }

  /** Reference definition: the items a search can reach, descending
      through submenus and groups only. */
  function Searchable(items: seq<Item>): set<Item> {
    if |items| == 0 then {}
    else
      {items[0]} + (if items[0].IsContainer() then Searchable(items[0].children) else {})
      + Searchable(items[1..])
  }

  predicate Tracked(node: nat, items: seq<Item>) {
    exists x :: x in Searchable(items) && x.node == node
  }

  lemma {:induction false} SearchableTop(items: seq<Item>, k: nat)
    requires k < |items|
    ensures items[k] in Searchable(items)
    ensures items[k].IsContainer() ==> Searchable(items[k].children) <= Searchable(items)
  {
    if k > 0 {
      SearchableTop(items[1..], k - 1);
    }
  }

  /** Where a searchable item sits: at the top level, or below a container. */
  lemma {:induction false} SearchableWhere(items: seq<Item>, y: Item)
    requires y in Searchable(items)
    ensures exists k :: 0 <= k < |items| && (y == items[k] ||
              (items[k].IsContainer() && y in Searchable(items[k].children)))
  {
    if y == items[0] {
      assert y == items[0];
    } else if items[0].IsContainer() && y in Searchable(items[0].children) {
      assert items[0].IsContainer() && y in Searchable(items[0].children);
    } else {
      SearchableWhere(items[1..], y);
      var k :| 0 <= k < |items[1..]| && (y == items[1..][k] ||
              (items[1..][k].IsContainer() && y in Searchable(items[1..][k].children)));
      assert items[k + 1] == items[1..][k];
    }
  }

  /** The search finds nothing exactly when the node is not tracked
      anywhere below the registry. */
  lemma {:induction false} FindNone(node: nat, items: seq<Item>, path: seq<Item>)
    ensures FindItem(node, items, path).None? <==> !Tracked(node, items)
    decreases items, 1
  {
    FindAmongNone(node, items, 0, path);
    if Tracked(node, items) {
      var y :| y in Searchable(items) && y.node == node;
      SearchableWhere(items, y);
    }
    if FindItem(node, items, path).Some? {
      var e := FindItem(node, items, path).value;
      if Lookup(items, node).Some? {
        var x := Lookup(items, node).value;
        var k :| 0 <= k < |items| && items[k] == x;
        SearchableTop(items, k);
      } else {
        var k :| 0 <= k < |items| && items[k].IsContainer() && Tracked(node, items[k].children);
        SearchableTop(items, k);
      }
    }
  }

  lemma {:induction false} FindAmongNone(node: nat, items: seq<Item>, i: nat, path: seq<Item>)
    requires i <= |items|
    ensures FindAmong(node, items, i, path).None? <==>
            forall k :: i <= k < |items| && items[k].IsContainer() ==> !Tracked(node, items[k].children)
    decreases items, 0, |items| - i
  {
    if i < |items| {
      var x := items[i];
      if x.IsContainer() {
        FindNone(node, x.children, path + [x]);
      }
      FindAmongNone(node, items, i + 1, path);
    }
  }

  /** Every node of a sibling's subtree is foreign to another sibling's subtree. */
  lemma {:induction false} SubtreesApart(items: seq<Item>, j: nat, k: nat)
    requires Wf(items) && j < |items| && k < |items| && j != k
    ensures items[j].node !in Nodes(items[k].children)
    ensures forall n :: n in Nodes(items[j].children) ==> n !in Nodes(items[k].children)
    decreases items
  {
    WfSplit(items);
    var rest := items[1..];
    if j == 0 {
      TopInAll(rest, k - 1);
      assert rest[k - 1] == items[k];
      AllItemsNodes(rest, items[k]);
    } else if k == 0 {
      TopInAll(rest, j - 1);
      assert rest[j - 1] == items[j];
      AllItemsNodes(rest, items[j]);
    } else {
      assert rest[j - 1] == items[j] && rest[k - 1] == items[k];
      SubtreesApart(rest, j - 1, k - 1);
    }
  }

  lemma {:induction false} OwnNodeNotBelow(items: seq<Item>, k: nat)
    requires Wf(items) && k < |items|
    ensures items[k].node !in Nodes(items[k].children)
  {
    WfSplit(items);
    if k > 0 {
      OwnNodeNotBelow(items[1..], k - 1);
    }
  }

  lemma {:induction false} SearchableNodes(items: seq<Item>, y: Item)
    requires y in Searchable(items)
    ensures y.node in Nodes(items)
    decreases items
  {
    if y == items[0] {
    } else if items[0].IsContainer() && y in Searchable(items[0].children) {
      SearchableNodes(items[0].children, y);
    } else {
      SearchableNodes(items[1..], y);
    }
  }

  lemma ChainTail(items: seq<Item>, q: seq<Item>)
    requires Chain(items, q) && |q| > 1
    ensures q[0].IsContainer() && Chain(q[0].children, q[1..])
  {
    var q' := q[1..];
    forall i | 0 <= i < |q'| - 1 ensures q'[i].IsContainer() && q'[i + 1] in q'[i].children {
      assert q'[i] == q[i + 1] && q'[i + 1] == q[i + 2];
    }
  }

  /** A node below `items[k]` is not keyed at the top level of `items`. */
  lemma NotAtTop(items: seq<Item>, k: nat, node: nat)
    requires Wf(items) && k < |items| && node in Nodes(items[k].children)
    ensures Lookup(items, node).None?
  {
    forall j | 0 <= j < |items| ensures items[j].node != node {
      if j == k {
        OwnNodeNotBelow(items, k);
      } else {
        SubtreesApart(items, j, k);
      }
    }
  }

  /** In a well-formed tree the search returns THE chain to the node: any
      chain ending at an item keyed by `node` is the one found. */
  lemma {:induction false} FindUnique(node: nat, items: seq<Item>, path: seq<Item>, q: seq<Item>)
    requires Wf(items) && Chain(items, q) && |q| > 0 && q[|q| - 1].node == node
    ensures FindItem(node, items, path) == Some(Entry(q[|q| - 1], path + q))
    decreases items
  {
    var k :| 0 <= k < |items| && items[k] == q[0];
    if |q| == 1 {
      WfKeysDistinct(items);
      IndexOfHit(items, k);
      assert q == [q[0]];
    } else {
      var x, q' := q[0], q[1..];
      ChainTail(items, q);
      assert q'[|q'| - 1] == q[|q| - 1];
      ChainInTree(x.children, q');
      AllItemsNodes(x.children, q'[|q'| - 1]);
      NotAtTop(items, k, node);
      TopInAll(items, k);
      WfNested(items, x);
      FindUnique(node, x.children, path + [x], q');
      assert (path + [x]) + q' == path + q;
      FindAmongReaches(node, items, 0, k, path);
    }
  }

  /** The loop skips every sibling before `k` when the node lives under `items[k]`. */
  lemma {:induction false} FindAmongReaches(node: nat, items: seq<Item>, i: nat, k: nat, path: seq<Item>)
    requires Wf(items) && i <= k < |items| && items[k].IsContainer()
    requires node in Nodes(items[k].children)
    requires FindItem(node, items[k].children, path + [items[k]]).Some?
    ensures FindAmong(node, items, i, path) == FindItem(node, items[k].children, path + [items[k]])
    decreases k - i
  {
    if i < k {
      var x := items[i];
      if x.IsContainer() {
        FindNone(node, x.children, path + [x]);
        if Tracked(node, x.children) {
          var y :| y in Searchable(x.children) && y.node == node;
          SearchableNodes(x.children, y);
          SubtreesApart(items, i, k);
        }
      }
      FindAmongReaches(node, items, i + 1, k, path);
    }
  }
}
