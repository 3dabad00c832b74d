/** The item registry shared by both navigation controllers.

    A registry is an insertion-ordered map from a visual node to an item
    record; here it is a sequence of records, each carrying its node id.
    A submenu or a group owns a nested registry, its `children`. */
module Menus {

  datatype Option<+T> = None | Some(value: T)

  /** One registered menu entry. The position callback and the key matcher
      are opaque callbacks: only whether a matcher is registered is kept,
      and calling either is recorded as an `Event`. */
  datatype Item = Item(
    node: nat,
    isSubmenu: bool,
    isGroup: bool,
    groupColumns: Option<nat>,
    hasKeyMatcher: bool,
    children: seq<Item>)
  {
    /** Items the resolver descends into. */
    predicate IsContainer() {
      isSubmenu || isGroup
    }

    /** `groupColumns || 1`: a missing or zero column count steps by one. */
    function Stride(): (r: nat)
      ensures r >= 1
      ensures groupColumns.Some? && groupColumns.value > 0 ==> r == groupColumns.value
    {
      if groupColumns.Some? && groupColumns.value > 0 then groupColumns.value else 1
    }
  }

  /** Observable calls into opaque collaborators, in call order. */
  datatype Event =
    | Positioned(node: nat)   // setSubmenuPosition of the submenu item
    | OpenMarked(node: nat)   // submenu-open marker switched on
    | Matched(node: nat)      // keyMatcher of the item invoked
    | Clicked(node: nat)      // native activation of the node

  /** `items.findIndex(i => i.node === node)`. */
  function IndexOf(items: seq<Item>, node: nat): (r: int)
    ensures -1 <= r < |items|
    ensures r >= 0 ==> items[r].node == node
    ensures r >= 0 ==> forall j :: 0 <= j < r ==> items[j].node != node
    ensures r == -1 <==> forall j :: 0 <= j < |items| ==> items[j].node != node
  {
    if |items| == 0 then -1
    else if items[0].node == node then 0
    else
      var k := IndexOf(items[1..], node);
      if k < 0 then -1 else k + 1
  }

  predicate NoDup<T(==)>(s: seq<T>) {
    forall i, j :: 0 <= i < j < |s| ==> s[i] != s[j]
  }

  /** Every node of the tree, in preorder. */
  function Nodes(items: seq<Item>): seq<nat> {
    if |items| == 0 then []
    else [items[0].node] + Nodes(items[0].children) + Nodes(items[1..])
  }

  /** Every item of the tree, at any depth. */
  function AllItems(items: seq<Item>): set<Item> {
    if |items| == 0 then {}
    else {items[0]} + AllItems(items[0].children) + AllItems(items[1..])
  }

  /** A registry tree in which no node is registered twice, at any depth. */
  predicate Wf(items: seq<Item>) {
    NoDup(Nodes(items))
  }

  /** Distinct keys within one registry. */
  predicate KeysDistinct(items: seq<Item>) {
    forall i, j :: 0 <= i < j < |items| ==> items[i].node != items[j].node
  }

  /** A focus path: starts in `root` and each later entry is a child of the
      previous one, which is a submenu or a group. */
  predicate Chain(root: seq<Item>, path: seq<Item>) {
    && (|path| > 0 ==> path[0] in root)
    && forall i :: 0 <= i < |path| - 1 ==> path[i].IsContainer() && path[i + 1] in path[i].children
  }

  /** The registry the last element of `path` lives in (getSiblings). */
  function Siblings(root: seq<Item>, path: seq<Item>): seq<Item> {
    if |path| <= 1 then root else path[|path| - 2].children
  }

  lemma NoDupAppend<T>(a: seq<T>, b: seq<T>)
    ensures NoDup(a + b) <==> NoDup(a) && NoDup(b) && forall x :: x in a ==> x !in b
  {
    if NoDup(a + b) {
      forall i, j | 0 <= i < j < |a| ensures a[i] != a[j] {
        assert a[i] == (a + b)[i] && a[j] == (a + b)[j];
      }
      forall i, j | 0 <= i < j < |b| ensures b[i] != b[j] {
        assert b[i] == (a + b)[|a| + i] && b[j] == (a + b)[|a| + j];
      }
      forall i, j | 0 <= i < |a| && 0 <= j < |b| ensures a[i] != b[j] {
        assert a[i] == (a + b)[i] && b[j] == (a + b)[|a| + j];
      }
    }
    if NoDup(a) && NoDup(b) && forall x :: x in a ==> x !in b {
      forall i, j | 0 <= i < j < |a + b| ensures (a + b)[i] != (a + b)[j] {
        if j < |a| {
        } else if i >= |a| {
          assert (a + b)[i] == b[i - |a|] && (a + b)[j] == b[j - |a|];
        } else {
          assert (a + b)[i] in a && (a + b)[j] == b[j - |a|];
        }
      }
    }
  }

  lemma {:induction false} IndexOfHit(items: seq<Item>, k: nat)
    requires KeysDistinct(items) && k < |items|
    ensures IndexOf(items, items[k].node) == k
  {
  }

  /** The pieces of a well-formed registry are well formed and share no node. */
  lemma {:induction false} WfSplit(items: seq<Item>)
    requires Wf(items) && |items| > 0
    ensures Wf(items[0].children) && Wf(items[1..])
    ensures items[0].node !in Nodes(items[0].children)
    ensures items[0].node !in Nodes(items[1..])
    ensures forall n :: n in Nodes(items[0].children) ==> n !in Nodes(items[1..])
  {
    var a, b, c := [items[0].node], Nodes(items[0].children), Nodes(items[1..]);
    assert Nodes(items) == a + (b + c);
    NoDupAppend(a, b + c);
    NoDupAppend(b, c);
    assert items[0].node in a;
    assert items[0].node !in b + c;
  }

  lemma {:induction false} TopNodesInNodes(items: seq<Item>, k: nat)
    requires k < |items|
    ensures items[k].node in Nodes(items)
  {
    if k > 0 {
      TopNodesInNodes(items[1..], k - 1);
    }
  }

  lemma {:induction false} WfKeysDistinct(items: seq<Item>)
    requires Wf(items)
    ensures KeysDistinct(items)
  {
    if |items| > 0 {
      WfSplit(items);
      WfKeysDistinct(items[1..]);
      forall j | 0 < j < |items| ensures items[0].node != items[j].node {
        TopNodesInNodes(items[1..], j - 1);
      }
      forall i, j | 0 <= i < j < |items| ensures items[i].node != items[j].node {
        if i > 0 {
          assert items[i] == items[1..][i - 1] && items[j] == items[1..][j - 1];
        }
      }
    }
  }

  lemma {:induction false} AllItemsNodes(items: seq<Item>, x: Item)
    requires x in AllItems(items)
    ensures x.node in Nodes(items)
    ensures forall n :: n in Nodes(x.children) ==> n in Nodes(items)
    decreases items
  {
    if x == items[0] {
    } else if x in AllItems(items[0].children) {
      AllItemsNodes(items[0].children, x);
    } else {
      AllItemsNodes(items[1..], x);
    }
  }

  /** Every registry nested anywhere in a well-formed tree is well formed. */
  lemma {:induction false} WfNested(items: seq<Item>, x: Item)
    requires Wf(items) && x in AllItems(items)
    ensures Wf(x.children)
    decreases items
  {
    WfSplit(items);
    if x == items[0] {
    } else if x in AllItems(items[0].children) {
      WfNested(items[0].children, x);
    } else {
      WfNested(items[1..], x);
    }
  }

  /** In a well-formed tree a node names at most one item. */
  lemma {:induction false} WfUnique(items: seq<Item>, x: Item, y: Item)
    requires Wf(items) && x in AllItems(items) && y in AllItems(items) && x.node == y.node
    ensures x == y
    decreases items
  {
    WfSplit(items);
    var h, kids, rest := items[0], items[0].children, items[1..];
    if x == h {
      if y != h {
        if y in AllItems(kids) { AllItemsNodes(kids, y); } else { AllItemsNodes(rest, y); }
      }
    } else if x in AllItems(kids) {
      AllItemsNodes(kids, x);
      if y == h {
      } else if y in AllItems(kids) {
        WfUnique(kids, x, y);
      } else {
        AllItemsNodes(rest, y);
      }
    } else {
      AllItemsNodes(rest, x);
      if y == h {
      } else if y in AllItems(kids) {
        AllItemsNodes(kids, y);
      } else {
        WfUnique(rest, x, y);
      }
    }
  }

  lemma {:induction false} TopInAll(items: seq<Item>, k: nat)
    requires k < |items|
    ensures items[k] in AllItems(items)
  {
    if k > 0 {
      TopInAll(items[1..], k - 1);
    }
  }

  /** The tree is closed under taking children. */
  lemma {:induction false} ChildInAll(items: seq<Item>, x: Item, c: Item)
    requires x in AllItems(items) && c in x.children
    ensures c in AllItems(items)
    decreases items
  {
    var k :| 0 <= k < |x.children| && x.children[k] == c;
    if x == items[0] {
      TopInAll(x.children, k);
    } else if x in AllItems(items[0].children) {
      ChildInAll(items[0].children, x, c);
    } else {
      ChildInAll(items[1..], x, c);
    }
  }

  /** Every entry of a chain is an item of the tree. */
  lemma {:induction false} ChainInTree(root: seq<Item>, path: seq<Item>)
    requires Chain(root, path)
    ensures forall i :: 0 <= i < |path| ==> path[i] in AllItems(root)
  {
    if |path| > 0 {
      var k :| 0 <= k < |root| && root[k] == path[0];
      TopInAll(root, k);
      var i := 1;
      while i < |path|
        invariant 1 <= i <= |path|
        invariant forall j :: 0 <= j < i ==> path[j] in AllItems(root)
      {
        ChildInAll(root, path[i - 1], path[i]);
        i := i + 1;
      }
    }
  }

  /** The registry a chain ends in holds distinct keys, and holds the chain's last entry. */
  lemma ChainSiblings(root: seq<Item>, path: seq<Item>)
    requires Wf(root) && Chain(root, path) && |path| > 0
    ensures KeysDistinct(Siblings(root, path))
    ensures path[|path| - 1] in Siblings(root, path)
  {
    if |path| <= 1 {
      WfKeysDistinct(root);
    } else {
      ChainInTree(root, path);
      WfNested(root, path[|path| - 2]);
      WfKeysDistinct(path[|path| - 2].children);
    }
  }

  lemma ChainPrefix(root: seq<Item>, path: seq<Item>, n: nat)
    requires Chain(root, path) && n <= |path|
    ensures Chain(root, path[..n])
  {
  }

  lemma ChainExtend(root: seq<Item>, path: seq<Item>, c: Item)
    requires Chain(root, path) && |path| > 0
    requires path[|path| - 1].IsContainer() && c in path[|path| - 1].children
    ensures Chain(root, path + [c])
  {
  }
}
