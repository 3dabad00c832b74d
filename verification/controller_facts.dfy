/** Properties of the path-based controller: the invariants its
    operations keep and the behaviour of each move. */
module PathControllerFacts {
  import opened Menus
  import opened PathController
  import Shortcuts
  import Resolver

  /** The focused item sits at the focused index of the registry it lives in,
      and the focused path is a chain from the root registry to it. */
  predicate Placed(c: Controller) {
    && |c.path| > 0 && Chain(c.root, c.path)
    && c.items == Siblings(c.root, c.path)
    && 0 <= c.index < |c.items| && c.items[c.index] == c.path[|c.path| - 1]
  }

  /** The controller's invariant: with nothing focused the root registry is
      navigated; otherwise the focused item is placed. */
  predicate Consistent(c: Controller) {
    if |c.path| == 0 then c.items == c.root else Placed(c)
  }

  /** The nodes of the items on a path. */
  function PathNodes(path: seq<Item>): set<nat> {
    set x | x in path :: x.node
  }

  /** Under the virtual policy, the focus markers are exactly on the focused path. */
  predicate Marked(c: Controller) {
    c.focused == PathNodes(c.path)
  }

  // ---------------------------------------------------------------------
  // Chains in a well-formed tree

  /** No node occurs twice along a chain of a well-formed tree. */
  lemma {:induction false} ChainNodesDistinct(root: seq<Item>, path: seq<Item>)
    requires Wf(root) && Chain(root, path)
    ensures forall i, j :: 0 <= i < j < |path| ==> path[i].node != path[j].node
    decreases |path|
  {
    if |path| > 1 {
      var k :| 0 <= k < |root| && root[k] == path[0];
      var rest := path[1..];
      Resolver.ChainTail(root, path);
      TopInAll(root, k);
      WfNested(root, path[0]);
      ChainNodesDistinct(path[0].children, rest);
      ChainInTree(path[0].children, rest);
      Resolver.OwnNodeNotBelow(root, k);
      forall i, j | 0 <= i < j < |path| ensures path[i].node != path[j].node {
        if i == 0 {
          assert path[j] == rest[j - 1];
          AllItemsNodes(path[0].children, rest[j - 1]);
        } else {
          assert path[i] == rest[i - 1] && path[j] == rest[j - 1];
        }
      }
    }
  }

  /** Replacing the last item of a chain by one of its siblings gives a chain
      ending in the same registry. */
  lemma SwapChain(root: seq<Item>, path: seq<Item>, items: seq<Item>, x: Item)
    requires |path| == 0 ==> items == root
    requires |path| > 0 ==> Chain(root, path) && items == Siblings(root, path)
    requires x in items
    ensures var p := Prefix(path) + [x];
            Chain(root, p) && Siblings(root, p) == items && p[|p| - 1] == x
  {
    var n := |path|;
    if n >= 2 {
      var pre := path[..n - 1];
      assert Prefix(path) == pre;
      ChainPrefix(root, path, n - 1);
      assert pre[n - 2] == path[n - 2];
      ChainExtend(root, pre, x);
      var p := pre + [x];
      assert p[n - 2] == path[n - 2];
      assert Siblings(root, p) == path[n - 2].children;
    } else if n == 1 {
      assert Prefix(path) + [x] == [x];
    }
  }

  /** init navigates the root registry with nothing focused, which is consistent. */
  lemma InitConsistent(c: Controller, root: seq<Item>)
    ensures var r := Init(c, root);
            && Consistent(r) && r.items == root && r.index == -1 && r.path == []
            && r.focused == c.focused && r.open == c.open
  {
  }

  // ---------------------------------------------------------------------
  // focusItem keeps the focused item placed

  lemma {:induction false} FocusItemPlaces(c: Controller, path: seq<Item>, opts: FocusOptions)
    requires |path| > 0 && Lands(path[|path| - 1], opts) && Chain(c.root, path)
    ensures var r := FocusItem(c, path, opts);
            && Chain(r.root, r.path)
            && (Acts(path[|path| - 1], opts) ==> Placed(r) && (opts.focus == First ==> r.index == 0))
    decreases path[|path| - 1], 1
  {
    var x := path[|path| - 1];
    var s := Refocus(c, path);
    var s' := if x.isSubmenu && opts.openSubmenu then OpenFirst(s, path) else s;
    if x.isSubmenu && opts.openSubmenu {
      OpenFirstPlaces(s, path);
    }
    if x.isGroup {
      DescendGroupPlaces(s', path, opts.focus);
    }
  }

  lemma {:induction false} OpenFirstPlaces(c: Controller, path: seq<Item>)
    requires |path| > 0 && path[|path| - 1].isSubmenu
    requires |path[|path| - 1].children| > 0 && Lands(path[|path| - 1].children[0], Plain)
    requires Chain(c.root, path)
    ensures Placed(OpenFirst(c, path))
    decreases path[|path| - 1], 0
  {
    var x := path[|path| - 1];
    var s := c.(log := c.log + [Positioned(x.node), OpenMarked(x.node)],
                open := c.open + {x.node},
                items := x.children);
    var first := x.children[0];
    var p := path + [first];
    ChainExtend(c.root, path, first);
    assert p[|p| - 1] == first && p[|p| - 2] == x;
    FocusItemPlaces(s, p, Plain);
  }

  lemma {:induction false} DescendGroupPlaces(c: Controller, path: seq<Item>, focus: Focus)
    requires |path| > 0 && path[|path| - 1].isGroup
    requires var g := path[|path| - 1]; var i := FocusIndex(|g.children|, focus);
             0 <= i < |g.children| && Lands(g.children[i], Plain)
    requires Chain(c.root, path)
    ensures var r := DescendGroup(c, path, focus);
            Placed(r) && (focus == First ==> r.index == 0)
    decreases path[|path| - 1], 0
  {
    var g := path[|path| - 1];
    var i := FocusIndex(|g.children|, focus);
    var p := path + [g.children[i]];
    ChainExtend(c.root, path, g.children[i]);
    assert p[|p| - 1] == g.children[i] && p[|p| - 2] == g;
    FocusItemPlaces(c.(items := g.children, index := i), p, Plain);
  }

  /** Landing in range places the new focused item. */
  lemma LandAtPlaces(c: Controller, t: nat, d: Direction)
    requires Consistent(c) && t < |c.items| && Lands(c.items[t], OptionsFor(d))
    ensures Placed(LandAt(c, t, d))
  {
    var p := Prefix(c.path) + [c.items[t]];
    SwapChain(c.root, c.path, c.items, c.items[t]);
    FocusItemPlaces(c.(index := t), p, OptionsFor(d));
  }

  /** A spill-out places the group it leaves through. */
  lemma SpillPlaces(c: Controller)
    requires Wf(c.root) && Placed(c) && InGroup(c.path)
    ensures Placed(Spill(c))
    ensures Spill(c).items[Spill(c).index] == c.path[|c.path| - 2]
  {
    var s := Spill(c);
    ChainPrefix(c.root, c.path, |c.path| - 1);
    assert s.path[|s.path| - 1] == c.path[|c.path| - 2];
    AnchorIndex(c.root, s.path);
  }

  /** moveTo keeps the controller consistent, through any number of spill-outs. */
  lemma {:induction false} MoveToConsistent(c: Controller, to: int, d: Direction)
    requires Wf(c.root) && Consistent(c) && MoveToOk(c, to, d)
    ensures Consistent(MoveTo(c, to, d).0)
    decreases |c.path|
  {
    var t := Clamp(to);
    if 0 <= t < |c.items| {
      LandAtPlaces(c, t, d);
    } else if InGroup(c.path) {
      var s := Spill(c);
      SpillPlaces(c);
      MoveToConsistent(s, Beyond(s.index, d), d);
    }
  }

  /** closeSubmenu on a chain places the closed submenu. */
  lemma CloseConsistent(c: Controller, path: seq<Item>)
    requires Wf(c.root) && Consistent(c) && Chain(c.root, path)
    requires |c.path| == 0 || |path| > 0
    ensures Consistent(CloseSubmenu(c, path).0)
  {
  }

  /** The index moveDown and moveUp aim at from a starting controller. */
  function DownTarget(c: Controller): int {
    if InGroup(c.path) then c.index + RowStride(c.path) else c.index + 1
  }

  function UpTarget(c: Controller): int {
    if InGroup(c.path) then c.index - RowStride(c.path) else c.index - 1
  }

  /** moveDown and moveUp are one moveTo from their starting controller. */
  lemma DownIsMoveTo(c: Controller)
    requires MoveDownOk(c)
    ensures MoveToOk(NextStart(c), DownTarget(NextStart(c)), Down)
    ensures MoveDown(c) == MoveTo(NextStart(c), DownTarget(NextStart(c)), Down)
  {
  }

  lemma UpIsMoveTo(c: Controller)
    requires MoveUpOk(c)
    ensures MoveToOk(PrevStart(c), UpTarget(PrevStart(c)), Up)
    ensures MoveUp(c) == MoveTo(PrevStart(c), UpTarget(PrevStart(c)), Up)
  {
  }

  lemma DownConsistent(c: Controller)
    requires Wf(c.root) && Consistent(c) && MoveDownOk(c)
    ensures Consistent(MoveDown(c).0)
  {
    DownIsMoveTo(c);
    MoveToConsistent(NextStart(c), DownTarget(NextStart(c)), Down);
  }

  lemma UpConsistent(c: Controller)
    requires Wf(c.root) && Consistent(c) && MoveUpOk(c)
    ensures Consistent(MoveUp(c).0)
  {
    UpIsMoveTo(c);
    MoveToConsistent(PrevStart(c), UpTarget(PrevStart(c)), Up);
  }

  lemma LeftConsistent(c: Controller)
    requires Wf(c.root) && Consistent(c) && MoveLeftOk(c)
    ensures Consistent(MoveLeft(c).0)
  {
    var x := c.path[|c.path| - 1];
    if x.isSubmenu {
      CloseConsistent(c, c.path);
    } else if c.path[|c.path| - 2].isSubmenu {
      ChainPrefix(c.root, c.path, |c.path| - 1);
      CloseConsistent(c, Prefix(c.path));
    } else if c.path[|c.path| - 2].isGroup {
      GroupLeft(c);
      MoveToConsistent(c, c.index - 1, Up);
    }
  }

  lemma RightOpensConsistent(c: Controller)
    requires Wf(c.root) && Consistent(c) && MoveRightOk(c) && c.path[|c.path| - 1].isSubmenu
    ensures Consistent(MoveRight(c).0)
  {
    OpenFirstPlaces(c, c.path);
  }

  lemma RightStepsConsistent(c: Controller)
    requires Wf(c.root) && Consistent(c) && MoveRightOk(c)
    requires !c.path[|c.path| - 1].isSubmenu && InGroup(c.path)
    ensures Consistent(MoveRight(c).0)
  {
    GroupRight(c);
    MoveToConsistent(c, c.index + 1, Down);
  }

  lemma RightConsistent(c: Controller)
    requires Wf(c.root) && Consistent(c) && MoveRightOk(c)
    ensures Consistent(MoveRight(c).0)
  {
    if c.path[|c.path| - 1].isSubmenu {
      RightOpensConsistent(c);
    } else if InGroup(c.path) {
      RightStepsConsistent(c);
    }
  }

  /** Every move keeps the controller consistent. */
  lemma MovesConsistent(c: Controller)
    requires Wf(c.root) && Consistent(c)
    ensures MoveDownOk(c) ==> Consistent(MoveDown(c).0)
    ensures MoveUpOk(c) ==> Consistent(MoveUp(c).0)
    ensures MoveLeftOk(c) ==> Consistent(MoveLeft(c).0)
    ensures MoveRightOk(c) ==> Consistent(MoveRight(c).0)
  {
    if MoveDownOk(c) { DownConsistent(c); }
    if MoveUpOk(c) { UpConsistent(c); }
    if MoveLeftOk(c) { LeftConsistent(c); }
    if MoveRightOk(c) { RightConsistent(c); }
  }

  // ---------------------------------------------------------------------
  // The virtual focus markers follow the focused path

  /** The hand-over of focusItem moves the markers from the old path to the new one. */
  lemma RefocusMarks(c: Controller, path: seq<Item>)
    requires c.virtualFocus && Wf(c.root) && Chain(c.root, c.path) && Chain(c.root, path)
    requires Marked(c)
    ensures Marked(Refocus(c, path))
  {
    var r := Refocus(c, path);
    ChainInTree(c.root, c.path);
    ChainInTree(c.root, path);
    var leaving := set x | x in c.path && x !in path;
    var entering := set x | x in path && x !in c.path;
    assert r.focused == (c.focused - set x | x in leaving :: x.node) + set x | x in entering :: x.node;
    forall n | n in PathNodes(path) ensures n in r.focused {
      var y :| y in path && y.node == n;
      if y in c.path {
        forall z | z in leaving ensures z.node != n {
          if z.node == n {
            WfUnique(c.root, z, y);
          }
        }
      }
    }
    forall n | n in r.focused ensures n in PathNodes(path) {
      if n !in set x | x in entering :: x.node {
        var z :| z in c.path && z.node == n;
        assert z !in leaving;
      }
    }
  }

  lemma {:induction false} FocusItemMarks(c: Controller, path: seq<Item>, opts: FocusOptions)
    requires |path| > 0 && Lands(path[|path| - 1], opts)
    requires c.virtualFocus && Wf(c.root) && Chain(c.root, c.path) && Chain(c.root, path) && Marked(c)
    ensures Marked(FocusItem(c, path, opts))
    decreases path[|path| - 1], 1
  {
    var x := path[|path| - 1];
    var s := Refocus(c, path);
    RefocusMarks(c, path);
    var s' := if x.isSubmenu && opts.openSubmenu then OpenFirst(s, path) else s;
    if x.isSubmenu && opts.openSubmenu {
      OpenFirstMarks(s, path);
      OpenFirstPlaces(s, path);
    }
    if x.isGroup {
      DescendGroupMarks(s', path, opts.focus);
    }
  }

  lemma {:induction false} OpenFirstMarks(c: Controller, path: seq<Item>)
    requires |path| > 0 && path[|path| - 1].isSubmenu
    requires |path[|path| - 1].children| > 0 && Lands(path[|path| - 1].children[0], Plain)
    requires c.virtualFocus && Wf(c.root) && Chain(c.root, c.path) && Chain(c.root, path) && Marked(c)
    ensures Marked(OpenFirst(c, path))
    decreases path[|path| - 1], 0
  {
    var x := path[|path| - 1];
    var s := c.(log := c.log + [Positioned(x.node), OpenMarked(x.node)],
                open := c.open + {x.node},
                items := x.children);
    var first := x.children[0];
    ChainExtend(c.root, path, first);
    assert (path + [first])[|path|] == first;
    FocusItemMarks(s, path + [first], Plain);
  }

  lemma {:induction false} DescendGroupMarks(c: Controller, path: seq<Item>, focus: Focus)
    requires |path| > 0 && path[|path| - 1].isGroup
    requires var g := path[|path| - 1]; var i := FocusIndex(|g.children|, focus);
             0 <= i < |g.children| && Lands(g.children[i], Plain)
    requires c.virtualFocus && Wf(c.root) && Chain(c.root, c.path) && Chain(c.root, path) && Marked(c)
    ensures Marked(DescendGroup(c, path, focus))
    decreases path[|path| - 1], 0
  {
    var g := path[|path| - 1];
    var i := FocusIndex(|g.children|, focus);
    ChainExtend(c.root, path, g.children[i]);
    assert (path + [g.children[i]])[|path|] == g.children[i];
    FocusItemMarks(c.(items := g.children, index := i), path + [g.children[i]], Plain);
  }

  /** A spill-out removes the one marker of the child it leaves. */
  lemma SpillMarks(c: Controller)
    requires c.virtualFocus && Wf(c.root) && Placed(c) && InGroup(c.path) && Marked(c)
    ensures Marked(Spill(c))
  {
    var s := Spill(c);
    var n := |c.path|;
    var last := c.path[n - 1];
    ChainNodesDistinct(c.root, c.path);
    assert s.path == c.path[..n - 1];
    forall y | y in s.path ensures y.node != last.node {
      var i :| 0 <= i < |s.path| && s.path[i] == y;
      assert y == c.path[i];
    }
    assert c.path == s.path + [last];
    assert PathNodes(c.path) == PathNodes(s.path) + {last.node};
  }

  /** Under the virtual policy, moveTo leaves the markers exactly on the new
      focused path, whether it lands directly or spills out of groups first. */
  lemma {:induction false} MoveToMarks(c: Controller, to: int, d: Direction)
    requires c.virtualFocus && Wf(c.root) && Consistent(c) && Marked(c) && MoveToOk(c, to, d)
    ensures Marked(MoveTo(c, to, d).0)
    decreases |c.path|
  {
    var t := Clamp(to);
    if 0 <= t < |c.items| {
      SwapChain(c.root, c.path, c.items, c.items[t]);
      FocusItemMarks(c.(index := t), Prefix(c.path) + [c.items[t]], OptionsFor(d));
    } else if InGroup(c.path) {
      var s := Spill(c);
      SpillMarks(c);
      SpillPlaces(c);
      MoveToMarks(s, Beyond(s.index, d), d);
    }
  }

  /** closeSubmenu does not clear the markers of the items below the submenu
      it closes: they stay marked though they leave the focused path. */
  lemma CloseKeepsMarkers(c: Controller)
    requires |c.path| >= 2 && c.path[|c.path| - 2].isSubmenu && !c.path[|c.path| - 1].isSubmenu
    requires MoveLeftOk(c)
    ensures MoveLeft(c).0.focused == c.focused
    ensures MoveLeft(c).0.path == Prefix(c.path)
  {
  }

  // ---------------------------------------------------------------------
  // Moves

  /** With nothing focused, moving down or forward targets the first item and
      moving up or back targets the last. */
  lemma EmptyPathTargets(c: Controller)
    requires |c.path| == 0
    ensures MoveDownOk(c) <==> MoveToOk(c.(index := -1), 0, Down)
    ensures MoveNextOk(c) <==> MoveToOk(c.(index := -1), 0, Down)
    ensures MoveUpOk(c) <==> MoveToOk(c.(index := |c.items|), |c.items| - 1, Up)
    ensures MovePrevOk(c) <==> MoveToOk(c.(index := |c.items|), |c.items| - 1, Up)
    ensures MoveDownOk(c) ==> MoveDown(c) == MoveNext(c) == MoveTo(c.(index := -1), 0, Down)
    ensures MoveUpOk(c) ==> MoveUp(c) == MovePrev(c) == MoveTo(c.(index := |c.items|), |c.items| - 1, Up)
  {
  }

  /** Targets below -1 are treated as -1. */
  lemma MoveToClamps(c: Controller, to: int, d: Direction)
    requires to < -1
    ensures MoveToOk(c, to, d) <==> MoveToOk(c, -1, d)
    ensures MoveToOk(c, to, d) ==> MoveTo(c, to, d) == MoveTo(c, -1, d)
  {
  }

  /** A target inside the registry replaces the focused item and returns true. */
  lemma MoveToInRange(c: Controller, to: int, d: Direction)
    requires 0 <= to < |c.items| && Lands(c.items[to], OptionsFor(d))
    ensures MoveToOk(c, to, d)
    ensures var r := MoveTo(c, to, d); var p := Prefix(c.path) + [c.items[to]];
            && r.1 == Returned(true)
            && |r.0.path| >= |p| && r.0.path[..|p|] == p
            && (!c.items[to].isGroup ==> r.0.path == p && r.0.index == to && r.0.items == c.items)
  {
  }

  /** What moveTo returns: true on landing, false only past either end of a
      registry that is not a group's, nothing after a spill-out. */
  lemma MoveToOutcome(c: Controller, to: int, d: Direction)
    requires MoveToOk(c, to, d)
    ensures MoveTo(c, to, d).1 == Returned(true) <==> 0 <= Clamp(to) < |c.items|
    ensures MoveTo(c, to, d).1 == Returned(false) <==> !(0 <= Clamp(to) < |c.items|) && !InGroup(c.path)
    ensures MoveTo(c, to, d).1 == NoValue <==> !(0 <= Clamp(to) < |c.items|) && InGroup(c.path)
  {
  }

  /** A flat registry does not wrap: moving down from its last item and up
      from its first fail and change nothing. */
  lemma NoWrap(c: Controller)
    requires Placed(c) && !InGroup(c.path)
    ensures c.index == |c.items| - 1 ==> MoveDownOk(c) && MoveDown(c) == (c, Returned(false))
    ensures c.index == 0 ==> MoveUpOk(c) && MoveUp(c) == (c, Returned(false))
  {
  }

  /** Landing on a group descends into it: to its first child when moving
      down, to its last when moving up. */
  lemma LandOnGroup(c: Controller, t: nat, d: Direction)
    requires t < |c.items| && c.items[t].isGroup && Lands(c.items[t], OptionsFor(d))
    ensures var g := c.items[t];
            var k := if d == Up then |g.children| - 1 else 0;
            var p := Prefix(c.path) + [g, g.children[k]];
            var r := LandAt(c, t, d);
            && 0 <= k < |g.children|
            && |r.path| >= |p| && r.path[..|p|] == p
            && (!g.children[k].isGroup ==> r.path == p && r.items == g.children && r.index == k)
  {
    var g := c.items[t];
    var opts := OptionsFor(d);
    var p0 := Prefix(c.path) + [g];
    assert p0[|p0| - 1] == g;
    var s := Refocus(c.(index := t), p0);
    assert LandAt(c, t, d) == DescendGroup(s, p0, opts.focus);
    var k := FocusIndex(|g.children|, opts.focus);
    assert p0 + [g.children[k]] == Prefix(c.path) + [g, g.children[k]];
    assert DescendGroup(s, p0, opts.focus) ==
           FocusItem(s.(items := g.children, index := k), p0 + [g.children[k]], Plain);
  }

  /** With an item focused, moveNext and movePrev are one step of moveTo. */
  lemma NextIsMoveTo(c: Controller)
    requires |c.path| > 0 && MoveNextOk(c)
    ensures MoveToOk(c, c.index + 1, Down) && MoveNext(c) == MoveTo(c, c.index + 1, Down)
  {
    assert NextStart(c) == c;
  }

  lemma PrevIsMoveTo(c: Controller)
    requires |c.path| > 0 && MovePrevOk(c)
    ensures MoveToOk(c, c.index - 1, Up) && MovePrev(c) == MoveTo(c, c.index - 1, Up)
  {
    assert PrevStart(c) == c;
  }

  /** Inside a group, moving down steps a whole row of `Stride()` items. */
  lemma GroupDown(c: Controller)
    requires InGroup(c.path) && MoveDownOk(c)
    ensures RowStride(c.path) >= 1
    ensures MoveDown(c) == MoveTo(c, c.index + RowStride(c.path), Down)
  {
    assert NextStart(c) == c;
  }

  /** Inside a group, moving up steps a whole row of `Stride()` items. */
  lemma GroupUp(c: Controller)
    requires InGroup(c.path) && MoveUpOk(c)
    ensures MoveUp(c) == MoveTo(c, c.index - RowStride(c.path), Up)
  {
    assert PrevStart(c) == c;
  }

  /** moveRight on a plain item in a group is moveNext; moveLeft on a plain
      item in a group that is not a submenu is movePrev. */
  lemma RightIsNext(c: Controller)
    requires InGroup(c.path) && !c.path[|c.path| - 1].isSubmenu && MoveRightOk(c)
    ensures MoveNextOk(c) && MoveRight(c) == MoveNext(c)
  {
  }

  lemma LeftIsPrev(c: Controller)
    requires InGroup(c.path) && !c.path[|c.path| - 1].isSubmenu && !c.path[|c.path| - 2].isSubmenu
    requires MoveLeftOk(c)
    ensures MovePrevOk(c) && MoveLeft(c) == MovePrev(c)
  {
  }

  /** Inside a group, moving right from a plain item steps one item. */
  lemma GroupRight(c: Controller)
    requires InGroup(c.path) && !c.path[|c.path| - 1].isSubmenu && MoveRightOk(c)
    ensures MoveRight(c) == MoveNext(c) == MoveTo(c, c.index + 1, Down)
  {
    RightIsNext(c);
    NextIsMoveTo(c);
  }

  /** Inside a group (that is not also a submenu), moving left from a plain
      item steps one item. */
  lemma GroupLeft(c: Controller)
    requires InGroup(c.path) && !c.path[|c.path| - 1].isSubmenu && !c.path[|c.path| - 2].isSubmenu
    requires MoveLeftOk(c)
    ensures MoveLeft(c) == MovePrev(c) == MoveTo(c, c.index - 1, Up)
  {
    LeftIsPrev(c);
    PrevIsMoveTo(c);
  }

  /** Outside a group, moving down or up steps one item. */
  lemma FlatSteps(c: Controller)
    requires |c.path| > 0 && !InGroup(c.path)
    ensures MoveDownOk(c) ==> MoveDown(c) == MoveTo(c, c.index + 1, Down)
    ensures MoveUpOk(c) ==> MoveUp(c) == MoveTo(c, c.index - 1, Up)
  {
  }

  /** Past either end of a group, the focused child loses its marker, the
      group becomes the focused item of its own registry, and the move is
      retried one step further in the same direction. */
  lemma SpillOut(c: Controller, to: int, d: Direction)
    requires Wf(c.root) && Placed(c) && InGroup(c.path) && MoveToOk(c, to, d)
    requires !(0 <= Clamp(to) < |c.items|)
    ensures var s := Spill(c);
            && s.path == Prefix(c.path)
            && s.items == Siblings(c.root, s.path)
            && 0 <= s.index < |s.items| && s.items[s.index] == c.path[|c.path| - 2]
            && (c.virtualFocus ==> c.path[|c.path| - 1].node !in s.focused)
            && MoveToOk(s, Beyond(s.index, d), d)
            && MoveTo(c, to, d) == (MoveTo(s, Beyond(s.index, d), d).0, NoValue)
  {
    SpillPlaces(c);
  }

  // ---------------------------------------------------------------------
  // Submenus

  /** Opening the focused submenu and closing it again restores the navigated
      registry, the focused index and the focused path. */
  lemma OpenThenClose(c: Controller, b: bool)
    requires Wf(c.root) && Placed(c) && c.path[|c.path| - 1].isSubmenu && OpenOk(c, c.path)
    ensures var o := OpenSubmenu(c, c.path, b);
            && o.1
            && var r := CloseSubmenu(o.0, c.path);
               r.1 == NoValue && r.0.items == c.items && r.0.index == c.index && r.0.path == c.path
  {
    var x := c.path[|c.path| - 1];
    ChainSiblings(c.root, c.path);
    IndexOfHit(c.items, c.index);
  }

  /** Pressing right on a submenu whose first child is a plain item opens
      it and focuses that child one level below. */
  lemma RightOpensPlain(c: Controller)
    requires |c.path| > 0
    requires var x := c.path[|c.path| - 1];
             x.isSubmenu && |x.children| > 0 && !x.children[0].isSubmenu && !x.children[0].isGroup
    ensures MoveRightOk(c)
    ensures var o := MoveRight(c); var x := c.path[|c.path| - 1];
            && o.1 == Returned(true) && o.0.root == c.root
            && o.0.path == c.path + [x.children[0]] && Prefix(o.0.path) == c.path
  {
    var x := c.path[|c.path| - 1];
    var first := x.children[0];
    var o := OpenFirst(c, c.path);
    var s0 := c.(log := c.log + [Positioned(x.node), OpenMarked(x.node)],
                 open := c.open + {x.node},
                 items := x.children);
    var p := c.path + [first];
    assert p[|p| - 1] == first;
    var s := Refocus(s0, p);
    assert FocusItem(s0, p, Plain) == s;
    assert o == s.(index := 0);
    assert Prefix(o.path) == c.path;
  }

  /** Pressing right on a submenu whose first child is a plain item, then
      left, comes back to the submenu item. */
  lemma RightThenLeft(c: Controller)
    requires Wf(c.root) && Placed(c)
    requires var x := c.path[|c.path| - 1];
             x.isSubmenu && |x.children| > 0 && !x.children[0].isSubmenu && !x.children[0].isGroup
    ensures MoveRightOk(c)
    ensures var o := MoveRight(c);
            && o.1 == Returned(true)
            && MoveLeftOk(o.0)
            && var r := MoveLeft(o.0);
               r.1 == NoValue && r.0.items == c.items && r.0.index == c.index && r.0.path == c.path
  {
    RightOpensPlain(c);
    var o := MoveRight(c).0;
    var n := |o.path|;
    assert o.path[n - 1] == c.path[|c.path| - 1].children[0];
    assert o.path[n - 2] == c.path[|c.path| - 1];
    assert MoveLeft(o) == CloseSubmenu(o, c.path);
    ChainSiblings(c.root, c.path);
    IndexOfHit(c.items, c.index);
  }

  /** Opening the focused submenu onto a plain first child shows its children,
      focuses the first, and adds its open marker without clearing any other. */
  lemma OpenShowsChildren(c: Controller, b: bool)
    requires |c.path| > 0
    requires var x := c.path[|c.path| - 1];
             x.isSubmenu && |x.children| > 0 && !x.children[0].isGroup
    ensures var x := c.path[|c.path| - 1]; var r := OpenSubmenu(c, c.path, b).0;
            && r.items == x.children && r.index == 0
            && r.path == c.path + [x.children[0]]
            && r.open == c.open + {x.node}
  {
    var x := c.path[|c.path| - 1];
    var first := x.children[0];
    var s := c.(log := c.log + [Positioned(x.node), OpenMarked(x.node)],
                open := c.open + {x.node},
                items := x.children);
    var p := c.path + [first];
    assert p[|p| - 1] == first;
    var r := Refocus(s, p);
    assert OpenFirst(c, c.path) == r.(index := 0);
    assert forall y :: y in c.path ==> y in p;
  }

  // ---------------------------------------------------------------------
  // Click, focusNode, matchKeys

  /** click activates the focused item. */
  lemma ClickFocused(c: Controller)
    requires Placed(c)
    ensures 0 <= c.index < |c.items|
    ensures Click(c).log == c.log + [Clicked(c.path[|c.path| - 1].node)]
  {
  }

  /** focusNode ignores a node that no registry below the root tracks. */
  lemma FocusNodeUntracked(c: Controller, node: nat)
    requires !Resolver.Tracked(node, c.root)
    ensures FocusNodeOk(c, node) && FocusNode(c, node) == c
  {
    Resolver.FindNone(node, c.root, []);
  }

  /** In a well-formed tree, the resolver finds a node along the one chain
      that leads to it. */
  lemma FocusNodeFinds(c: Controller, node: nat, q: seq<Item>)
    requires Wf(c.root) && Chain(c.root, q) && |q| > 0 && q[|q| - 1].node == node
    ensures Resolver.FindItem(node, c.root, []) == Some(Resolver.Entry(q[|q| - 1], q))
  {
    Resolver.FindUnique(node, c.root, [], q);
    assert [] + q == q;
  }

  /** Focusing a chain whose registry is the one navigated, then re-reading
      the index, places the focused item. */
  lemma FocusThenSync(c: Controller, q: seq<Item>, opts: FocusOptions)
    requires Wf(c.root) && Chain(c.root, q) && |q| > 0 && Lands(q[|q| - 1], opts)
    requires c.items == Siblings(c.root, q)
    ensures Placed(SyncFocusedIndex(FocusItem(c, q, opts)))
  {
    var f := FocusItem(c, q, opts);
    FocusItemPlaces(c, q, opts);
    if Acts(q[|q| - 1], opts) {
      ChainSiblings(c.root, f.path);
      IndexOfHit(f.items, f.index);
    } else {
      AnchorIndex(c.root, q);
    }
  }

  /** In a well-formed tree, focusNode focuses along the one chain that leads
      to the node, and re-reads the focused index so the focused item is
      placed whenever its registry was the one navigated. */
  lemma FocusNodeChain(c: Controller, node: nat, q: seq<Item>)
    requires Wf(c.root) && Chain(c.root, q) && |q| > 0 && q[|q| - 1].node == node
    requires Lands(q[|q| - 1], FocusOptions(true, First))
    ensures FocusNodeOk(c, node)
    ensures var r := FocusNode(c, node);
            && |r.path| >= |q| && r.path[..|q|] == q
            && (c.items == Siblings(c.root, q) ==> Placed(r))
  {
    FocusNodeFinds(c, node, q);
    var opts := FocusOptions(true, First);
    var f := FocusItem(c, q, opts);
    assert FocusNode(c, node) == SyncFocusedIndex(f);
    if c.items == Siblings(c.root, q) {
      FocusThenSync(c, q, opts);
    }
  }
}
