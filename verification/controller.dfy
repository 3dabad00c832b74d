/** The path-based navigation controller (createController).

    The controller focuses one item at a time. Its state is the focused
    path from the root registry down to the focused item, the registry
    being navigated (`items`) and the focused index in it. Every
    operation is a pure function from the old state to the new one.
    Where the source would dereference a missing item and throw, the
    function has a precondition instead. */
module PathController {
  import opened Menus
  import Shortcuts
  import Resolver

  /** FocusType: which child of a group receives focus. */
  datatype Focus = First | Last | At(index: int)

  /** The `direction` option of moveTo: "up", or absent. */
  datatype Direction = Down | Up

  /** FocusItemOptions. An absent `focus` reads as First where it is used. */
  datatype FocusOptions = FocusOptions(openSubmenu: bool, focus: Focus)

  /** What an operation returns: a boolean, or `undefined`. */
  datatype Outcome = Returned(value: bool) | NoValue

  datatype Controller = Controller(
    virtualFocus: bool,   // the constructor's policy flag
    root: seq<Item>,      // rootMenuTracker
    items: seq<Item>,     // currentItems
    index: int,           // focusedIndex
    path: seq<Item>,      // focusedPath
    focused: set<nat>,    // nodes carrying the virtual "focused" marker
    open: set<nat>,       // nodes carrying the submenu-open marker
    log: seq<Event>)      // calls into callbacks and native activation

  /** init: navigate the root registry with nothing focused. Markers set
      during an earlier show are left as they are. */
  function Init(c: Controller, root: seq<Item>): (r: Controller)
    ensures r.root == root && r.items == root && r.index == -1 && |r.path| == 0
    ensures r.focused == c.focused && r.open == c.open && r.log == c.log
  {
    c.(root := root, items := root, index := -1, path := [])
  }

  /** focusItem's default options `{ openSubmenu: false }`. */
  const Plain := FocusOptions(false, First)

  /** The options moveTo passes on: `{ direction: "up", focus: "last" }` or none. */
  function OptionsFor(d: Direction): (r: FocusOptions)
    ensures !r.openSubmenu
  {
    if d == Up then FocusOptions(false, Last) else Plain
  }

  /** getFocusedIndex. */
  function FocusIndex(count: nat, focus: Focus): (r: int)
    ensures focus == First ==> r == 0
    ensures focus == Last ==> r == count - 1
    ensures count > 0 && !focus.At? ==> 0 <= r < count
    ensures focus.At? ==> r == focus.index
  {
    match focus
    case First => 0
    case Last => count - 1
    case At(i) => i
  }

  /** `path.slice(0, -1)`. */
  function Prefix(path: seq<Item>): seq<Item> {
    if |path| == 0 then [] else path[..|path| - 1]
  }

  /** The focused item's parent exists and is a group (the `isGrid` test). */
  predicate InGroup(path: seq<Item>) {
    |path| >= 2 && path[|path| - 2].isGroup
  }

  /** focusItem does more than hand over markers for a path ending in `x`. */
  predicate Acts(x: Item, opts: FocusOptions) {
    (x.isSubmenu && opts.openSubmenu) || x.isGroup
  }

  /** focusItem on a path ending in `x` never reaches for a child that is
      not there: an opened submenu has a first child and a group has the
      child its focus option names, all the way down. */
  predicate Lands(x: Item, opts: FocusOptions)
    decreases x
  {
    && (x.isSubmenu && opts.openSubmenu ==>
          |x.children| > 0 && Lands(x.children[0], Plain))
    && (x.isGroup ==>
          var i := FocusIndex(|x.children|, opts.focus);
          0 <= i < |x.children| && Lands(x.children[i], Plain))
  }

  /** removeFocusedState: only the virtual policy has a marker to remove. */
  function DropFocus(c: Controller, n: nat): Controller {
    if c.virtualFocus then c.(focused := c.focused - {n}) else c
  }

  /** The hand-over at the start of focusItem: items of the old path that
      are not on the new one lose focus (and, for submenus, the open
      marker); items of the new path that were not on the old one gain
      focus; the new path becomes the focused path. */
  function Refocus(c: Controller, path: seq<Item>): (r: Controller)
    ensures r.path == path
    ensures r == c.(focused := r.focused, open := r.open, path := path)
    ensures forall x :: x in c.path && x !in path && x.isSubmenu ==> x.node !in r.open
    ensures forall n :: n in r.open <==>
              (n in c.open && forall x :: x in c.path && x !in path && x.isSubmenu ==> x.node != n)
    ensures c.virtualFocus ==> forall x :: x in path && x !in c.path ==> x.node in r.focused
    ensures c.virtualFocus ==> forall x ::
              (x in c.path && x !in path && forall y :: y in path ==> y.node != x.node) ==> x.node !in r.focused
    ensures c.virtualFocus ==> forall n ::
              (forall x :: x in c.path + path ==> x.node != n) ==> (n in r.focused <==> n in c.focused)
    ensures !c.virtualFocus ==> r.focused == c.focused
  {
    var leaving := set x | x in c.path && x !in path;
    var entering := set x | x in path && x !in c.path;
    var focused :=
      if c.virtualFocus then
        (c.focused - set x | x in leaving :: x.node) + set x | x in entering :: x.node
      else c.focused;
    c.(focused := focused,
       open := c.open - set x | x in leaving && x.isSubmenu :: x.node,
       path := path)
  }

  /** focusItem(path, opts): hand the markers over, then open the item if it
      is a submenu and the options ask for it, then descend into it if it
      is a group. */
  function FocusItem(c: Controller, path: seq<Item>, opts: FocusOptions): (r: Controller)
    requires |path| > 0 && Lands(path[|path| - 1], opts)
    ensures |r.path| >= |path| && r.path[..|path|] == path
    ensures r.root == c.root && r.virtualFocus == c.virtualFocus
    ensures !opts.openSubmenu ==> r.log == c.log
    ensures !Acts(path[|path| - 1], opts) ==> r.path == path && r.items == c.items && r.index == c.index
    ensures Acts(path[|path| - 1], opts) ==> |r.path| > |path|
    decreases path[|path| - 1], 1
  {
    var x := path[|path| - 1];
    var s := Refocus(c, path);
    var s' := if x.isSubmenu && opts.openSubmenu then OpenFirst(s, path) else s;
    if x.isGroup then DescendGroup(s', path, opts.focus) else s'
  }

  /** The body of openSubmenu past its guards: position the submenu, mark it
      open, navigate its children and focus the first one. */
  function OpenFirst(c: Controller, path: seq<Item>): (r: Controller)
    requires |path| > 0 && path[|path| - 1].isSubmenu
    requires |path[|path| - 1].children| > 0 && Lands(path[|path| - 1].children[0], Plain)
    ensures |r.path| > |path| && r.path[..|path| + 1] == path + [path[|path| - 1].children[0]]
    ensures r.index == 0
    ensures r.root == c.root && r.virtualFocus == c.virtualFocus
    ensures r.log == c.log + [Positioned(path[|path| - 1].node), OpenMarked(path[|path| - 1].node)]
    decreases path[|path| - 1], 0
  {
    var x := path[|path| - 1];
    var s := c.(log := c.log + [Positioned(x.node), OpenMarked(x.node)],
                open := c.open + {x.node},
                items := x.children);
    var first := x.children[0];
    var r := FocusItem(s, path + [first], Plain);
    assert r.path[..|path| + 1] == (r.path[..|path| + 1])[..|path| + 1];
    r.(index := 0)
  }

  /** The body of moveToGroup past its guards: navigate the group's children
      and focus the one `focus` names. */
  function DescendGroup(c: Controller, path: seq<Item>, focus: Focus): (r: Controller)
    requires |path| > 0 && path[|path| - 1].isGroup
    requires var g := path[|path| - 1]; var i := FocusIndex(|g.children|, focus);
             0 <= i < |g.children| && Lands(g.children[i], Plain)
    ensures var g := path[|path| - 1];
            |r.path| > |path| && r.path[..|path| + 1] == path + [g.children[FocusIndex(|g.children|, focus)]]
    ensures r.root == c.root && r.virtualFocus == c.virtualFocus && r.log == c.log
    decreases path[|path| - 1], 0
  {
    var g := path[|path| - 1];
    var i := FocusIndex(|g.children|, focus);
    FocusItem(c.(items := g.children, index := i), path + [g.children[i]], Plain)
  }

  /** moveToGroup(path, focus): a no-op unless the path ends in a group. */
  function MoveToGroup(c: Controller, path: seq<Item>, focus: Focus): (r: Controller)
    requires |path| > 0 && path[|path| - 1].isGroup ==>
             var g := path[|path| - 1]; var i := FocusIndex(|g.children|, focus);
             0 <= i < |g.children| && Lands(g.children[i], Plain)
    ensures |path| == 0 || !path[|path| - 1].isGroup ==> r == c
    ensures |path| > 0 && path[|path| - 1].isGroup ==> |r.path| > |path| && r.path[..|path|] == path
  {
    if |path| == 0 || !path[|path| - 1].isGroup then c
    else
      var r := DescendGroup(c, path, focus);
      assert r.path[..|path|] == r.path[..|path| + 1][..|path|];
      r
  }

  /** moveOutGroup(path): navigate the registry the group at the end of
      `path` lives in, with the group focused. No-op for any other path. */
  function MoveOutGroup(c: Controller, path: seq<Item>): (r: Controller)
    ensures |path| == 0 || !path[|path| - 1].isGroup ==> r == c
    ensures |path| > 0 && path[|path| - 1].isGroup ==>
              r == c.(items := r.items, index := r.index, path := path)
              && r.items == Siblings(c.root, path)
              && r.index == IndexOf(r.items, path[|path| - 1].node)
              && (Wf(c.root) && Chain(c.root, path) ==>
                    0 <= r.index < |r.items| && r.items[r.index] == path[|path| - 1])
  {
    if |path| == 0 then c
    else
      var g := path[|path| - 1];
      if !g.isGroup then c
      else
        var siblings := Siblings(c.root, path);
        AnchorIndex(c.root, path);
        c.(items := siblings, index := IndexOf(siblings, g.node), path := path)
  }

  /** openSubmenu(path, focusFirst). The source overrides `focusFirst` with
      true before using it, so the argument has no effect. */
  predicate OpenOk(c: Controller, path: seq<Item>) {
    |c.path| == 0 ||
    (|path| > 0 &&
      (path[|path| - 1].isSubmenu ==>
         |path[|path| - 1].children| > 0 && Lands(path[|path| - 1].children[0], Plain)))
  }

  function OpenSubmenu(c: Controller, path: seq<Item>, focusFirst: bool): (r: (Controller, bool))
    requires OpenOk(c, path)
    ensures !r.1 <==> |c.path| == 0 || !path[|path| - 1].isSubmenu
    ensures !r.1 ==> r.0 == c
    ensures r.1 ==> r.0.index == 0
    ensures r.1 ==> var x := path[|path| - 1];
              && r.0.log == c.log + [Positioned(x.node), OpenMarked(x.node)]
              && |r.0.path| > |path| && r.0.path[..|path| + 1] == path + [x.children[0]]
  {
    if |c.path| == 0 then (c, false)
    else
      var x := path[|path| - 1];
      if !x.isSubmenu then (c, false)
      else (OpenFirst(c, path), true)
  }

  /** closeSubmenu(path): clear the open marker of the submenu at the end of
      `path` and navigate the registry it lives in, focused on it. The
      focus markers of items below it are not touched. */
  function CloseSubmenu(c: Controller, path: seq<Item>): (r: (Controller, Outcome))
    requires |c.path| == 0 || |path| > 0
    ensures r.1 == Returned(false) <==> |c.path| == 0 || !path[|path| - 1].isSubmenu
    ensures r.1 == Returned(false) ==> r.0 == c
    ensures r.1 != Returned(false) ==>
              && r.1 == NoValue
              && r.0 == c.(open := r.0.open, items := r.0.items, index := r.0.index, path := path)
              && r.0.open == c.open - {path[|path| - 1].node}
              && r.0.items == Siblings(c.root, path)
              && (Wf(c.root) && Chain(c.root, path) ==>
                    0 <= r.0.index < |r.0.items| && r.0.items[r.0.index] == path[|path| - 1])
  {
    if |c.path| == 0 then (c, Returned(false))
    else
      var x := path[|path| - 1];
      if !x.isSubmenu then (c, Returned(false))
      else
        var siblings := Siblings(c.root, path);
        AnchorIndex(c.root, path);
        (c.(open := c.open - {x.node}, items := siblings, index := IndexOf(siblings, x.node), path := path),
         NoValue)
  }

  /** In a well-formed tree, the anchor of a path is found at its own
      index in the registry it lives in. */
  lemma AnchorIndex(root: seq<Item>, path: seq<Item>)
    requires |path| > 0
    ensures Wf(root) && Chain(root, path) ==>
              var s := Siblings(root, path); var k := IndexOf(s, path[|path| - 1].node);
              0 <= k < |s| && s[k] == path[|path| - 1]
  {
    if Wf(root) && Chain(root, path) {
      var s := Siblings(root, path);
      ChainSiblings(root, path);
      var k :| 0 <= k < |s| && s[k] == path[|path| - 1];
      IndexOfHit(s, k);
    }
  }

  /** `to < -1 ? -1 : to`. */
  function Clamp(to: int): int {
    if to < -1 then -1 else to
  }

  /** One step further in the direction of travel. */
  function Beyond(i: int, d: Direction): int {
    if d == Up then i - 1 else i + 1
  }

  /** The spill-out of moveTo: the focused child loses focus and the group
      it sits in becomes the focused item of its own registry. */
  function Spill(c: Controller): (r: Controller)
    requires InGroup(c.path)
    ensures |r.path| == |c.path| - 1 && r.path == Prefix(c.path)
    ensures r.root == c.root && r.virtualFocus == c.virtualFocus && r.log == c.log && r.open == c.open
    ensures r.items == Siblings(c.root, r.path)
    ensures r.index == IndexOf(r.items, c.path[|c.path| - 2].node)
    ensures c.virtualFocus ==> r.focused == c.focused - {c.path[|c.path| - 1].node}
    ensures !c.virtualFocus ==> r.focused == c.focused
  {
    MoveOutGroup(DropFocus(c, c.path[|c.path| - 1].node), Prefix(c.path))
  }

  /** moveTo(to, d) completes: it does not land on an item whose descent
      reaches for a missing child, before or after spilling out of groups. */
  predicate MoveToOk(c: Controller, to: int, d: Direction)
    decreases |c.path|
  {
    var t := Clamp(to);
    if 0 <= t < |c.items| then Lands(c.items[t], OptionsFor(d))
    else InGroup(c.path) ==> MoveToOk(Spill(c), Beyond(Spill(c).index, d), d)
  }

  /** The in-range case of moveTo: `items[t]` takes the focused item's place. */
  function LandAt(c: Controller, t: nat, d: Direction): (r: Controller)
    requires t < |c.items| && Lands(c.items[t], OptionsFor(d))
    ensures r.root == c.root && r.virtualFocus == c.virtualFocus && r.log == c.log
    ensures var p := Prefix(c.path) + [c.items[t]];
            && |r.path| >= |p| && r.path[..|p|] == p
            && (!c.items[t].isGroup ==> r.path == p && r.index == t && r.items == c.items)
  {
    var x := c.items[t];
    var p := Prefix(c.path) + [x];
    assert p[|p| - 1] == x;
    FocusItem(c.(index := t), p, OptionsFor(d))
  }

  /** moveTo(to, options): focus `items[to]` in place of the focused item;
      past either end of a group, spill out to the group's registry and
      retry one step further; past either end of any other registry,
      return false and change nothing. A spill-out returns undefined. */
  function MoveTo(c: Controller, to: int, d: Direction): (r: (Controller, Outcome))
    requires MoveToOk(c, to, d)
    ensures r.0.root == c.root
    ensures r.0.virtualFocus == c.virtualFocus
    ensures r.0.log == c.log
    ensures r.1 == Returned(false) ==> r.0 == c
    decreases |c.path|
  {
    var t := Clamp(to);
    if 0 <= t < |c.items| then
      (LandAt(c, t, d), Returned(true))
    else if InGroup(c.path) then
      var s := Spill(c);
      (MoveTo(s, Beyond(s.index, d), d).0, NoValue)
    else
      (c, Returned(false))
  }

  /** moveNext / movePrev start from before the first / after the last item
      when nothing is focused. */
  function NextStart(c: Controller): Controller {
    if |c.path| == 0 then c.(index := -1) else c
  }

  function PrevStart(c: Controller): Controller {
    if |c.path| == 0 then c.(index := |c.items|) else c
  }

  predicate MoveNextOk(c: Controller) {
    MoveToOk(NextStart(c), NextStart(c).index + 1, Down)
  }

  predicate MovePrevOk(c: Controller) {
    MoveToOk(PrevStart(c), PrevStart(c).index - 1, Up)
  }

  function MoveNext(c: Controller): (r: (Controller, Outcome))
    requires MoveNextOk(c)
    ensures r.0.root == c.root && r.0.virtualFocus == c.virtualFocus && r.0.log == c.log
    ensures r.1 == Returned(false) ==> r.0 == NextStart(c)
  {
    var s := NextStart(c);
    MoveTo(s, s.index + 1, Down)
  }

  function MovePrev(c: Controller): (r: (Controller, Outcome))
    requires MovePrevOk(c)
    ensures r.0.root == c.root && r.0.virtualFocus == c.virtualFocus && r.0.log == c.log
    ensures r.1 == Returned(false) ==> r.0 == PrevStart(c)
  {
    var s := PrevStart(c);
    MoveTo(s, s.index - 1, Up)
  }

  /** The row stride of the group the focused item sits in. */
  function RowStride(path: seq<Item>): nat
    requires InGroup(path)
  {
    path[|path| - 2].Stride()
  }

  predicate MoveDownOk(c: Controller) {
    var s := NextStart(c);
    if InGroup(s.path) then MoveToOk(s, s.index + RowStride(s.path), Down) else MoveNextOk(s)
  }

  predicate MoveUpOk(c: Controller) {
    var s := PrevStart(c);
    if InGroup(s.path) then MoveToOk(s, s.index - RowStride(s.path), Up) else MovePrevOk(s)
  }

  /** moveDown: a row down inside a group, otherwise the next item. */
  function MoveDown(c: Controller): (r: (Controller, Outcome))
    requires MoveDownOk(c)
    ensures r.0.root == c.root && r.0.virtualFocus == c.virtualFocus && r.0.log == c.log
    ensures r.1 == Returned(false) ==> r.0 == NextStart(c)
  {
    var s := NextStart(c);
    if InGroup(s.path) then MoveTo(s, s.index + RowStride(s.path), Down) else MoveNext(s)
  }

  /** moveUp: a row up inside a group, otherwise the previous item. */
  function MoveUp(c: Controller): (r: (Controller, Outcome))
    requires MoveUpOk(c)
    ensures r.0.root == c.root && r.0.virtualFocus == c.virtualFocus && r.0.log == c.log
    ensures r.1 == Returned(false) ==> r.0 == PrevStart(c)
  {
    var s := PrevStart(c);
    if InGroup(s.path) then MoveTo(s, s.index - RowStride(s.path), Up) else MovePrev(s)
  }

  /** moveLeft reads the focused item, and then its parent, before any guard:
      it throws with nothing focused, and at the root level unless the
      focused item is a submenu. */
  predicate MoveLeftOk(c: Controller) {
    && |c.path| > 0
    && (!c.path[|c.path| - 1].isSubmenu ==>
          && |c.path| >= 2
          && (var p := c.path[|c.path| - 2];
              !p.isSubmenu && p.isGroup ==> MovePrevOk(c)))
  }

  /** moveLeft: close the focused submenu; else close the submenu the focused
      item sits in; else step left inside a group. */
  function MoveLeft(c: Controller): (r: (Controller, Outcome))
    requires MoveLeftOk(c)
    ensures r.0.root == c.root && r.0.virtualFocus == c.virtualFocus && r.0.log == c.log
    ensures var x := c.path[|c.path| - 1];
            x.isSubmenu ==> r.1 == NoValue && r.0.open == c.open - {x.node}
    ensures var x := c.path[|c.path| - 1];
            !x.isSubmenu ==> var p := c.path[|c.path| - 2];
              && (p.isSubmenu ==> r.1 == NoValue && r.0.open == c.open - {p.node})
              && (!p.isSubmenu && !p.isGroup ==> r == (c, NoValue))
  {
    var x := c.path[|c.path| - 1];
    if x.isSubmenu then CloseSubmenu(c, c.path)
    else
      var p := c.path[|c.path| - 2];
      if p.isSubmenu then CloseSubmenu(c, Prefix(c.path))
      else if p.isGroup then MovePrev(c)
      else (c, NoValue)
  }

  /** moveRight reads the focused item before any guard. */
  predicate MoveRightOk(c: Controller) {
    && |c.path| > 0
    && (c.path[|c.path| - 1].isSubmenu ==> OpenOk(c, c.path))
    && (!c.path[|c.path| - 1].isSubmenu && InGroup(c.path) ==> MoveNextOk(c))
  }

  /** moveRight: open the focused submenu; else step right inside a group. */
  function MoveRight(c: Controller): (r: (Controller, Outcome))
    requires MoveRightOk(c)
    ensures r.0.root == c.root && r.0.virtualFocus == c.virtualFocus
    ensures var x := c.path[|c.path| - 1];
            x.isSubmenu ==> r.1 == Returned(true) && r.0.index == 0
                            && r.0.log == c.log + [Positioned(x.node), OpenMarked(x.node)]
    ensures var x := c.path[|c.path| - 1];
            !x.isSubmenu ==> r.0.log == c.log && (!InGroup(c.path) ==> r == (c, NoValue))
  {
    var x := c.path[|c.path| - 1];
    if x.isSubmenu then
      var r := OpenSubmenu(c, c.path, true);
      (r.0, Returned(r.1))
    else if InGroup(c.path) then MoveNext(c)
    else (c, NoValue)
  }

  /** click: activate the node at the focused index (unguarded in the source). */
  function Click(c: Controller): (r: Controller)
    requires 0 <= c.index < |c.items|
    ensures r == c.(log := r.log) && |r.log| == |c.log| + 1 && r.log[..|c.log|] == c.log
    ensures r.log[|c.log|] == Clicked(c.items[c.index].node)
  {
    c.(log := c.log + [Clicked(c.items[c.index].node)])
  }

  /** syncFocusedIndex: the index of the focused item in the current registry. */
  function SyncFocusedIndex(c: Controller): (r: Controller)
    requires |c.path| > 0
    ensures r == c.(index := r.index) && -1 <= r.index < |c.items|
    ensures r.index >= 0 ==> c.items[r.index].node == c.path[|c.path| - 1].node
    ensures r.index == -1 <==> forall k :: 0 <= k < |c.items| ==> c.items[k].node != c.path[|c.path| - 1].node
  {
    c.(index := IndexOf(c.items, c.path[|c.path| - 1].node))
  }

  /** focusNode(node) completes: a found submenu can be opened onto a first
      child and a found group has one. */
  predicate FocusNodeOk(c: Controller, node: nat) {
    match Resolver.FindItem(node, c.root, [])
    case None => true
    case Some(e) => Lands(e.item, FocusOptions(true, First))
  }

  /** The focused index is -1 or holds an item keyed by the focused node. */
  predicate Synced(c: Controller) {
    && -1 <= c.index < |c.items|
    && (c.index >= 0 ==> |c.path| > 0 && c.items[c.index].node == c.path[|c.path| - 1].node)
  }

  /** The body of focusNode past its guard: focus the found path, opening
      a submenu at its end, and re-read the focused index. */
  function FocusPath(c: Controller, path: seq<Item>): (r: Controller)
    requires |path| > 0 && Lands(path[|path| - 1], FocusOptions(true, First))
    ensures r.root == c.root && r.virtualFocus == c.virtualFocus
    ensures |r.path| >= |path| && r.path[..|path|] == path
    ensures Synced(r)
  {
    SyncFocusedIndex(FocusItem(c, path, FocusOptions(true, First)))
  }

  /** focusNode(node): focus the item the node resolves to, opening it if it
      is a submenu, and re-read the focused index. An untracked node is ignored. */
  function FocusNode(c: Controller, node: nat): (r: Controller)
    requires FocusNodeOk(c, node)
    ensures r.root == c.root && r.virtualFocus == c.virtualFocus
    ensures var m := Resolver.FindItem(node, c.root, []);
            && (m.None? ==> r == c)
            && (m.Some? ==> |r.path| >= |m.value.path| && r.path[..|m.value.path|] == m.value.path)
    ensures Resolver.FindItem(node, c.root, []).Some? ==> Synced(r)
  {
    var m := Resolver.FindItem(node, c.root, []);
    if m.None? then c else FocusPath(c, m.value.path)
  }

  /** matchKeys: call the key matchers reachable from the current registry. */
  function MatchKeys(c: Controller): (r: Controller)
    ensures r == c.(log := r.log) && |r.log| >= |c.log| && r.log[..|c.log|] == c.log
    ensures (set e | e in r.log[|c.log|..]) == Shortcuts.MatcherSet(c.items)
    ensures Wf(c.items) ==> NoDup(r.log[|c.log|..])
  {
    var r := c.(log := c.log + Shortcuts.Walk(c.items));
    assert r.log[|c.log|..] == Shortcuts.Walk(c.items);
    Shortcuts.WalkCoversReach(c.items);
    if Wf(c.items) then Shortcuts.WalkOnce(c.items); r else r
  }
}
