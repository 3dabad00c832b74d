/** The stack-based keyboard controller (createKeyboardController).

    It navigates one registry at a time by index. Opening a submenu saves
    the current level under the submenu's node and navigates its children;
    closing restores the level saved under the parent node. Every operation
    is a pure function from the old state to the new one; where the source
    would index past a list and throw, the function has a precondition. */
module KeyboardController {
  import opened Menus
  import Shortcuts

  /** A saved level (the `Menu` record): the list, whether it was the root,
      the index focused in it and the node of its own parent submenu. */
  datatype Level = Level(items: seq<Item>, isRoot: bool, index: int, parentNode: nat)

  datatype Keyboard = Keyboard(
    virtualFocus: bool,       // the constructor's policy flag
    items: seq<Item>,         // currentItems
    index: int,               // focusedIndex
    prevIndex: int,           // prevFocusedIndex
    isRoot: bool,
    parentNode: Option<nat>,  // unset until the first submenu opens
    menus: map<nat, Level>,   // menuList
    forceClose: bool,         // forceCloseSubmenu
    focused: set<nat>,        // nodes carrying the virtual "focused" marker
    open: set<nat>,           // nodes carrying the submenu-open marker
    log: seq<Event>)          // calls into callbacks

  /** init: navigate the root registry, unfocused, at the root. The saved
      levels, the parent node and `forceClose` are left as they are. */
  function Init(k: Keyboard, root: seq<Item>): (r: Keyboard)
    ensures r.items == root && r.index == -1 && r.prevIndex == -1 && r.isRoot
    ensures r.menus == k.menus && r.parentNode == k.parentNode && r.forceClose == k.forceClose
    ensures r.focused == k.focused && r.open == k.open && r.log == k.log
  {
    k.(items := root, prevIndex := -1, index := -1, isRoot := true)
  }

  /** The index moveDown moves to in a list of `n` items. */
  function DownIndex(i: int, n: nat): int {
    if i + 1 < n then i + 1 else if i + 1 == n then 0 else i
  }

  /** The index moveUp moves to in a list of `n` items. */
  function UpIndex(i: int, n: nat): int {
    if i == -1 || i == 0 then n - 1 else if i - 1 < n then i - 1 else i
  }

  /** defocusPreviousItem: the item at the previous index of the CURRENT list
      loses its marker, under either policy. */
  function Defocus(k: Keyboard): (r: Keyboard)
    ensures r == k.(focused := r.focused)
    ensures r.focused <= k.focused && |k.focused - r.focused| <= 1
    ensures forall n :: n in k.focused - r.focused ==>
              0 <= k.prevIndex < |k.items| && n == k.items[k.prevIndex].node
    ensures 0 <= k.prevIndex < |k.items| ==> k.items[k.prevIndex].node !in r.focused
  {
    if 0 <= k.prevIndex < |k.items| then k.(focused := k.focused - {k.items[k.prevIndex].node}) else k
  }

  /** focusSelectedItem: under the virtual policy, move the marker from the
      previous index to the focused one; under the native policy platform
      focus moves, which leaves no state here. */
  function FocusSelected(k: Keyboard): (r: Keyboard)
    requires 0 <= k.index < |k.items|
    ensures r == k.(focused := r.focused, prevIndex := r.prevIndex)
    ensures k.virtualFocus ==> r.prevIndex == k.index && k.items[k.index].node in r.focused
    ensures k.virtualFocus ==> forall n :: n != k.items[k.index].node ==>
              (n in r.focused <==> n in Defocus(k).focused)
    ensures !k.virtualFocus ==> r == k
  {
    if k.virtualFocus then
      var d := Defocus(k).(prevIndex := k.index);
      d.(focused := d.focused + {k.items[k.index].node})
    else k
  }

  /** The measure of the moveDown / closeSubmenu recursion: how far below
      -1 the index sits (moveDown raises a negative index). */
  function Below(i: int): nat {
    if i >= 0 then 0 else -i
  }

  /** The rank of closeSubmenu (and of its precondition) in the recursion:
      an unfocused close first moves down, a focused one does not. */
  function CloseTag(k: Keyboard, pre: bool): nat {
    if k.index == -1 then (if pre then 4 else 5) else (if pre then 0 else 1)
  }

  /** moveDown completes: the index it lands on (after any forced close)
      lies inside the list. */
  predicate MoveDownOk(k: Keyboard)
    decreases Below(k.index), 2
  {
    var s := k.(index := DownIndex(k.index, |k.items|));
    (s.forceClose ==> CloseOk(s)) &&
    var s' := if s.forceClose then CloseSubmenu(s) else s;
    0 <= s'.index < |s'.items|
  }

  /** moveDown: step to the next item, wrapping from the last to the first;
      a pending forced close is carried out first. */
  function MoveDown(k: Keyboard): (r: Keyboard)
    requires MoveDownOk(k)
    ensures 0 <= r.index < |r.items|
    ensures !k.forceClose ==> r.items == k.items && r.index == DownIndex(k.index, |k.items|)
    ensures !k.forceClose ==> r == k.(index := r.index, focused := r.focused, prevIndex := r.prevIndex)
    decreases Below(k.index), 3
  {
    var s := k.(index := DownIndex(k.index, |k.items|));
    var s' := if s.forceClose then CloseSubmenu(s) else s;
    FocusSelected(s')
  }

  /** closeSubmenu completes: an unfocused close can move down, and a
      focused one below the root finds the level saved under the parent
      node, with a valid index to restore unless the close is forced. */
  predicate CloseOk(k: Keyboard)
    decreases Below(k.index), CloseTag(k, true)
  {
    if k.index == -1 then MoveDownOk(k)
    else if k.isRoot then true
    else
      && k.parentNode.Some? && k.parentNode.value in k.menus
      && (!k.forceClose ==>
            var p := k.menus[k.parentNode.value];
            0 <= p.index < |p.items|)
  }

  /** closeSubmenu: unfocused, move down instead; at the root, nothing;
      otherwise restore the level saved under the parent node (its index
      only when the close is not forced), clearing the saved levels when
      that level is the root. */
  function CloseSubmenu(k: Keyboard): (r: Keyboard)
    requires CloseOk(k)
    ensures k.index != -1 && k.isRoot ==> r == k
    ensures k.index != -1 && !k.isRoot ==>
              var p := k.menus[k.parentNode.value];
              && r.items == p.items
              && r.parentNode == Some(p.parentNode)
              && r.isRoot == p.isRoot
              && r.menus == (if p.isRoot then map[] else k.menus)
              && r.open == k.open - {k.parentNode.value}
              && r.index == (if k.forceClose then k.index else p.index)
              && r.log == k.log && r.forceClose == k.forceClose
    decreases Below(k.index), CloseTag(k, false)
  {
    if k.index == -1 then MoveDown(k)
    else if k.isRoot then k
    else
      var d := Defocus(k);
      var pn := k.parentNode.value;
      var p := k.menus[pn];
      var s := d.(open := d.open - {pn}, items := p.items, parentNode := Some(p.parentNode));
      var s' := if p.isRoot then s.(isRoot := true, menus := map[]) else s;
      if !k.forceClose then FocusSelected(s'.(index := p.index)) else s'
  }

  /** moveUp completes. */
  predicate MoveUpOk(k: Keyboard) {
    var s := k.(index := UpIndex(k.index, |k.items|));
    (s.forceClose ==> CloseOk(s)) &&
    var s' := if s.forceClose then CloseSubmenu(s) else s;
    0 <= s'.index < |s'.items|
  }

  /** moveUp: step to the previous item, wrapping from the first (or from
      nothing focused) to the last; a pending forced close is carried out first. */
  function MoveUp(k: Keyboard): (r: Keyboard)
    requires MoveUpOk(k)
    ensures 0 <= r.index < |r.items|
    ensures !k.forceClose ==> r.items == k.items && r.index == UpIndex(k.index, |k.items|)
    ensures !k.forceClose ==> r == k.(index := r.index, focused := r.focused, prevIndex := r.prevIndex)
  {
    var s := k.(index := UpIndex(k.index, |k.items|));
    var s' := if s.forceClose then CloseSubmenu(s) else s;
    FocusSelected(s')
  }

  /** openSubmenu completes: unfocused it moves down; focused it reads the
      item at the index, which must exist. */
  predicate OpenOk(k: Keyboard) {
    if k.index == -1 then MoveDownOk(k) else k.index >= 0 ==> k.index < |k.items|
  }

  /** openSubmenu: unfocused, move down and fail; on a focused submenu, save
      the level under its node, position it, mark it open and navigate its
      children (or, when it has none, leave the list and set `forceClose`). */
  function OpenSubmenu(k: Keyboard): (r: (Keyboard, bool))
    requires OpenOk(k)
    ensures k.index == -1 ==> r == (MoveDown(k), false)
    ensures k.index != -1 && !(k.index >= 0 && k.items[k.index].isSubmenu) ==> r == (k, false)
    ensures r.1 <==> k.index >= 0 && k.items[k.index].isSubmenu
    ensures r.1 ==>
              var x := k.items[k.index];
              && r.0.menus == k.menus[x.node := Level(k.items, k.isRoot, k.index,
                                                      if k.parentNode.Some? then k.parentNode.value else x.node)]
              && r.0.parentNode == Some(x.node)
              && r.0.log == k.log + [Positioned(x.node), OpenMarked(x.node)]
              && r.0.open == k.open + {x.node}
              && !r.0.isRoot
              && (|x.children| > 0 ==> r.0.items == x.children && r.0.index == 0 && r.0.forceClose == k.forceClose)
              && (|x.children| == 0 ==> r.0.items == k.items && r.0.index == k.index && r.0.forceClose)
  {
    if k.index == -1 then (MoveDown(k), false)
    else if !(k.index >= 0 && k.items[k.index].isSubmenu) then (k, false)
    else
      var x := k.items[k.index];
      var saved := Level(k.items, k.isRoot, k.index,
                         if k.parentNode.Some? then k.parentNode.value else x.node);
      var s := k.(menus := k.menus[x.node := saved],
                  log := k.log + [Positioned(x.node), OpenMarked(x.node)],
                  open := k.open + {x.node},
                  parentNode := Some(x.node));
      var s' := if |x.children| > 0 then s.(index := 0, items := x.children) else s.(forceClose := true);
      (FocusSelected(s'.(isRoot := false)), true)
  }

  /** Where focusItem(node) goes: the index found, whether it was found in
      the saved parent level, and the item read at that index from the
      CURRENT list (for a parent-level hit, the parent's index is used on
      the current list). */
  datatype Target = Target(index: nat, toParent: bool, item: Option<Item>)

  function Resolve(k: Keyboard, node: nat): (r: Option<Target>)
    ensures r.Some? && !r.value.toParent ==>
              r.value.index < |k.items| && r.value.item == Some(k.items[r.value.index])
              && k.items[r.value.index].node == node
    ensures r.Some? && r.value.toParent ==>
              && IndexOf(k.items, node) == -1
              && k.parentNode.Some? && k.parentNode.value in k.menus
              && var p := k.menus[k.parentNode.value];
                 && r.value.index < |p.items| && p.items[r.value.index].node == node
                 && r.value.item == (if r.value.index < |k.items| then Some(k.items[r.value.index]) else None)
    ensures r.None? <==>
              IndexOf(k.items, node) == -1 &&
              (k.parentNode.None? || k.parentNode.value !in k.menus ||
               IndexOf(k.menus[k.parentNode.value].items, node) == -1)
  {
    var i := IndexOf(k.items, node);
    if i >= 0 then Some(Target(i, false, Some(k.items[i])))
    else if k.parentNode.None? || k.parentNode.value !in k.menus then None
    else
      var j := IndexOf(k.menus[k.parentNode.value].items, node);
      if j < 0 then None
      else Some(Target(j, true, if j < |k.items| then Some(k.items[j]) else None))
  }

  /** `currentItems[focusedIndex]?.isSubmenu`. */
  predicate OnSubmenu(k: Keyboard) {
    0 <= k.index < |k.items| && k.items[k.index].isSubmenu
  }

  /** focusItem(node) before its final open: close when leaving a submenu
      or moving to the parent level, then focus the target index. */
  function FocusStep(k: Keyboard, t: Target): Keyboard
    requires (t.toParent || OnSubmenu(k)) ==> CloseOk(k)
    requires var s := if t.toParent || OnSubmenu(k) then CloseSubmenu(k) else k;
             t.index < |s.items|
  {
    var s := if t.toParent || OnSubmenu(k) then CloseSubmenu(k) else k;
    FocusSelected(s.(index := t.index))
  }

  /** focusItem(node) completes. */
  predicate FocusItemOk(k: Keyboard, node: nat) {
    match Resolve(k, node)
    case None => true
    case Some(t) =>
      && ((t.toParent || OnSubmenu(k)) ==> CloseOk(k))
      && (var s := if t.toParent || OnSubmenu(k) then CloseSubmenu(k) else k;
          t.index < |s.items|)
      && (t.item.Some? && t.item.value.isSubmenu ==> OpenOk(FocusStep(k, t)))
  }

  /** focusItem(node): focus the node in the current list or, failing that,
      in the saved parent level; open it if the item read is a submenu.
      A node in neither is ignored. */
  function FocusItem(k: Keyboard, node: nat): (r: Keyboard)
    requires FocusItemOk(k, node)
    ensures Resolve(k, node).None? ==> r == k
  {
    match Resolve(k, node)
    case None => k
    case Some(t) =>
      var s := FocusStep(k, t);
      if t.item.Some? && t.item.value.isSubmenu then OpenSubmenu(s).0 else s
  }

  /** matchKeys: call the key matchers reachable from the current list. */
  function MatchKeys(k: Keyboard): (r: Keyboard)
    ensures r == k.(log := r.log) && |r.log| >= |k.log| && r.log[..|k.log|] == k.log
    ensures (set e | e in r.log[|k.log|..]) == Shortcuts.MatcherSet(k.items)
    ensures Wf(k.items) ==> NoDup(r.log[|k.log|..])
  {
    var r := k.(log := k.log + Shortcuts.Walk(k.items));
    assert r.log[|k.log|..] == Shortcuts.Walk(k.items);
    Shortcuts.WalkCoversReach(k.items);
    if Wf(k.items) then Shortcuts.WalkOnce(k.items); r else r
  }
}
