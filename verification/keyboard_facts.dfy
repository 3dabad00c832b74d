/** Properties of the stack-based keyboard controller: index arithmetic,
    the invariant of the saved levels, and the open/close round trip. */
module KeyboardFacts {
  import opened Menus
  import opened KeyboardController

  // ---------------------------------------------------------------------
  // Index arithmetic

  /** moveDown's index stays in the list: nothing focused and the last item
      both go to the first item, any other item to the next. */
  lemma DownIndexRange(i: int, n: nat)
    requires n > 0 && -1 <= i < n
    ensures 0 <= DownIndex(i, n) < n
    ensures i == -1 || i == n - 1 ==> DownIndex(i, n) == 0
    ensures 0 <= i < n - 1 ==> DownIndex(i, n) == i + 1
  {
  }

  /** moveUp's index stays in the list: nothing focused and the first item
      both go to the last item, any other item to the previous. */
  lemma UpIndexRange(i: int, n: nat)
    requires n > 0 && -1 <= i < n
    ensures 0 <= UpIndex(i, n) < n
    ensures i == -1 || i == 0 ==> UpIndex(i, n) == n - 1
    ensures 0 < i < n ==> UpIndex(i, n) == i - 1
  {
  }

  /** On a focused index, a step down and a step up undo each other. */
  lemma UpDownInverse(i: int, n: nat)
    requires 0 <= i < n
    ensures UpIndex(DownIndex(i, n), n) == i
    ensures DownIndex(UpIndex(i, n), n) == i
  {
  }

  // ---------------------------------------------------------------------
  // One marker in the current list

  /** Under the virtual policy, exactly the focused item of the current list
      is marked, and the previous index is the focused one. */
  predicate OneMarker(k: Keyboard) {
    && k.prevIndex == k.index
    && forall j :: 0 <= j < |k.items| ==> (k.items[j].node in k.focused <==> j == k.index)
  }

  /** focusSelectedItem moves the one marker of the list to the new index. */
  lemma FocusSelectedMoves(k: Keyboard, i: nat)
    requires k.virtualFocus && KeysDistinct(k.items) && OneMarker(k)
    requires i < |k.items|
    ensures OneMarker(FocusSelected(k.(index := i)))
  {
    var s := k.(index := i);
    var r := FocusSelected(s);
    forall j | 0 <= j < |k.items| ensures k.items[j].node in r.focused <==> j == i {
      if j != i {
        assert k.items[j].node != k.items[i].node;
        if 0 <= k.prevIndex < |k.items| && j != k.prevIndex {
          assert k.items[j].node != k.items[k.prevIndex].node;
        }
      }
    }
  }

  /** Stepping down or up keeps one marker in a list of distinct nodes; at
      the root a pending forced close has nothing to close. */
  lemma StepsKeepOneMarker(k: Keyboard)
    requires k.virtualFocus && (!k.forceClose || k.isRoot) && KeysDistinct(k.items) && OneMarker(k)
    requires -1 <= k.index < |k.items| && |k.items| > 0
    ensures MoveDownOk(k) && OneMarker(MoveDown(k))
    ensures MoveUpOk(k) && OneMarker(MoveUp(k))
  {
    DownIndexRange(k.index, |k.items|);
    UpIndexRange(k.index, |k.items|);
    FocusSelectedMoves(k, DownIndex(k.index, |k.items|));
    FocusSelectedMoves(k, UpIndex(k.index, |k.items|));
  }

  /** With no forced close pending below the root, a step only moves the
      index and the marker. */
  lemma PlainSteps(k: Keyboard)
    requires (!k.forceClose || k.isRoot) && -1 <= k.index < |k.items| && |k.items| > 0
    ensures MoveDownOk(k) && MoveDown(k) == FocusSelected(k.(index := DownIndex(k.index, |k.items|)))
    ensures MoveUpOk(k) && MoveUp(k) == FocusSelected(k.(index := UpIndex(k.index, |k.items|)))
  {
    DownIndexRange(k.index, |k.items|);
    UpIndexRange(k.index, |k.items|);
  }

  /** With no forced close pending below the root, moveUp undoes moveDown:
      same list, same index, and under the virtual policy the same one marker. */
  lemma MoveUpUndoesMoveDown(k: Keyboard)
    requires (!k.forceClose || k.isRoot) && 0 <= k.index < |k.items|
    ensures MoveDownOk(k) && MoveUpOk(MoveDown(k))
    ensures var r := MoveUp(MoveDown(k));
            && r.items == k.items && r.index == k.index
            && r.isRoot == k.isRoot && r.menus == k.menus && r.open == k.open
            && (k.virtualFocus && KeysDistinct(k.items) && OneMarker(k) ==> OneMarker(r))
  {
    PlainSteps(k);
    var d := MoveDown(k);
    PlainSteps(d);
    UpDownInverse(k.index, |k.items|);
    if k.virtualFocus && KeysDistinct(k.items) && OneMarker(k) {
      StepsKeepOneMarker(k);
      StepsKeepOneMarker(d);
    }
  }

  // ---------------------------------------------------------------------
  // The saved levels

  /** Every saved level has a valid index, and a non-root level's parent
      level is saved too. */
  predicate Frames(menus: map<nat, Level>) {
    forall n :: n in menus ==>
      && 0 <= menus[n].index < |menus[n].items|
      && (!menus[n].isRoot ==> menus[n].parentNode in menus)
  }

  /** The controller's invariant: the saved levels are well formed, below
      the root the parent level is saved, and the list is non-empty with the
      index on an item or at -1. */
  predicate KbInv(k: Keyboard) {
    && Frames(k.menus)
    && (!k.isRoot ==> k.parentNode.Some? && k.parentNode.value in k.menus)
    && |k.items| > 0 && -1 <= k.index < |k.items|
  }

  /** init over a non-empty root establishes the invariant. */
  lemma InitInv(k: Keyboard, root: seq<Item>)
    requires Frames(k.menus) && |root| > 0
    ensures KbInv(Init(k, root)) && Init(k, root).items == root
    ensures Init(k, root).index == -1 && Init(k, root).isRoot && Init(k, root).menus == k.menus
  {
  }

  /** init then moveDown focuses the first item of the root, whatever forced
      close an earlier session left pending. */
  lemma InitThenDown(k: Keyboard, root: seq<Item>)
    requires |root| > 0
    ensures MoveDownOk(Init(k, root))
    ensures var r := MoveDown(Init(k, root));
            r.items == root && r.index == 0 && r.isRoot && (k.virtualFocus ==> root[0].node in r.focused)
  {
  }

  /** A forced close below the root keeps the index `i` while it restores
      the parent level; the restored list must be long enough for it. */
  predicate KeptFits(k: Keyboard, i: int)
    requires KbInv(k)
  {
    k.forceClose && !k.isRoot ==> i < |k.menus[k.parentNode.value].items|
  }

  /** moveDown completes exactly when the index it steps to fits the list
      a pending forced close restores, and then keeps the invariant. */
  lemma DownInv(k: Keyboard)
    requires KbInv(k)
    ensures MoveDownOk(k) <==> KeptFits(k, DownIndex(k.index, |k.items|))
    ensures MoveDownOk(k) ==> KbInv(MoveDown(k))
  {
    DownIndexRange(k.index, |k.items|);
  }

  /** moveUp completes exactly when the index it steps to fits the list a
      pending forced close restores, and then keeps the invariant. */
  lemma UpInv(k: Keyboard)
    requires KbInv(k)
    ensures MoveUpOk(k) <==> KeptFits(k, UpIndex(k.index, |k.items|))
    ensures MoveUpOk(k) ==> KbInv(MoveUp(k))
  {
    UpIndexRange(k.index, |k.items|);
  }

  /** Closing a level always completes and restores the saved level; the
      invariant survives exactly when a forced close keeps an index that
      fits the restored list. */
  lemma CloseInv(k: Keyboard)
    requires KbInv(k)
    ensures CloseOk(k)
    ensures KbInv(CloseSubmenu(k)) <==> (k.index != -1 ==> KeptFits(k, k.index))
  {
    if k.index == -1 {
      DownInv(k);
      DownIndexRange(k.index, |k.items|);
    }
  }

  /** Opening a submenu always completes, saves a well-formed level and
      keeps the invariant, a pending forced close included. */
  lemma OpenInv(k: Keyboard)
    requires KbInv(k)
    ensures OpenOk(k) && KbInv(OpenSubmenu(k).0)
  {
    if k.index == -1 {
      DownInv(k);
      DownIndexRange(k.index, |k.items|);
    } else if k.items[k.index].isSubmenu {
      var x := k.items[k.index];
      var r := OpenSubmenu(k).0;
      forall n | n in r.menus
        ensures 0 <= r.menus[n].index < |r.menus[n].items|
        ensures !r.menus[n].isRoot ==> r.menus[n].parentNode in r.menus
      {
        if n != x.node {
          assert r.menus[n] == k.menus[n];
        }
      }
    }
  }

  // ---------------------------------------------------------------------
  // Submenus

  /** Unfocused, openSubmenu focuses the first item and fails (at the root
      a pending forced close has nothing to close). */
  lemma OpenUnfocused(k: Keyboard)
    requires k.index == -1 && |k.items| > 0 && (!k.forceClose || k.isRoot)
    ensures OpenOk(k)
    ensures var r := OpenSubmenu(k);
            !r.1 && r.0.items == k.items && r.0.index == 0 && r.0.menus == k.menus && r.0.isRoot == k.isRoot
  {
  }

  /** Opening the focused submenu and closing it again restores the list,
      the index and the root flag; the parent node comes back as it was, or
      as the submenu's own node when none was set. */
  lemma OpenThenClose(k: Keyboard)
    requires !k.forceClose && 0 <= k.index < |k.items|
    requires k.items[k.index].isSubmenu && |k.items[k.index].children| > 0
    ensures OpenOk(k) && OpenSubmenu(k).1 && CloseOk(OpenSubmenu(k).0)
    ensures var x := k.items[k.index]; var r := CloseSubmenu(OpenSubmenu(k).0);
            && r.items == k.items && r.index == k.index && r.isRoot == k.isRoot
            && r.parentNode == (if k.parentNode.Some? then k.parentNode else Some(x.node))
            && r.open == k.open - {x.node}
            && r.forceClose == k.forceClose
            && r.log == k.log + [Positioned(x.node), OpenMarked(x.node)]
  {
  }

  /** With a forced close pending, opening the focused submenu and closing
      it again restores the list and the root flag but not the index: the
      close keeps the children's index 0. */
  lemma OpenThenCloseForced(k: Keyboard)
    requires k.forceClose && 0 <= k.index < |k.items|
    requires k.items[k.index].isSubmenu && |k.items[k.index].children| > 0
    ensures OpenOk(k) && OpenSubmenu(k).1 && CloseOk(OpenSubmenu(k).0)
    ensures var r := CloseSubmenu(OpenSubmenu(k).0);
            && r.items == k.items && r.isRoot == k.isRoot && r.index == 0
            && (k.index > 0 ==> r.index != k.index)
  {
  }

  /** Opening an empty submenu keeps the list and index and sets the forced
      close, after which moving down or up closes the level first. */
  lemma OpenEmpty(k: Keyboard)
    requires 0 <= k.index < |k.items|
    requires k.items[k.index].isSubmenu && |k.items[k.index].children| == 0
    ensures OpenOk(k)
    ensures var r := OpenSubmenu(k).0;
            && r.forceClose && !r.isRoot && r.items == k.items && r.index == k.index
            && CloseOk(r.(index := DownIndex(r.index, |r.items|)))
            && MoveDownOk(r)
            && MoveDown(r).items == k.items && MoveDown(r).isRoot == k.isRoot
  {
    DownIndexRange(k.index, |k.items|);
  }

  // ---------------------------------------------------------------------
  // focusItem, matchKeys

  /** focusItem ignores a node in neither the current list nor the saved
      parent level, and any node when no parent level is saved and the node
      is not in the current list. */
  lemma FocusItemIgnores(k: Keyboard, node: nat)
    requires forall j :: 0 <= j < |k.items| ==> k.items[j].node != node
    requires k.parentNode.None? || k.parentNode.value !in k.menus ||
             forall j :: 0 <= j < |k.menus[k.parentNode.value].items| ==>
               k.menus[k.parentNode.value].items[j].node != node
    ensures FocusItemOk(k, node) && FocusItem(k, node) == k
  {
  }

  /** focusItem on a plain item of the current list, from a plain item, focuses it in place. */
  lemma FocusItemInList(k: Keyboard, i: nat)
    requires i < |k.items| && KeysDistinct(k.items)
    requires !k.items[i].isSubmenu && !OnSubmenu(k)
    ensures FocusItemOk(k, k.items[i].node)
    ensures var r := FocusItem(k, k.items[i].node);
            && r.items == k.items && r.index == i && r.menus == k.menus && r.isRoot == k.isRoot
            && (k.virtualFocus ==> k.items[i].node in r.focused)
  {
    IndexOfHit(k.items, i);
  }

  /** focusItem keeps the invariant wherever it completes. */
  lemma FocusItemInv(k: Keyboard, node: nat)
    requires KbInv(k) && FocusItemOk(k, node)
    ensures KbInv(FocusItem(k, node))
  {
    match Resolve(k, node)
    case None =>
    case Some(t) =>
      var closes := t.toParent || OnSubmenu(k);
      if closes {
        CloseInv(k);
      }
      var s := FocusStep(k, t);
      assert KbInv(s);
      if t.item.Some? && t.item.value.isSubmenu {
        OpenInv(s);
      }
  }
}
