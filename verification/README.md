# Menu navigation controllers

This project models the keyboard and virtual-focus navigation core of a popup-menu library. Menus are a root registry with nested submenus and grid-like groups. The library has two controllers for them:

- **The path-based controller** (`createController`). Its state is the focused path from the root registry down to the focused item, the registry being navigated, and the focused index in it. Down/up step linearly, or by the column stride inside a group. Left/right close and open submenus and step sideways inside a group. Moving past either end of a group "spills out": the group itself becomes the focused item and the move continues one step further at the group's level. `focusNode` resolves a node through a depth-first search and focuses the item it finds.
- **The stack-based keyboard controller** (`createKeyboardController`). It navigates one list by index and wraps around at both ends. Opening a submenu saves the current level in a map keyed by the submenu's node. Closing restores the level saved under the parent node.

Both controllers drive two markers on nodes: the "focused" marker, used under the virtual focus policy, and the "submenu open" marker. Both dispatch keyboard shortcuts by walking every item reachable through submenus.

Every operation is a pure function from the old controller state to the new one. The markers are sets of node ids. Calls into opaque callbacks are appended to an event log:

- the submenu position callback;
- switching the open marker on;
- a key matcher;
- native activation of a node.

Where the source would dereference a missing item and throw, the operation has a precondition instead. The crash-site preconditions follow the code path to the point where it would throw. Some are recursive, such as `MoveToOk`, `MoveDownOk` and `CloseOk`. Others are plain conditions, such as `MoveLeftOk`, `OpenOk`, `FocusItemOk` and `Click`'s index range.

Modules:

- `Menus` (menus.dfy): the item record, the event log, `IndexOf` (findIndex), well-formed trees, and focus chains.
- `Shortcuts` (shortcuts.dfy): matchKeys, which is the same in both controllers.
- `Resolver` (resolver.dfy): recursiveFindItem.
- `PathController` (controller.dfy) and `PathControllerFacts` (controller_facts.dfy): the path-based controller and its properties.
- `KeyboardController` (keyboard.dfy) and `KeyboardFacts` (keyboard_facts.dfy): the keyboard controller and its properties.

The two invariants of the path-based controller are:

- `Consistent`: the focused item sits at the focused index of the registry it lives in, and the path is a chain from the root to it.
- `Marked`: under the virtual policy, the focused markers are exactly the nodes on the focused path.

The keyboard controller's invariant is `KbInv`: saved levels have valid indices, and below the root the parent level is saved.

Behaviour of the code a reader may not expect:

- `openSubmenu` overrides its `focusFirst` argument with true (src/components/controller.ts:294).
- A group column count of 0 steps by one, because the code uses `groupColumns || 1` (src/components/controller.ts:177 and 193).
- `closeSubmenu` leaves the focused markers of the items below the closed submenu in place (src/components/controller.ts:205-207, `CloseKeepsMarkers`).
- The keyboard controller wraps from the last item to the first, and from the first (or nothing focused) to the last (src/components/keyboardController.ts:99-116).
- The keyboard controller never resets `forceCloseSubmenu` once an empty submenu has set it, not even in init (src/components/keyboardController.ts:20-25 and 143). Below the root, every later move then closes a level and keeps the index, which can fall outside the restored list (`KeyboardFacts.DownInv`, `UpInv`, `CloseInv`).

## Model

| member | source | states |
|---|---|---|
| Menus.IndexOf | src/components/controller.ts:360-362 | getItemIndex finds the first item keyed by the node, and gives -1 exactly when no item is keyed by it |
| Menus.IndexOfHit | src/components/controller.ts:360-362 | in a registry with distinct keys, an item's own node finds that item's index |
| Menus.WfUnique | src/hooks/useItemTracker.ts:3-11 | in a tree where no node is registered twice, two items with the same node are the same item, so value equality stands in for the source's reference equality |
| Menus.ChainSiblings | src/components/controller.ts:364-369 | the registry getSiblings returns for a focus path contains the path's last item and, in a well-formed tree, has distinct keys |
| Shortcuts.Walk | src/components/controller.ts:405-411 | every matcher call of walkAndMatch names a node of the walked tree |
| Shortcuts.WalkCoversReach | src/components/controller.ts:402-414 | walkAndMatch calls exactly the matchers of the items reachable from the registry through submenus, whether or not they are open |
| Shortcuts.WalkOnce | src/components/controller.ts:402-414 | in a well-formed tree, walkAndMatch calls no matcher twice |
| Shortcuts.ChildrenBeforeParent | src/components/controller.ts:405-411 | a submenu's children are matched before the submenu item itself |
| Resolver.Lookup | src/components/controller.ts:139-142 | the tracker lookup returns an item of the registry keyed by the node, and nothing exactly when no item is keyed by it |
| Resolver.FindItem | src/components/controller.ts:134-155 | a found entry's path extends the given path by a chain that starts in the searched registry and ends in the found item, which is keyed by the node |
| Resolver.DirectHitWins | src/components/controller.ts:139-142 | a direct hit in the searched registry wins over any deeper match and is returned one step below the given path |
| Resolver.FindNone | src/components/controller.ts:134-155 | the search finds nothing exactly when no item reachable through submenus and groups is keyed by the node |
| Resolver.FindUnique | src/components/controller.ts:134-159 | in a well-formed tree the search returns the one chain from the registry that ends at the node's item |
| Resolver.FindAmong | src/components/controller.ts:146-154 | a hit among the containers extends the given path by a chain from the searched registry to an item keyed by the node |
| Resolver.FindAmongReaches | src/components/controller.ts:146-154 | the loop over the containers skips every container before the one whose subtree holds the node |
| PathController.Init | src/components/controller.ts:62-76 | init navigates the root registry with nothing focused and an empty path, and leaves the markers and the log of an earlier show as they are |
| PathController.FocusIndex | src/components/controller.ts:371-378 | getFocusedIndex gives 0 for first and the last index for last, which lie in a non-empty registry, and an explicit index unchanged |
| PathController.OptionsFor | src/components/controller.ts:195 | the options moveTo passes on never ask focusItem to open a submenu |
| PathController.Refocus | src/components/controller.ts:106-122 | the hand-over at the start of focusItem: old-path submenus that leave the path lose the open marker and nothing else does; under the virtual policy, new-path items gain the focused marker, left items whose node is not on the new path lose it, and other nodes keep theirs; under the native policy the markers do not change |
| PathController.FocusItem | src/components/controller.ts:100-132 | focusItem's resulting path starts with the given path; it goes deeper exactly when the target is a submenu being opened or a group, and otherwise leaves the registry and index alone |
| PathController.OpenFirst | src/components/controller.ts:296-308 | opening a submenu logs its positioning and open marker, focuses its first child and sets the index to 0 |
| PathController.DescendGroup | src/components/controller.ts:326-335 | moveToGroup focuses the child its focus option names, extending the path through the group |
| PathController.MoveToGroup | src/components/controller.ts:326-335 | moveToGroup is a no-op unless the path ends in a group, and then descends below it |
| PathController.MoveOutGroup | src/components/controller.ts:337-347 | moveOutGroup is a no-op unless the path ends in a group; otherwise it navigates the registry the group lives in, at the group's index, with the group's path and changes nothing else; on a chain of a well-formed tree the index is on the group item |
| PathController.OpenSubmenu | src/components/controller.ts:290-311 | openSubmenu fails and changes nothing exactly when nothing is focused or the item is not a submenu; on success it logs the position callback and open marker, sets the index to 0 and extends the path by the first child |
| PathController.CloseSubmenu | src/components/controller.ts:313-324 | closeSubmenu fails and changes nothing exactly when nothing is focused or the item is not a submenu; otherwise it clears only that submenu's open marker, navigates the registry the submenu lives in and, on a chain of a well-formed tree, puts the index on the submenu item |
| PathController.AnchorIndex | src/components/controller.ts:321-322 | on a chain of a well-formed tree, getItemIndex over getSiblings finds the path's last item |
| PathController.Spill | src/components/controller.ts:259-266 | the spill-out removes the left child's marker and focuses the group at its index in the registry it lives in, one level up |
| PathController.LandAt | src/components/controller.ts:280-287 | landing on item t replaces the last path item by it; a non-group target keeps the registry and takes index t |
| PathController.MoveTo | src/components/controller.ts:248-288 | moveTo keeps the root, the policy and the log, and returns false only when it changes nothing |
| PathController.Click | src/components/controller.ts:349-351 | click logs exactly one event, the activation of the item at the focused index, and changes nothing else |
| PathController.MoveNext | src/components/controller.ts:232-238 | moveNext keeps the root, the policy and the log, and returns false only when it changes nothing beyond the start index |
| PathController.MovePrev | src/components/controller.ts:240-246 | movePrev keeps the root, the policy and the log, and returns false only when it changes nothing beyond the start index |
| PathController.MoveDown | src/components/controller.ts:165-180 | moveDown keeps the root, the policy and the log, and returns false only when it changes nothing beyond the start index |
| PathController.MoveUp | src/components/controller.ts:182-196 | moveUp keeps the root, the policy and the log, and returns false only when it changes nothing beyond the start index |
| PathController.MoveLeft | src/components/controller.ts:198-215 | moveLeft keeps the root, the policy and the log; on a submenu it clears that submenu's open marker, inside a submenu it clears the parent's, and outside submenus and groups it changes nothing |
| PathController.MoveRight | src/components/controller.ts:217-230 | moveRight on a submenu opens it, returns true, sets the index to 0 and logs the position callback and open marker; otherwise it logs nothing, and outside a group it changes nothing |
| PathController.SyncFocusedIndex | src/components/controller.ts:353-358 | syncFocusedIndex sets the index to the focused item's position in the current registry, or -1 exactly when it is not there, and changes nothing else |
| PathController.FocusPath | src/components/controller.ts:96-97 | focusing a found path and re-reading the index keeps the path as a prefix and leaves the index at -1 or on an item keyed by the focused node |
| PathController.FocusNode | src/components/controller.ts:93-98 | focusNode ignores an untracked node; otherwise the found path is a prefix of the new path and the index is -1 or on an item keyed by the focused node |
| PathControllerFacts.InitConsistent | src/components/controller.ts:62-76 | init navigates the root registry with nothing focused, a consistent state, and leaves earlier markers as they are |
| PathControllerFacts.FocusItemPlaces | src/components/controller.ts:100-132 | focusItem on a chain yields a chain and, when it opens or descends, places the focused item at the index (0 for a first-child focus) |
| PathControllerFacts.OpenFirstPlaces | src/components/controller.ts:296-308 | opening a submenu places its first child at index 0 of its children |
| PathControllerFacts.DescendGroupPlaces | src/components/controller.ts:326-335 | descending into a group places the chosen child |
| PathControllerFacts.LandAtPlaces | src/components/controller.ts:280-287 | landing on an item of the navigated registry places it |
| PathControllerFacts.SpillPlaces | src/components/controller.ts:259-266 | after a spill-out the group is the placed focused item |
| PathControllerFacts.MoveToConsistent | src/components/controller.ts:248-288 | moveTo keeps the controller consistent through any number of spill-outs |
| PathControllerFacts.CloseConsistent | src/components/controller.ts:313-324 | closeSubmenu on a chain keeps the controller consistent |
| PathControllerFacts.DownConsistent | src/components/controller.ts:165-180 | moveDown keeps the controller consistent |
| PathControllerFacts.UpConsistent | src/components/controller.ts:182-196 | moveUp keeps the controller consistent |
| PathControllerFacts.LeftConsistent | src/components/controller.ts:198-215 | moveLeft keeps the controller consistent |
| PathControllerFacts.RightConsistent | src/components/controller.ts:217-230 | moveRight keeps the controller consistent |
| PathControllerFacts.MovesConsistent | src/components/controller.ts:165-230 | all four directional moves keep the controller consistent |
| PathControllerFacts.RefocusMarks | src/components/controller.ts:108-122 | under the virtual policy, the hand-over moves the focused markers from exactly the old path to exactly the new path |
| PathControllerFacts.FocusItemMarks | src/components/controller.ts:100-132 | focusItem keeps the markers exactly on the focused path, through submenu opening and group descent |
| PathControllerFacts.SpillMarks | src/components/controller.ts:263-266 | a spill-out keeps the markers exactly on the shortened path |
| PathControllerFacts.MoveToMarks | src/components/controller.ts:248-288 | moveTo keeps the markers exactly on the focused path |
| PathControllerFacts.CloseKeepsMarkers | src/components/controller.ts:205-207 | moveLeft from a plain item inside a submenu closes it without clearing any focused marker, so the left child stays marked |
| PathControllerFacts.EmptyPathTargets | src/components/controller.ts:165-168 | with nothing focused, moveDown and moveNext target the first item, and moveUp and movePrev the last |
| PathControllerFacts.MoveToClamps | src/components/controller.ts:252-254 | targets below -1 behave as -1 |
| PathControllerFacts.MoveToInRange | src/components/controller.ts:256-287 | a target inside the registry returns true and replaces the focused item by the target |
| PathControllerFacts.MoveToOutcome | src/components/controller.ts:259-287 | moveTo returns true exactly when the target is in range, false exactly when it is out of range outside a group, and nothing exactly when it spills out of a group |
| PathControllerFacts.NoWrap | src/components/controller.ts:259-277 | a flat registry does not wrap: down from the last item and up from the first return false and change nothing |
| PathControllerFacts.LandOnGroup | src/components/controller.ts:129-131 | landing on a group descends to its first child when moving down and to its last when moving up |
| PathControllerFacts.NextIsMoveTo | src/components/controller.ts:232-238 | with an item focused, moveNext is moveTo of the next index |
| PathControllerFacts.PrevIsMoveTo | src/components/controller.ts:240-246 | with an item focused, movePrev is moveTo of the previous index, moving up |
| PathControllerFacts.GroupDown | src/components/controller.ts:170-179 | inside a group, moveDown steps a whole row of at least one item |
| PathControllerFacts.GroupUp | src/components/controller.ts:186-195 | inside a group, moveUp steps a whole row back |
| PathControllerFacts.GroupRight | src/components/controller.ts:224-229 | inside a group, moveRight on a plain item is moveNext, a single step |
| PathControllerFacts.GroupLeft | src/components/controller.ts:205-214 | inside a group that is not a submenu, moveLeft on a plain item is movePrev, a single step back |
| PathControllerFacts.FlatSteps | src/components/controller.ts:170-175 | outside a group, moveDown and moveUp step a single item |
| PathControllerFacts.SpillOut | src/components/controller.ts:259-275 | past either end of a group, the left child loses its marker, the group becomes the placed focused item and the move continues one step further in the same direction |
| PathControllerFacts.OpenThenClose | src/components/controller.ts:290-324 | opening the focused submenu and closing it again restores the registry, index and path |
| PathControllerFacts.RightOpensPlain | src/components/controller.ts:217-222 | right on a submenu whose first child is a plain item returns true and focuses that child one level below |
| PathControllerFacts.RightThenLeft | src/components/controller.ts:198-230 | right onto a plain first child, then left, comes back to the submenu item |
| PathControllerFacts.OpenShowsChildren | src/components/controller.ts:299-308 | opening a submenu whose first child is not a group shows its children, focuses the first (a submenu child is not opened), and adds its open marker without clearing any other |
| PathControllerFacts.ClickFocused | src/components/controller.ts:349-351 | click activates the focused item |
| PathControllerFacts.FocusNodeUntracked | src/components/controller.ts:93-95 | focusNode ignores a node that no registry tracks |
| PathControllerFacts.FocusNodeFinds | src/components/controller.ts:157-159 | in a well-formed tree, findTargetItem returns the one chain to the node |
| PathControllerFacts.FocusThenSync | src/components/controller.ts:96-97 | focusing a chain and re-reading the index places the focused item when its registry was the one navigated |
| PathControllerFacts.FocusNodeChain | src/components/controller.ts:93-98 | focusNode focuses along the chain to the node and, when its registry was navigated, places it |
| PathController.MatchKeys | src/components/controller.ts:402-414 | matchKeys appends one matcher call for each item reachable through submenus, and none twice in a well-formed registry, and changes nothing else |
| KeyboardController.Defocus | src/components/keyboardController.ts:40-44 | at most one marker is removed; a removed marker is that of the item at the previous index of the current list, and that item is left unmarked |
| KeyboardController.Init | src/components/keyboardController.ts:20-25 | init navigates the root list unfocused at the root, and keeps the saved levels, the parent node, the pending forced close and the markers |
| KeyboardController.FocusSelected | src/components/keyboardController.ts:27-38 | under the virtual policy the focused item is marked, the previous index follows, and other nodes change as the defocus does; the native policy changes nothing |
| KeyboardController.MoveDown | src/components/keyboardController.ts:99-109 | moveDown lands inside the list; with no forced close it keeps the list and moves to the next index, wrapping |
| KeyboardController.CloseSubmenu | src/components/keyboardController.ts:154-174 | at the root a focused close does nothing; below it, the parent level is restored (clearing the saved levels when it is the root), the parent's open marker is cleared, and the saved index is restored unless the close is forced |
| KeyboardController.MoveUp | src/components/keyboardController.ts:111-121 | moveUp lands inside the list; with no forced close it keeps the list and moves to the previous index, wrapping |
| KeyboardController.OpenSubmenu | src/components/keyboardController.ts:123-152 | unfocused it moves down and fails; it succeeds exactly on a focused submenu, saving the level under its node and navigating its children, or setting the forced close when it has none |
| KeyboardController.Resolve | src/components/keyboardController.ts:46-68 | focusItem finds the node in the current list or else in the saved parent level, reading the item from the current list at that index, and finds nothing exactly when both miss |
| KeyboardController.FocusItem | src/components/keyboardController.ts:58-64 | focusItem ignores a node found in neither list |
| KeyboardFacts.DownIndexRange | src/components/keyboardController.ts:99-104 | moveDown's index stays in the list and wraps from the last item (or nothing focused) to the first |
| KeyboardFacts.UpIndexRange | src/components/keyboardController.ts:111-116 | moveUp's index stays in the list and wraps from the first item (or nothing focused) to the last |
| KeyboardFacts.UpDownInverse | src/components/keyboardController.ts:99-116 | on a focused index, a step down and a step up undo each other |
| KeyboardFacts.FocusSelectedMoves | src/components/keyboardController.ts:27-44 | focusSelectedItem moves the one virtual marker of a list with distinct keys to the new index |
| KeyboardFacts.StepsKeepOneMarker | src/components/keyboardController.ts:99-121 | stepping down or up keeps exactly one marked item in the list, unless a forced close is pending below the root |
| KeyboardFacts.PlainSteps | src/components/keyboardController.ts:99-121 | unless a forced close is pending below the root, a step down or up only moves the index and the marker |
| KeyboardFacts.MoveUpUndoesMoveDown | src/components/keyboardController.ts:99-121 | unless a forced close is pending below the root, moveUp undoes moveDown: same list, index, levels and markers |
| KeyboardFacts.InitInv | src/components/keyboardController.ts:20-25 | init over a non-empty root navigates the root list unfocused at the root, keeps the saved levels, and establishes the invariant |
| KeyboardFacts.InitThenDown | src/components/keyboardController.ts:20-25 | init then moveDown focuses the first root item, even with a forced close left pending |
| KeyboardFacts.DownInv | src/components/keyboardController.ts:99-109 | from any state satisfying the invariant, moveDown completes exactly when the next index fits the list a pending forced close below the root restores, and then keeps the invariant |
| KeyboardFacts.UpInv | src/components/keyboardController.ts:111-121 | from any state satisfying the invariant, moveUp completes exactly when the previous index fits the list a pending forced close below the root restores, and then keeps the invariant |
| KeyboardFacts.CloseInv | src/components/keyboardController.ts:154-174 | closeSubmenu always completes, and keeps the invariant exactly when a forced close below the root keeps an index that fits the restored list |
| KeyboardFacts.OpenInv | src/components/keyboardController.ts:123-152 | openSubmenu always completes and keeps the invariant, with or without a pending forced close |
| KeyboardFacts.OpenUnfocused | src/components/keyboardController.ts:89-97 | openSubmenu with nothing focused focuses the first item and fails, unless a forced close is pending below the root |
| KeyboardFacts.OpenThenClose | src/components/keyboardController.ts:123-174 | when no forced close is pending, opening a focused submenu and closing it restores the list, index and root flag, clears its open marker, and logs its positioning and marker |
| KeyboardFacts.OpenThenCloseForced | src/components/keyboardController.ts:139-172 | with a forced close pending, opening a focused submenu and closing it restores the list and root flag but leaves the index at 0, so a submenu item past the first loses its index |
| KeyboardFacts.OpenEmpty | src/components/keyboardController.ts:139-144 | opening an empty submenu keeps the list and sets the forced close, after which a move closes the level first |
| KeyboardFacts.FocusItemIgnores | src/components/keyboardController.ts:58-64 | focusItem ignores a node in neither the current list nor the saved parent level |
| KeyboardFacts.FocusItemInList | src/components/keyboardController.ts:46-81 | focusItem on a plain item of the current list, from a plain item, focuses it in place |
| KeyboardFacts.FocusItemInv | src/components/keyboardController.ts:46-81 | wherever focusItem completes, it keeps the invariant |
| KeyboardController.MatchKeys | src/components/keyboardController.ts:176-188 | matchKeys appends one matcher call for each item reachable through submenus, and none twice in a well-formed list, and changes nothing else |

## Left out

- Console logging, native `focus()` and `classList` calls, and the position callback's effect. Only their occurrence is kept: as marker sets, or as log events. Under the native policy, focusing leaves no state.
- `setSubmenuPosition` is assumed present on every submenu. The source calls it without a guard.
- `submenuRefTracker` is assumed present on every submenu and group. The source dereferences it unchecked (src/components/controller.ts:148, 302, 331, 368 and src/components/keyboardController.ts:87), so a container without one throws there. The model reads a missing tracker as an empty `children` list, so `Resolver.FindAmong` skips such a container instead of failing.
- The key matchers' effects. The model logs which matchers are called and in what order. The keyboard event is not modelled.
- Dead code: commented-out blocks, the unused `menuList`, `parentNode`, `isRoot`, `prevFocusedIndex` and `forceCloseSubmenu` locals of `createController`.
- The context-menu wiring and React hooks that call the controllers (`src/core/contextMenu.ts`, `src/hooks/useContextMenu.ts`, `src/hooks/useControllerContext.ts`). They are not part of this model.
- Registries changing while a controller walks them. Registries are immutable values here.
- Reference equality of item records: items are values. Under `Wf` (no node registered twice) the two agree (`Menus.WfUnique`).
- Switching the open marker off is recorded in the `open` set but not as a log event.
- PathController.OpenSubmenu: the `focusFirst` argument has no effect, because the source overrides it with true.
- PathController.FocusItem: its contract states the path, root, policy and log only. Placement and markers are stated by `PathControllerFacts.FocusItemPlaces` and `FocusItemMarks`.
- PathController.MoveTo: its own contract does not state where it lands. That is stated by `PathControllerFacts.MoveToInRange`, `MoveToOutcome`, `SpillOut` and `MoveToConsistent`.
- PathControllerFacts.FocusNodeChain: it concludes `Placed` only when the navigated registry is the one the node lives in. Otherwise the source keeps the stale registry, and syncFocusedIndex may give -1.
- PathControllerFacts.CloseKeepsMarkers: the `Marked` invariant is not preserved by closeSubmenu, which leaves the markers of the items below the closed submenu in place.
- KeyboardController.FocusItem: its own contract covers only the ignored node. `KeyboardFacts.FocusItemInList` states the in-list case. The parent-level case, which reads the current list at the parent's index, is stated only by `KeyboardController.Resolve`. `KeyboardFacts.FocusItemInv` states that it keeps the invariant.
- KeyboardFacts.OpenThenClose: not claimed with a forced close pending. `forceCloseSubmenu` is never reset, so a stale flag makes the close keep the children's index 0 instead of restoring the saved one. `KeyboardFacts.OpenThenCloseForced` states that outcome.
- PathController.MoveNext, PathController.MovePrev, PathController.MoveDown, PathController.MoveUp: their own contracts do not state where they land. That is stated by `PathControllerFacts.NextIsMoveTo`, `PrevIsMoveTo`, `GroupDown`, `GroupUp`, `FlatSteps`, `EmptyPathTargets` and the `MoveTo` facts.
- PathController.FocusNode: its contract does not state where the found item lands. `PathControllerFacts.FocusNodeChain` states when it is placed.
- KeyboardFacts.StepsKeepOneMarker, KeyboardFacts.MoveUpUndoesMoveDown, KeyboardFacts.OpenUnfocused: not claimed with a forced close pending below the root. There a step closes a level first, so the list changes. `DownInv`, `UpInv` and `CloseInv` cover that case.
