/** Shortcut dispatch (matchKeys), identical in both controllers: every
    item reachable from the current registry through submenu children has
    its key matcher called, whether or not the submenu is open. */
module Shortcuts {
  import opened Menus

  /** The matcher calls `walkAndMatch(items)` makes, in order: a submenu's
      children are walked before the submenu item's own matcher. Group
      children are not descended. */
  function Walk(items: seq<Item>): (r: seq<Event>)
    ensures forall e :: e in r ==> e.Matched? && e.node in Nodes(items)
  {
    if |items| == 0 then []
    else
      var x := items[0];
      assert Nodes(items) == [x.node] + Nodes(x.children) + Nodes(items[1..]);
      (if x.isSubmenu then Walk(x.children) else [])
      + (if x.hasKeyMatcher then [Matched(x.node)] else [])
      + Walk(items[1..])
  }

  /** Reference definition: the registry's items and, through submenus,
      everything below them. */
  function Reach(items: seq<Item>): set<Item> {
    if |items| == 0 then {}
    else {items[0]} + (if items[0].isSubmenu then Reach(items[0].children) else {}) + Reach(items[1..])
  }

  lemma {:induction false} TopInReach(items: seq<Item>, k: nat)
    requires k < |items|
    ensures items[k] in Reach(items)
  {
    if k > 0 {
      TopInReach(items[1..], k - 1);
    }
  }

  /** The matcher calls of a walk, as a set. */
  function MatcherSet(items: seq<Item>): set<Event> {
    set x | x in Reach(items) && x.hasKeyMatcher :: Matched(x.node)
  }

  /** A walk calls exactly the matchers of the reachable items. */
  lemma {:induction false} WalkCoversReach(items: seq<Item>)
    ensures (set e | e in Walk(items)) == MatcherSet(items)
    decreases items
  {
    if |items| == 0 {
    } else {
      var x, rest := items[0], items[1..];
      WalkCoversReach(rest);
      if x.isSubmenu {
        WalkCoversReach(x.children);
      }
      var w := Walk(items);
      var sub := if x.isSubmenu then Walk(x.children) else [];
      var own := if x.hasKeyMatcher then [Matched(x.node)] else [];
      assert w == sub + own + Walk(rest);
      forall e | e in w ensures e in MatcherSet(items) {
        if e in sub {
          assert e in MatcherSet(x.children);
        } else if e in own {
        } else {
          assert e in MatcherSet(rest);
        }
      }
      forall e | e in MatcherSet(items) ensures e in w {
        var y :| y in Reach(items) && y.hasKeyMatcher && e == Matched(y.node);
        if y == x {
          assert e in own;
        } else if x.isSubmenu && y in Reach(x.children) {
          assert e in MatcherSet(x.children);
          assert e in sub;
        } else {
          assert e in MatcherSet(rest);
        }
      }
    }
  }

  /** In a well-formed tree no matcher is called twice. */
  lemma {:induction false} WalkOnce(items: seq<Item>)
    requires Wf(items)
    ensures NoDup(Walk(items))
    decreases items
  {
    if |items| > 0 {
      var x, rest := items[0], items[1..];
      WfSplit(items);
      WalkOnce(x.children);
      WalkOnce(rest);
      var sub := if x.isSubmenu then Walk(x.children) else [];
      var own := if x.hasKeyMatcher then [Matched(x.node)] else [];
      NoDupAppend(sub, own);
      NoDupAppend(sub + own, Walk(rest));
    }
  }

  /** `a` occurs in `w` strictly before `b`. */
  predicate Before(w: seq<Event>, a: Event, b: Event) {
    exists i, j :: 0 <= i < j < |w| && w[i] == a && w[j] == b
  }

  lemma BeforeAppend(w: seq<Event>, v: seq<Event>, a: Event, b: Event)
    requires Before(w, a, b)
    ensures Before(w + v, a, b)
  {
    var i, j :| 0 <= i < j < |w| && w[i] == a && w[j] == b;
    assert (w + v)[i] == a && (w + v)[j] == b;
  }

  lemma BeforePrepend(u: seq<Event>, w: seq<Event>, a: Event, b: Event)
    requires Before(w, a, b)
    ensures Before(u + w, a, b)
  {
    var i, j :| 0 <= i < j < |w| && w[i] == a && w[j] == b;
    assert (u + w)[|u| + i] == a && (u + w)[|u| + j] == b;
  }

  /** One submenu item's own calls: its children's matchers, then its own. */
  lemma OwnChildrenFirst(x: Item, c: Item)
    requires x.isSubmenu && x.hasKeyMatcher && c in x.children && c.hasKeyMatcher
    ensures Before(Walk(x.children) + [Matched(x.node)], Matched(c.node), Matched(x.node))
  {
    var sub := Walk(x.children);
    WalkCoversReach(x.children);
    var k :| 0 <= k < |x.children| && x.children[k] == c;
    TopInReach(x.children, k);
    assert Matched(c.node) in MatcherSet(x.children);
    var i :| 0 <= i < |sub| && sub[i] == Matched(c.node);
    assert (sub + [Matched(x.node)])[i] == Matched(c.node);
    assert (sub + [Matched(x.node)])[|sub|] == Matched(x.node);
  }

  /** A submenu's children are matched before the submenu item itself. */
  lemma {:induction false} ChildrenBeforeParent(items: seq<Item>, x: Item, c: Item)
    requires x in Reach(items) && x.isSubmenu && x.hasKeyMatcher
    requires c in x.children && c.hasKeyMatcher
    ensures Before(Walk(items), Matched(c.node), Matched(x.node))
    decreases items
  {
    var h, rest := items[0], items[1..];
    var sub := if h.isSubmenu then Walk(h.children) else [];
    var own := if h.hasKeyMatcher then [Matched(h.node)] else [];
    var tail := Walk(rest);
    assert Walk(items) == sub + own + tail;
    if x == h {
      OwnChildrenFirst(x, c);
      BeforeAppend(sub + own, tail, Matched(c.node), Matched(x.node));
    } else if h.isSubmenu && x in Reach(h.children) {
      ChildrenBeforeParent(h.children, x, c);
      BeforeAppend(sub, own, Matched(c.node), Matched(x.node));
      BeforeAppend(sub + own, tail, Matched(c.node), Matched(x.node));
    } else {
      ChildrenBeforeParent(rest, x, c);
      BeforePrepend(sub + own, tail, Matched(c.node), Matched(x.node));
    }
  }
}
