/**
  Path-to-root highlighting (`highlightPath` inside `renderTree`).

  The laid-out hierarchy is given by parent indices over the nodes in the
  order of `root.descendants()`, which is breadth-first: node 0 is the root and
  has no parent (-1); every other node's parent comes before it. The drawn
  links are `root.links()`: one link per non-root node, from its parent to it.
  The style of a link is reduced to one flag: highlighted (red, 3px) or not
  (the default grey, 1.5px).
 */
module Highlight {

  /** Parent indices of a d3 hierarchy listed breadth-first. */
  predicate ValidHierarchy(parent: seq<int>)
  {
    && |parent| > 0
    && parent[0] == -1
    && forall i :: 0 < i < |parent| ==> 0 <= parent[i] < i
  }

  /** A drawn link, from `source` (the parent) to `target`. */
  datatype Link = Link(source: nat, target: nat)

  /** `root.links()`: the link into each non-root node, in descendants order. */
  function Links(parent: seq<int>): (links: seq<Link>)
    requires ValidHierarchy(parent)
  {
    seq(|parent| - 1, k requires 0 <= k < |parent| - 1 => Link(parent[k + 1] as nat, k + 1))
  }

  /** Number of parent steps from node `i` to the root. */
  function Depth(parent: seq<int>, i: nat): (d: nat)
    requires ValidHierarchy(parent) && i < |parent|
    decreases i
  {
    if parent[i] == -1 then 0 else 1 + Depth(parent, parent[i] as nat)
  }

  /** The nodes met walking `parent` from `i` up to and including the root. */
  function PathToRoot(parent: seq<int>, i: nat): (path: seq<nat>)
    requires ValidHierarchy(parent) && i < |parent|
    decreases i
    ensures |path| == Depth(parent, i) + 1
    ensures path[0] == i && path[|path| - 1] == 0
    ensures forall k :: 0 <= k < |path| ==> path[k] < |parent|
    ensures forall k :: 0 <= k < |path| - 1 ==> path[k + 1] == parent[path[k]]
  {
    if parent[i] == -1 then [i] else [i] + PathToRoot(parent, parent[i] as nat)
  }

  /** The nodes whose incoming link the walk from `i` highlights: those on the
      path from `i` to the root, the root excluded (it has no parent). */
  function Marked(parent: seq<int>, i: nat): (s: set<nat>)
    requires ValidHierarchy(parent) && i < |parent|
    decreases i
  {
    if parent[i] == -1 then {} else {i} + Marked(parent, parent[i] as nat)
  }

  /** The link styles that selecting `selected` leaves behind. */
  function HighlightState(parent: seq<int>, links: seq<Link>, selected: nat): (state: seq<bool>)
    requires ValidHierarchy(parent) && selected < |parent|
  {
    seq(|links|, k requires 0 <= k < |links| => links[k].target in Marked(parent, selected))
  }

  /** Number of highlighted links. */
  function CountTrue(s: seq<bool>): (n: nat)
  {
    if s == [] then 0 else CountTrue(s[..|s| - 1]) + (if s[|s| - 1] then 1 else 0)
  }

  /** The rendered diagram: its hierarchy, its links and each link's highlight. */
  class Diagram {
    const parent: seq<int>
    const links: seq<Link>
    const highlighted: array<bool>

    ghost predicate Valid()
      reads this
    {
      && ValidHierarchy(parent)
      && links == Links(parent)
      && highlighted.Length == |links|
      && forall k :: 0 <= k < |links| ==> links[k].target < |parent|
    }

    /** The links as first drawn: one per non-root node, none highlighted. */
    constructor (hierarchy: seq<int>)
      requires ValidHierarchy(hierarchy)
      ensures Valid()
      ensures parent == hierarchy && links == Links(hierarchy)
      ensures fresh(highlighted)
      ensures forall k :: 0 <= k < highlighted.Length ==> !highlighted[k]
    {
      parent := hierarchy;
      links := Links(hierarchy);
      highlighted := new bool[|hierarchy| - 1](_ => false);
    }

    /** `highlightPath(selectedNode, links)`: resets every link, then walks from
        the selected node to the root, highlighting the link into each node it
        leaves. The ghost result counts the iterations of the walk. */
    method HighlightPath(selected: nat) returns (ghost steps: nat)
      requires Valid() && selected < |parent|
      modifies highlighted
      ensures Valid()
      ensures highlighted[..] == HighlightState(parent, links, selected)
      ensures steps == Depth(parent, selected)
    {
      var k := 0;
      while k < highlighted.Length
        invariant 0 <= k <= highlighted.Length
        invariant forall j :: 0 <= j < k ==> !highlighted[j]
      {
        highlighted[k] := false;
        k := k + 1;
      }

      var current: nat := selected;
      ghost var walked: set<nat> := {};
      steps := 0;
      while parent[current] != -1
        invariant current < |parent|
        invariant walked + Marked(parent, current) == Marked(parent, selected)
        invariant steps + Depth(parent, current) == Depth(parent, selected)
        invariant forall j :: 0 <= j < highlighted.Length ==> highlighted[j] == (links[j].target in walked)
        decreases Depth(parent, current)
      {
        // links.filter(d => d.target === current), then restyle the match
        var j := 0;
        while j < highlighted.Length
          invariant 0 <= j <= highlighted.Length
          invariant forall m :: 0 <= m < j ==> highlighted[m] == (links[m].target in walked + {current})
          invariant forall m :: j <= m < highlighted.Length ==> highlighted[m] == (links[m].target in walked)
        {
          if links[j].target == current {
            highlighted[j] := true;
          }
          j := j + 1;
        }
        walked := walked + {current};
        current := parent[current] as nat;
        steps := steps + 1;
      }
      assert Marked(parent, current) == {};
    }
  }

  /** Two clicks in a row leave the styles of the second alone: the state
      depends on the current selection only, and a repeated click changes nothing.
      The second click leaves as many links highlighted as its node is deep. */
  method ClickTwice(d: Diagram, first: nat, second: nat)
    requires d.Valid() && first < |d.parent| && second < |d.parent|
    modifies d.highlighted
    ensures d.Valid()
    ensures d.highlighted[..] == HighlightState(d.parent, d.links, second)
    ensures CountTrue(d.highlighted[..]) == Depth(d.parent, second)
  {
    ghost var s1 := d.HighlightPath(first);
    ghost var s2 := d.HighlightPath(second);
    HighlightCount(d.parent, second);
  }

  // ---------------------------------------------------------------------------
  // What the highlight means

  /** Every marked node lies on the path to the root, strictly below the root. */
  lemma {:induction false} MarkedBounds(parent: seq<int>, i: nat)
    requires ValidHierarchy(parent) && i < |parent|
    decreases i
    ensures forall t :: t in Marked(parent, i) ==> 0 < t <= i
  {
    if parent[i] != -1 {
      MarkedBounds(parent, parent[i] as nat);
    }
  }

  /** A node's link is highlighted exactly when the node is on the walk from
      the selection to the root and is not the root. */
  lemma {:induction false} MarkedIsPathWithoutRoot(parent: seq<int>, i: nat, t: nat)
    requires ValidHierarchy(parent) && i < |parent|
    decreases i
    ensures t in Marked(parent, i) <==> t in PathToRoot(parent, i) && t != 0
  {
    if parent[i] != -1 {
      MarkedIsPathWithoutRoot(parent, parent[i] as nat, t);
    }
  }

  /** As many nodes are marked as the selection is deep. */
  lemma {:induction false} MarkedSize(parent: seq<int>, i: nat)
    requires ValidHierarchy(parent) && i < |parent|
    decreases i
    ensures |Marked(parent, i)| == Depth(parent, i)
  {
    if parent[i] != -1 {
      var p := parent[i] as nat;
      MarkedSize(parent, p);
      MarkedBounds(parent, p);
      assert i !in Marked(parent, p);
    }
  }

  /** Over the links into nodes 1..m, the highlighted ones are those into the nodes of `s`. */
  lemma {:induction false} CountMembers(s: set<nat>, m: nat)
    requires forall t :: t in s ==> 0 < t <= m
    ensures CountTrue(seq(m, k requires 0 <= k < m => k + 1 in s)) == |s|
  {
    var flags := seq(m, k requires 0 <= k < m => k + 1 in s);
    if m == 0 {
      assert s == {};
    } else {
      var rest := s - {m};
      var restFlags := seq(m - 1, k requires 0 <= k < m - 1 => k + 1 in rest);
      assert flags[..m - 1] == restFlags;
      CountMembers(rest, m - 1);
      if m in s {
        assert |s| == |rest| + 1;
      } else {
        assert rest == s;
      }
    }
  }

  /** With the links `root.links()` draws, selecting a node highlights exactly
      as many links as the node is deep; selecting the root highlights none. */
  lemma HighlightCount(parent: seq<int>, selected: nat)
    requires ValidHierarchy(parent) && selected < |parent|
    ensures CountTrue(HighlightState(parent, Links(parent), selected)) == Depth(parent, selected)
    ensures selected == 0 ==> forall k :: 0 <= k < |parent| - 1 ==> !HighlightState(parent, Links(parent), selected)[k]
  {
    var s := Marked(parent, selected);
    MarkedBounds(parent, selected);
    MarkedSize(parent, selected);
    assert HighlightState(parent, Links(parent), selected)
        == seq(|parent| - 1, k requires 0 <= k < |parent| - 1 => k + 1 in s);
    CountMembers(s, |parent| - 1);
  }

  /** Every link into a node on the path, and no other, carries the highlight. */
  lemma HighlightedIffOnPath(parent: seq<int>, links: seq<Link>, selected: nat, k: nat)
    requires ValidHierarchy(parent) && selected < |parent| && k < |links|
    ensures HighlightState(parent, links, selected)[k]
        <==> links[k].target in PathToRoot(parent, selected) && links[k].target != 0
  {
    MarkedIsPathWithoutRoot(parent, selected, links[k].target);
  }
}
