/**
 * Which nodes one projection emits (rdc_tool/core/capture_queries.py, structured_object): exactly the first
 * ones, in preorder, of the nodes that lie no deeper than the depth cap of 12, as many as the budget allows.
 */
module ProjectionOrder {
  import opened Wrappers
  import opened CaptureTree

  /** The paths of the nodes of a tree, in preorder, down to depth 12; the root's children from `from` on. */
  function Nodes(o: SDObject, depth: nat, path: seq<nat>, from: nat): (paths: seq<seq<nat>>)
    ensures 0 < |paths|
    decreases o, |o.children| + 1
  {
    [path] +
      match o.base
      case Chunk | Struct | Array => if from <= |o.children| then NodesFrom(o, depth, path, from) else []
      case _ => []
  }

  function NodesFrom(o: SDObject, depth: nat, path: seq<nat>, from: nat): seq<seq<nat>>
    requires from <= |o.children|
    decreases o, |o.children| - from
  {
    if from == |o.children| || 12 <= depth then []
    else Nodes(o.children[from], depth + 1, path + [from], 0) + NodesFrom(o, depth, path, from + 1)
  }

  /** The paths that a projection emits, in the order of its reply. */
  function Paths(p: Projection): seq<seq<nat>>
    decreases p, 0
  {
    [p.path] + if p.body.Branch? then PathsAll(p.body.children) else []
  }

  function PathsAll(ps: seq<Projection>): seq<seq<nat>>
    decreases ps, 1
  {
    if ps == [] then [] else Paths(ps[0]) + PathsAll(ps[1..])
  }

  function First<T>(s: seq<T>, n: int): seq<T> {
    if n <= 0 then [] else if |s| <= n then s else s[..n]
  }

  lemma FirstOfBoth<T>(s: seq<T>, t: seq<T>, n: int)
    ensures First(s + t, n) == First(s, n) + First(t, n - |First(s, n)|)
  {
  }

  /** Depth-first, breadth by index, nothing skipped, and nothing left out but for the budget or the depth. */
  lemma {:induction false} FillIsPreorderPrefix(
    o: SDObject, budget: int, depth: nat, path: seq<nat>, childOffset: nat, valueOffset: nat)
    requires 0 < budget && OffsetsInside(o, childOffset, valueOffset)
    ensures var (p, left) := Fill(o, budget, depth, path, childOffset, valueOffset);
            Paths(p) == First(Nodes(o, depth, path, childOffset), budget) && left == budget - |Paths(p)|
    decreases o, |o.children| + 1
  {
    if IsBranch(o) {
      ChildrenArePreorderPrefix(o, childOffset, budget - 1, depth, path);
      FirstOfBoth([path], NodesFrom(o, depth, path, childOffset), budget);
    }
  }

  lemma {:induction false} ChildrenArePreorderPrefix(
    o: SDObject, index: nat, budget: int, depth: nat, path: seq<nat>)
    requires index <= |o.children| && 0 <= budget
    ensures var (ps, left) := FillChildren(o, index, budget, depth, path);
            PathsAll(ps) == First(NodesFrom(o, depth, path, index), budget) && left == budget - |PathsAll(ps)|
    decreases o, |o.children| - index
  {
    if index < |o.children| && 0 < budget && depth < DEPTH_CAP {
      var (child, left) := Fill(o.children[index], budget, depth + 1, path + [index], 0, 0);
      var (rest, left') := FillChildren(o, index + 1, left, depth, path);
      FillIsPreorderPrefix(o.children[index], budget, depth + 1, path + [index], 0, 0);
      BudgetConserved(o.children[index], budget, depth + 1, path + [index], 0, 0);
      ChildrenArePreorderPrefix(o, index + 1, left, depth, path);
      OneMore(Nodes(o.children[index], depth + 1, path + [index], 0), NodesFrom(o, depth, path, index + 1),
              child, rest, budget);
    }
  }

  lemma OneMore(here: seq<seq<nat>>, later: seq<seq<nat>>, child: Projection, rest: seq<Projection>, budget: int)
    requires Paths(child) == First(here, budget)
    requires PathsAll(rest) == First(later, budget - |Paths(child)|)
    ensures PathsAll([child] + rest) == First(here + later, budget)
    ensures |PathsAll([child] + rest)| == |Paths(child)| + |PathsAll(rest)|
  {
    FirstOfBoth(here, later, budget);
    assert ([child] + rest)[1..] == rest;
  }
}
