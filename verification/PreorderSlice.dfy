/**
 * Draws below a marker, read off a flattened action list
 * (scripts/preview_geometry_smoke.py, _flatten_actions and _draws_under_marker).
 */
module PreorderSlice {
  import opened Wrappers
  import opened Forests

  datatype Fields = Fields(eventId: int, altId: int, depth: int, isDraw: bool)

  type Node = Tree<Fields>

  /** `event_id`, or `eventId` when the first is absent or zero. */
  function IdOf(n: Node): int {
    if n.data.eventId != 0 then n.data.eventId else n.data.altId
  }

  /** The id that a node answers to: the first field, unless that is zero. */
  predicate HasId(n: Node, id: int) {
    (n.data.eventId != 0 && n.data.eventId == id) || (n.data.eventId == 0 && n.data.altId == id)
  }

  method FlattenActions(nodes: seq<Node>) returns (out: seq<Node>)
    ensures out == Preorder(nodes)
    decreases nodes
  {
    out := [];
    for k := 0 to |nodes|
      invariant out == Preorder(nodes[..k])
    {
      var inner := FlattenActions(nodes[k].children);
      assert nodes[..k + 1] == nodes[..k] + [nodes[k]];
      PreorderConcat(nodes[..k], [nodes[k]]);
      assert Preorder([nodes[k]]) == [nodes[k]] + inner;
      out := out + [nodes[k]] + inner;
    }
    assert nodes[..|nodes|] == nodes;
  }

  // ----- The flat scan

  function Draws(nodes: seq<Node>): seq<Node> {
    if nodes == [] then []
    else if nodes[0].data.isDraw then [nodes[0]] + Draws(nodes[1..])
    else Draws(nodes[1..])
  }

  /** Exactly the draws, in order. */
  lemma {:induction false} DrawsAre(before: seq<Node>, n: Node)
    ensures Draws([]) == []
    ensures Draws(before + [n]) == Draws(before) + if n.data.isDraw then [n] else []
  {
    if before == [] {
      assert before + [n] == [n] && [n][1..] == [];
    } else {
      assert (before + [n])[1..] == before[1..] + [n];
      DrawsAre(before[1..], n);
    }
  }

  /** The longest prefix that stays deeper than `depth`. */
  function Deeper(nodes: seq<Node>, depth: int): seq<Node> {
    if nodes == [] || nodes[0].data.depth <= depth then [] else [nodes[0]] + Deeper(nodes[1..], depth)
  }

  function After(nodes: seq<Node>, eventId: int): Option<seq<Node>> {
    if nodes == [] then None
    else if IdOf(nodes[0]) == eventId then Some(nodes[1..])
    else After(nodes[1..], eventId)
  }

  function DrawsUnder(flat: seq<Node>, eventId: int, depth: int): seq<Node> {
    match After(flat, eventId)
    case None => []
    case Some(rest) => Draws(Deeper(rest, depth))
  }

  method DrawsUnderMarker(flat: seq<Node>, eventId: int, depth: int) returns (draws: seq<Node>)
    ensures draws == DrawsUnder(flat, eventId, depth)
  {
    var marker := -1;
    var k := 0;
    assert flat[0..] == flat;
    while k < |flat|
      invariant 0 <= k <= |flat| && marker == -1
      invariant After(flat, eventId) == After(flat[k..], eventId)
    {
      assert flat[k..][1..] == flat[k + 1..];
      if IdOf(flat[k]) == eventId {
        marker := k;
        break;
      }
      k := k + 1;
    }
    if marker < 0 {
      return [];
    }
    draws := [];
    var rest := flat[marker + 1..];
    k := 0;
    assert rest[0..] == rest;
    while k < |rest|
      invariant 0 <= k <= |rest|
      invariant Draws(Deeper(rest, depth)) == draws + Draws(Deeper(rest[k..], depth))
    {
      assert rest[k..][1..] == rest[k + 1..];
      if rest[k].data.depth <= depth {
        break;
      }
      KeepDeeper(rest[k..], depth);
      if rest[k].data.isDraw {
        draws := draws + [rest[k]];
      }
      k := k + 1;
    }
  }

  lemma KeepDeeper(nodes: seq<Node>, depth: int)
    requires nodes != [] && nodes[0].data.depth > depth
    ensures Draws(Deeper(nodes, depth)) ==
      if nodes[0].data.isDraw then [nodes[0]] + Draws(Deeper(nodes[1..], depth)) else Draws(Deeper(nodes[1..], depth))
  {
    assert Deeper(nodes, depth)[1..] == Deeper(nodes[1..], depth);
  }

  // ----- The tree

  /** Roots at `depth`, children one deeper than their parent. */
  predicate ConsistentDepths(nodes: seq<Node>, depth: int) {
    nodes != [] ==>
      && nodes[0].data.depth == depth
      && ConsistentDepths(nodes[0].children, depth + 1)
      && ConsistentDepths(nodes[1..], depth)
  }

  predicate UniqueIds(flat: seq<Node>) {
    forall i, j :: 0 <= i < j < |flat| ==> IdOf(flat[i]) != IdOf(flat[j])
  }

  lemma {:induction false} SubtreeIsDeeper(nodes: seq<Node>, depth: int)
    requires ConsistentDepths(nodes, depth)
    ensures forall n :: n in Preorder(nodes) ==> depth <= n.data.depth && ConsistentDepths(n.children, n.data.depth + 1)
  {
    if nodes != [] {
      SubtreeIsDeeper(nodes[0].children, depth + 1);
      SubtreeIsDeeper(nodes[1..], depth);
    }
  }

  /** In preorder, a node is followed by its subtree, and then by nothing or by a node no deeper. */
  lemma {:induction false} SubtreeIsContiguous(nodes: seq<Node>, depth: int, m: Node)
    returns (before: seq<Node>, after: seq<Node>)
    requires ConsistentDepths(nodes, depth) && m in Preorder(nodes)
    ensures Preorder(nodes) == before + ([m] + (Preorder(m.children) + after))
    ensures after != [] ==> after[0].data.depth <= m.data.depth
    ensures depth <= m.data.depth
  {
    var head, inner, tail := nodes[0], Preorder(nodes[0].children), Preorder(nodes[1..]);
    assert tail != [] ==> tail[0] == nodes[1..][0];
    if m == head {
      before, after := [], tail;
      Associates([m], inner, tail);
      assert [] + ([m] + (inner + tail)) == [m] + (inner + tail);
    } else if m in inner {
      var a, b := SubtreeIsContiguous(head.children, depth + 1, m);
      before, after := [head] + a, b + tail;
      ShiftBoth(head, a, m, Preorder(m.children), b, tail);
    } else {
      var a, b := SubtreeIsContiguous(nodes[1..], depth, m);
      before, after := [head] + inner + a, b;
      Associates([head] + inner, a, [m] + (Preorder(m.children) + b));
    }
  }

  lemma ShiftBoth(head: Node, a: seq<Node>, m: Node, below: seq<Node>, b: seq<Node>, tail: seq<Node>)
    ensures [head] + (a + ([m] + (below + b))) + tail == ([head] + a) + ([m] + (below + (b + tail)))
  {
  }

  lemma {:induction false} AfterSkips(before: seq<Node>, m: Node, rest: seq<Node>)
    requires forall n :: n in before ==> IdOf(n) != IdOf(m)
    ensures After(before + ([m] + rest), IdOf(m)) == Some(rest)
  {
    if before == [] {
      assert before + ([m] + rest) == [m] + rest;
    } else {
      AfterSkips(before[1..], m, rest);
      assert (before + ([m] + rest))[1..] == before[1..] + ([m] + rest);
    }
  }

  lemma {:induction false} DeeperStops(inside: seq<Node>, after: seq<Node>, depth: int)
    requires forall n :: n in inside ==> depth < n.data.depth
    requires after != [] ==> after[0].data.depth <= depth
    ensures Deeper(inside + after, depth) == inside
  {
    if inside == [] {
      assert inside + after == after;
    } else {
      DeeperStops(inside[1..], after, depth);
      assert (inside + after)[1..] == inside[1..] + after;
    }
  }

  /** Without the id there is no marker, and nothing below it. */
  lemma {:induction false} NoMarkerNoDraws(flat: seq<Node>, id: int, depth: int)
    requires forall n :: n in flat ==> !HasId(n, id)
    ensures DrawsUnder(flat, id, depth) == []
  {
    if flat != [] {
      assert flat[0] in flat;
      NoMarkerNoDraws(flat[1..], id, depth);
    }
  }

  /** The flat scan returns exactly the draws strictly below the marker, in preorder. */
  lemma SliceIsSubtree(forest: seq<Node>, depth: int, marker: Node, id: int)
    requires ConsistentDepths(forest, depth) && UniqueIds(Preorder(forest)) && marker in Preorder(forest)
    requires HasId(marker, id)
    ensures DrawsUnder(Preorder(forest), id, marker.data.depth) == Draws(Preorder(marker.children))
  {
    var before, after := SubtreeIsContiguous(forest, depth, marker);
    var inside := Preorder(marker.children);
    var flat := before + ([marker] + (inside + after));
    SubtreeIsDeeper(forest, depth);
    SubtreeIsDeeper(marker.children, marker.data.depth + 1);
    assert flat[|before|] == marker;
    forall n | n in before ensures IdOf(n) != IdOf(marker) {
      var i :| 0 <= i < |before| && before[i] == n;
      assert flat[i] == n;
    }
    AfterSkips(before, marker, inside + after);
    DeeperStops(inside, after, marker.data.depth);
  }
}
