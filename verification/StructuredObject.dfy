/**
 * The bounded, typed projection of one captured object tree
 * (rdc_tool/core/capture_queries.py, structured_object).
 *
 * `Project` is the specification of one call; the class-based method `StructuredObject` mutates
 * the shared node budget the way the source does and is proved equal to it.
 */
module CaptureTree {
  import opened Wrappers

  const DEPTH_CAP: nat := 12
  const TEXT_WINDOW: nat := 4096

  datatype Basic =
    | Chunk | Struct | Array
    | Resource | Boolean | Float | String | Character | Buffer | Null
    | Other(tag: string)

  /** One node of the structured file, with every accessor the source may call on it. */
  datatype SDObject = SDObject(
    name: string, typeName: string, base: Basic, byteSize: int, children: seq<SDObject>,
    text: string, number: int, flag: bool, float: real, resource: string)

  datatype Scalar =
    | ResourceId(id: string) | Truth(flag: bool) | Real(float: real) | Letter(letter: char)
    | BufferIndex(index: int) | Nothing | Number(number: int)

  datatype Head = Head(name: string, typeName: string, base: Basic, byteSize: int)

  datatype Projection = Projection(head: Head, path: seq<nat>, body: Body)

  datatype Body =
    | Branch(children: seq<Projection>, count: nat, offset: nat, omitted: nat, next: Option<nat>)
    | Text(value: string, start: nat, omittedCharacters: nat, nextValue: Option<nat>)
    | Leaf(scalar: Scalar)

  datatype QueryError =
    | BudgetExhausted | ChildOffsetOutside | ValueOffsetOutside | PathOutside
    | NoStructuredData | EventNotFound | ChunkOutside | ContinuationNeedsOneChunk

  predicate IsBranch(o: SDObject) {
    o.base in {Chunk, Struct, Array}
  }

  function HeadOf(o: SDObject): Head {
    Head(o.name, o.typeName, o.base, o.byteSize)
  }

  function ReadScalar(o: SDObject): Scalar {
    match o.base
    case Resource => ResourceId(o.resource)
    case Boolean => Truth(o.flag)
    case Float => Real(o.float)
    case Character => Letter((o.number % 256) as char)
    case Buffer => BufferIndex(o.number)
    case Null => Nothing
    case _ => Number(o.number)
  }

  function TextEnd(o: SDObject, start: nat): nat
    requires start <= |o.text|
  {
    if |o.text| < start + TEXT_WINDOW then |o.text| else start + TEXT_WINDOW
  }

  function Resumption(next: nat, count: nat): Option<nat> {
    if next < count then Some(next) else None
  }

  /** Offsets that the source accepts for this kind of object. */
  predicate OffsetsInside(o: SDObject, childOffset: nat, valueOffset: nat) {
    && (IsBranch(o) ==> childOffset <= |o.children|)
    && (o.base == String ==> valueOffset <= |o.text|)
  }

  // ----- Specification of one call

  /** The projection together with what it leaves of the budget. */
  function Fill(o: SDObject, budget: int, depth: nat, path: seq<nat>, childOffset: nat, valueOffset: nat)
    : (Projection, int)
    requires 0 < budget && OffsetsInside(o, childOffset, valueOffset)
    decreases o, |o.children| + 1
  {
    if IsBranch(o) then
      var (children, left) := FillChildren(o, childOffset, budget - 1, depth, path);
      var count := |o.children|;
      var next := childOffset + |children|;
      (Projection(HeadOf(o), path,
                  Branch(children, count, childOffset, count - next, Resumption(next, count))), left)
    else if o.base == String then
      var end := TextEnd(o, valueOffset);
      (Projection(HeadOf(o), path,
                  Text(o.text[valueOffset..end], valueOffset, |o.text| - end, Resumption(end, |o.text|))),
       budget - 1)
    else
      (Projection(HeadOf(o), path, Leaf(ReadScalar(o))), budget - 1)
  }

  function FillChildren(o: SDObject, index: nat, budget: int, depth: nat, path: seq<nat>)
    : (r: (seq<Projection>, int))
    requires index <= |o.children|
    ensures index + |r.0| <= |o.children|
    decreases o, |o.children| - index
  {
    if index < |o.children| && 0 < budget && depth < DEPTH_CAP then
      var (child, left) := Fill(o.children[index], budget, depth + 1, path + [index], 0, 0);
      var (rest, left') := FillChildren(o, index + 1, left, depth, path);
      ([child] + rest, left')
    else
      ([], budget)
  }

  /** As `Fill`, with the errors; the budget is charged before an offset is rejected. */
  function Project(o: SDObject, budget: int, depth: nat, path: seq<nat>, childOffset: nat, valueOffset: nat)
    : (Result<Projection, QueryError>, int)
  {
    if budget <= 0 then (Failure(BudgetExhausted), budget)
    else if IsBranch(o) && |o.children| < childOffset then (Failure(ChildOffsetOutside), budget - 1)
    else if o.base == String && |o.text| < valueOffset then (Failure(ValueOffsetOutside), budget - 1)
    else
      var (p, left) := Fill(o, budget, depth, path, childOffset, valueOffset);
      (Success(p), left)
  }

  /** Which error, and what it costs: an exhausted budget nothing, an offset outside the object one node. */
  lemma ProjectFailsIff(o: SDObject, budget: int, depth: nat, path: seq<nat>, childOffset: nat, valueOffset: nat)
    ensures var (r, left) := Project(o, budget, depth, path, childOffset, valueOffset);
            && (r == Failure(BudgetExhausted) <==> budget <= 0)
            && (r == Failure(ChildOffsetOutside) <==>
                  0 < budget && o.base in {Chunk, Struct, Array} && |o.children| < childOffset)
            && (r == Failure(ValueOffsetOutside) <==> 0 < budget && o.base == String && |o.text| < valueOffset)
            && (r.Failure? ==> r.error in {BudgetExhausted, ChildOffsetOutside, ValueOffsetOutside})
            && (r.Failure? ==> left == if budget <= 0 then budget else budget - 1)
  {
  }

  // ----- The source's own form: a budget cell shared through the recursion

  class Budget {
    var left: int

    constructor (nodes: int)
      ensures left == nodes
    {
      left := nodes;
    }
  }

  method StructuredObject(o: SDObject, budget: Budget, depth: nat, path: seq<nat>,
                          childOffset: nat, valueOffset: nat)
    returns (r: Result<Projection, QueryError>)
    modifies budget
    ensures (r, budget.left) == Project(o, old(budget.left), depth, path, childOffset, valueOffset)
    decreases o
  {
    if budget.left <= 0 {
      return Failure(BudgetExhausted);
    }
    budget.left := budget.left - 1;
    if IsBranch(o) {
      var count := |o.children|;
      if childOffset > count {
        return Failure(ChildOffsetOutside);
      }
      ghost var whole := FillChildren(o, childOffset, budget.left, depth, path);
      var children: seq<Projection> := [];
      NothingGathered(whole);
      while childOffset + |children| < count && budget.left > 0 && depth < DEPTH_CAP
        invariant childOffset + |children| <= count
        invariant whole == Gathered(children, FillChildren(o, childOffset + |children|, budget.left, depth, path))
        decreases count - |children|
      {
        var index := childOffset + |children|;
        ghost var before := budget.left;
        var child := StructuredObject(o.children[index], budget, depth + 1, path + [index], 0, 0);
        NextChild(o, index, before, depth, path);
        GatherNext(children, child.value, FillChildren(o, index + 1, budget.left, depth, path));
        children := children + [child.value];
      }
      assert whole.0 == children;
      var next := childOffset + |children|;
      return Success(Projection(HeadOf(o), path,
                                Branch(children, count, childOffset, count - next, Resumption(next, count))));
    } else if o.base == String {
      if valueOffset > |o.text| {
        return Failure(ValueOffsetOutside);
      }
      var end := TextEnd(o, valueOffset);
      return Success(Projection(HeadOf(o), path,
                                Text(o.text[valueOffset..end], valueOffset, |o.text| - end,
                                     Resumption(end, |o.text|))));
    } else {
      return Success(Projection(HeadOf(o), path, Leaf(ReadScalar(o))));
    }
  }

  ghost function Gathered(children: seq<Projection>, r: (seq<Projection>, int)): (seq<Projection>, int) {
    (children + r.0, r.1)
  }

  lemma NothingGathered(r: (seq<Projection>, int))
    ensures Gathered([], r) == r
  {
    assert [] + r.0 == r.0;
  }

  lemma GatherNext(children: seq<Projection>, child: Projection, r: (seq<Projection>, int))
    ensures Gathered(children, Gathered([child], r)) == Gathered(children + [child], r)
  {
    Associates(children, [child], r.0);
  }

  lemma NextChild(o: SDObject, index: nat, budget: int, depth: nat, path: seq<nat>)
    requires index < |o.children| && 0 < budget && depth < DEPTH_CAP
    ensures var (child, left) := Fill(o.children[index], budget, depth + 1, path + [index], 0, 0);
            && Project(o.children[index], budget, depth + 1, path + [index], 0, 0) == (Success(child), left)
            && FillChildren(o, index, budget, depth, path)
            == Gathered([child], FillChildren(o, index + 1, left, depth, path))
  {
  }

  // ----- Budget conservation

  function Emitted(p: Projection): nat
    decreases p, 0
  {
    1 + if p.body.Branch? then EmittedAll(p.body.children) else 0
  }

  function EmittedAll(ps: seq<Projection>): nat
    decreases ps, 1
  {
    if ps == [] then 0 else Emitted(ps[0]) + EmittedAll(ps[1..])
  }

  lemma {:induction false} BudgetConserved(
    o: SDObject, budget: int, depth: nat, path: seq<nat>, childOffset: nat, valueOffset: nat)
    requires 0 < budget && OffsetsInside(o, childOffset, valueOffset)
    ensures var (p, left) := Fill(o, budget, depth, path, childOffset, valueOffset);
            0 <= left && Emitted(p) == budget - left
    decreases o, |o.children| + 1
  {
    if IsBranch(o) {
      ChildBudgetConserved(o, childOffset, budget - 1, depth, path);
    }
  }

  lemma {:induction false} ChildBudgetConserved(o: SDObject, index: nat, budget: int, depth: nat, path: seq<nat>)
    requires index <= |o.children| && 0 <= budget
    ensures var (ps, left) := FillChildren(o, index, budget, depth, path);
            0 <= left && EmittedAll(ps) == budget - left
    decreases o, |o.children| - index
  {
    if index < |o.children| && 0 < budget && depth < DEPTH_CAP {
      BudgetConserved(o.children[index], budget, depth + 1, path + [index], 0, 0);
      var (child, left) := Fill(o.children[index], budget, depth + 1, path + [index], 0, 0);
      ChildBudgetConserved(o, index + 1, left, depth, path);
      var rest := FillChildren(o, index + 1, left, depth, path).0;
      assert ([child] + rest)[1..] == rest;
    }
  }

  // ----- Faithfulness: what a projection says about the tree it was taken from

  /** `p` shows `o`, from the given offsets on, and its resume tokens tell exactly what is missing. */
  ghost predicate Faithful(o: SDObject, path: seq<nat>, childOffset: nat, valueOffset: nat, p: Projection)
    decreases o
  {
    && p.path == path
    && p.head.name == o.name && p.head.typeName == o.typeName
    && p.head.base == o.base && p.head.byteSize == o.byteSize
    && match o.base
       case Chunk | Struct | Array =>
         && p.body.Branch?
         && var shown := |p.body.children|;
         && p.body.count == |o.children|
         && p.body.offset == childOffset
         && childOffset + shown <= |o.children|
         && p.body.omitted == |o.children| - childOffset - shown
         && p.body.next == (if p.body.omitted == 0 then None else Some(childOffset + shown))
         && forall i :: childOffset <= i < childOffset + shown ==>
              Faithful(o.children[i], path + [i], 0, 0, p.body.children[i - childOffset])
       case String =>
         && p.body.Text?
         && p.body.start == valueOffset
         && ShowsText(o, valueOffset, p.body)
       case _ =>
         p.body.Leaf? && ShowsValue(o, p.body.scalar)
  }

  /** A window of at most 4096 characters, and where the next one begins. */
  predicate ShowsText(o: SDObject, start: nat, body: Body)
    requires body.Text?
  {
    && start <= |o.text|
    && |body.value| == (if |o.text| - start < 4096 then |o.text| - start else 4096)
    && body.value == o.text[start..start + |body.value|]
    && body.omittedCharacters == |o.text| - start - |body.value|
    && body.nextValue == (if body.omittedCharacters == 0 then None else Some(start + |body.value|))
  }

  /** The value of an object without children or text, read off its own fields. */
  predicate ShowsValue(o: SDObject, scalar: Scalar) {
    match o.base
    case Resource => scalar == ResourceId(o.resource)
    case Boolean => scalar == Truth(o.flag)
    case Float => scalar == Real(o.float)
    case Character => scalar.Letter? && scalar.letter as int == o.number % 256
    case Buffer => scalar == BufferIndex(o.number)
    case Null => scalar == Nothing
    case _ => scalar == Number(o.number)
  }

  lemma {:induction false} FillIsFaithful(
    o: SDObject, budget: int, depth: nat, path: seq<nat>, childOffset: nat, valueOffset: nat)
    requires 0 < budget && OffsetsInside(o, childOffset, valueOffset)
    ensures Faithful(o, path, childOffset, valueOffset,
                     Fill(o, budget, depth, path, childOffset, valueOffset).0)
    decreases o, |o.children| + 1
  {
    if IsBranch(o) {
      ChildrenAreFaithful(o, childOffset, budget - 1, depth, path);
      assert Fill(o, budget, depth, path, childOffset, valueOffset).0.body.children
          == FillChildren(o, childOffset, budget - 1, depth, path).0;
    }
  }

  lemma {:induction false} ChildrenAreFaithful(o: SDObject, index: nat, budget: int, depth: nat, path: seq<nat>)
    requires index <= |o.children|
    ensures var ps := FillChildren(o, index, budget, depth, path).0;
            forall i :: index <= i < index + |ps| ==> Faithful(o.children[i], path + [i], 0, 0, ps[i - index])
    decreases o, |o.children| - index
  {
    if index < |o.children| && 0 < budget && depth < DEPTH_CAP {
      FillIsFaithful(o.children[index], budget, depth + 1, path + [index], 0, 0);
      var (child, left) := Fill(o.children[index], budget, depth + 1, path + [index], 0, 0);
      ChildrenAreFaithful(o, index + 1, left, depth, path);
      var rest := FillChildren(o, index + 1, left, depth, path).0;
      var ps := FillChildren(o, index, budget, depth, path).0;
      forall i | index <= i < index + |ps|
        ensures Faithful(o.children[i], path + [i], 0, 0, ps[i - index])
      {
        if i > index {
          assert ps[i - index] == rest[i - (index + 1)];
        }
      }
    }
  }

  /** A branch with something left to show advances exactly when the page holds two nodes or more. */
  lemma BranchAdvancesIff(o: SDObject, budget: int, path: seq<nat>, childOffset: nat)
    requires 0 < budget && IsBranch(o) && childOffset < |o.children|
    ensures var p := Fill(o, budget, 0, path, childOffset, 0).0;
            (p.body.next != Some(childOffset) <==> 2 <= budget) && (2 <= budget ==> 0 < |p.body.children|)
  {
  }

  /** A string page of a resumed query always advances, whatever the node budget. */
  lemma TextAdvances(o: SDObject, budget: int, path: seq<nat>, valueOffset: nat)
    requires 0 < budget && o.base == String && valueOffset < |o.text|
    ensures 0 < |Fill(o, budget, 0, path, 0, valueOffset).0.body.value|
  {
  }

  // ----- Every node is shown once or lies below one reported gap

  /** `rel` leads from `o` to one of the nodes of its tree. */
  predicate InTree(o: SDObject, rel: seq<nat>)
    decreases rel
  {
    || rel == []
    || (o.base in {Chunk, Struct, Array} && rel[0] < |o.children| && InTree(o.children[rel[0]], rel[1..]))
  }

  /** How often the node at path `q` is emitted by `p`. */
  function Shown(p: Projection, q: seq<nat>): nat
    decreases p, 0
  {
    (if p.path == q then 1 else 0) + if p.body.Branch? then ShownAll(p.body.children, q) else 0
  }

  function ShownAll(ps: seq<Projection>, q: seq<nat>): nat
    decreases ps, 1
  {
    if ps == [] then 0 else Shown(ps[0], q) + ShownAll(ps[1..], q)
  }

  /** `q` lies below a child of `p` that `p` skipped (before its offset) or omitted (from its token on). */
  predicate InGap(p: Projection, q: seq<nat>) {
    && p.body.Branch?
    && p.path < q
    && var index := q[|p.path|];
       index < p.body.offset || (p.body.next.Some? && p.body.next.value <= index)
  }

  function Gaps(p: Projection, q: seq<nat>): nat
    decreases p, 0
  {
    (if InGap(p, q) then 1 else 0) + if p.body.Branch? then GapsAll(p.body.children, q) else 0
  }

  function GapsAll(ps: seq<Projection>, q: seq<nat>): nat
    decreases ps, 1
  {
    if ps == [] then 0 else Gaps(ps[0], q) + GapsAll(ps[1..], q)
  }

  lemma {:induction false} NothingElsewhere(
    o: SDObject, path: seq<nat>, childOffset: nat, valueOffset: nat, p: Projection, q: seq<nat>)
    requires Faithful(o, path, childOffset, valueOffset, p) && !(path <= q)
    ensures Shown(p, q) == 0 && Gaps(p, q) == 0
    decreases o, 1
  {
    if IsBranch(o) {
      forall j | 0 <= j < |p.body.children|
        ensures Shown(p.body.children[j], q) == 0 && Gaps(p.body.children[j], q) == 0
      {
        assert path <= path + [childOffset + j];
        NothingElsewhere(o.children[childOffset + j], path + [childOffset + j], 0, 0, p.body.children[j], q);
      }
      SumsVanish(p.body.children, q);
    }
  }

  lemma SumsVanish(ps: seq<Projection>, q: seq<nat>)
    requires forall j :: 0 <= j < |ps| ==> Shown(ps[j], q) == 0 && Gaps(ps[j], q) == 0
    ensures ShownAll(ps, q) == 0 && GapsAll(ps, q) == 0
  {
  }

  lemma {:induction false} SumsSplit(ps: seq<Projection>, at: nat, q: seq<nat>)
    requires at < |ps|
    requires forall j :: 0 <= j < |ps| && j != at ==> Shown(ps[j], q) == 0 && Gaps(ps[j], q) == 0
    ensures ShownAll(ps, q) == Shown(ps[at], q) && GapsAll(ps, q) == Gaps(ps[at], q)
  {
    if at == 0 {
      SumsVanish(ps[1..], q);
    } else {
      SumsSplit(ps[1..], at - 1, q);
    }
  }

  /** No gap and no duplicate: each node of the requested tree is emitted once, or is below one gap. */
  lemma {:induction false} ShownOnceOrInOneGap(
    o: SDObject, path: seq<nat>, childOffset: nat, valueOffset: nat, p: Projection, rel: seq<nat>)
    requires Faithful(o, path, childOffset, valueOffset, p) && InTree(o, rel)
    ensures Shown(p, path + rel) + Gaps(p, path + rel) == 1
    decreases o
  {
    var q := path + rel;
    if IsBranch(o) {
      var ps := p.body.children;
      OthersDoNotShow(o, path, childOffset, valueOffset, p, rel);
      if rel == [] || rel[0] < childOffset || childOffset + |ps| <= rel[0] {
        SumsVanish(ps, q);
        if rel != [] {
          assert path <= q && q[|path|] == rel[0];
        }
      } else {
        SumsSplit(ps, rel[0] - childOffset, q);
        assert q == (path + [rel[0]]) + rel[1..] && q[|path|] == rel[0];
        ShownOnceOrInOneGap(o.children[rel[0]], path + [rel[0]], 0, 0, ps[rel[0] - childOffset], rel[1..]);
      }
    }
  }

  lemma OthersDoNotShow(
    o: SDObject, path: seq<nat>, childOffset: nat, valueOffset: nat, p: Projection, rel: seq<nat>)
    requires Faithful(o, path, childOffset, valueOffset, p) && IsBranch(o)
    ensures forall j :: 0 <= j < |p.body.children| && (rel == [] || childOffset + j != rel[0]) ==>
              Shown(p.body.children[j], path + rel) == 0 && Gaps(p.body.children[j], path + rel) == 0
  {
    var q := path + rel;
    forall j | 0 <= j < |p.body.children| && (rel == [] || childOffset + j != rel[0])
      ensures Shown(p.body.children[j], q) == 0 && Gaps(p.body.children[j], q) == 0
    {
      if rel != [] {
        assert q[|path|] == rel[0];
        assert (path + [childOffset + j])[|path|] == childOffset + j;
      }
      NothingElsewhere(
        o.children[childOffset + j], path + [childOffset + j], 0, 0, p.body.children[j], q);
    }
  }
}
