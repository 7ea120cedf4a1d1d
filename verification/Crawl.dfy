/**
 * A client that only follows resume tokens: it re-queries one chunk at every reported object_path with
 * its next_child_offset or next_value_offset. The crawl terminates and reassembles the whole tree.
 */
module Crawl {
  import opened Wrappers
  import opened CaptureTree
  import opened CallQueries

  /** A tree as a reader of query replies can know it. */
  datatype View = View(head: Head, content: Content)
  datatype Content = Tree(views: seq<View>) | Whole(text: string) | Atom(scalar: Scalar)

  function ViewOf(o: SDObject): View
    decreases o, |o.children| + 1
  {
    View(HeadOf(o),
         if IsBranch(o) then Tree(ViewsFrom(o, 0))
         else if o.base == String then Whole(o.text)
         else Atom(ReadScalar(o)))
  }

  function ViewsFrom(o: SDObject, index: nat): (views: seq<View>)
    requires index <= |o.children|
    decreases o, |o.children| - index
  {
    if index == |o.children| then [] else [ViewOf(o.children[index])] + ViewsFrom(o, index + 1)
  }

  /** The view tells the object's own fields, whatever part of it the object's type makes a reader see. */
  predicate Recovers(v: View, o: SDObject)
    decreases o
  {
    && v.head.name == o.name && v.head.typeName == o.typeName
    && v.head.base == o.base && v.head.byteSize == o.byteSize
    && match o.base
       case Chunk | Struct | Array =>
         && v.content.Tree?
         && |v.content.views| == |o.children|
         && forall i :: 0 <= i < |o.children| ==> Recovers(v.content.views[i], o.children[i])
       case String => v.content == Whole(o.text)
       case Resource => v.content == Atom(ResourceId(o.resource))
       case Boolean => v.content == Atom(Truth(o.flag))
       case Float => v.content == Atom(Real(o.float))
       case Character => v.content == Atom(Letter((o.number % 256) as char))
       case Buffer => v.content == Atom(BufferIndex(o.number))
       case Null => v.content == Atom(Nothing)
       case Other(_) => v.content == Atom(Number(o.number))
  }

  lemma {:induction false} ViewRecovers(o: SDObject)
    ensures Recovers(ViewOf(o), o)
    decreases o, 1
  {
    if IsBranch(o) {
      ViewsRecover(o);
    }
  }

  lemma {:induction false} ViewsRecover(o: SDObject)
    ensures |ViewsFrom(o, 0)| == |o.children|
    ensures forall i :: 0 <= i < |o.children| ==> Recovers(ViewsFrom(o, 0)[i], o.children[i])
    decreases o, 0
  {
    ViewsAre(o, 0);
    forall i | 0 <= i < |o.children| ensures Recovers(ViewsFrom(o, 0)[i], o.children[i]) {
      ViewRecovers(o.children[i]);
    }
  }

  lemma {:induction false} ViewsAre(o: SDObject, from: nat)
    requires from <= |o.children|
    ensures |ViewsFrom(o, from)| == |o.children| - from
    ensures forall i :: 0 <= i < |ViewsFrom(o, from)| ==> ViewsFrom(o, from)[i] == ViewOf(o.children[from + i])
    decreases |o.children| - from
  {
    if from < |o.children| {
      ViewsAre(o, from + 1);
      var rest := ViewsFrom(o, from + 1);
      forall i | 0 <= i < |ViewsFrom(o, from)| ensures ViewsFrom(o, from)[i] == ViewOf(o.children[from + i]) {
        assert 0 < i ==> ViewsFrom(o, from)[i] == rest[i - 1];
      }
    }
  }

  function Size(o: SDObject): (n: nat)
    ensures 0 < n
    decreases o, |o.children| + 1
  {
    if IsBranch(o) then 1 + SizeFrom(o, 0) else 1
  }

  function SizeFrom(o: SDObject, index: nat): nat
    requires index <= |o.children|
    decreases o, |o.children| - index
  {
    if index == |o.children| then 0 else Size(o.children[index]) + SizeFrom(o, index + 1)
  }

  lemma {:induction false} SizeShrinks(o: SDObject, from: nat, to: nat)
    requires from <= to <= |o.children|
    ensures SizeFrom(o, to) <= SizeFrom(o, from)
    ensures from < to ==> SizeFrom(o, to) < SizeFrom(o, from)
    decreases |o.children| - from
  {
    if from < to {
      SizeShrinks(o, from + 1, to);
    }
  }

  lemma {:induction false} ViewsSplit(o: SDObject, from: nat, to: nat)
    requires from <= to <= |o.children|
    ensures |ViewsFrom(o, from)| == |o.children| - from
    ensures ViewsFrom(o, from) == ViewsFrom(o, from)[..to - from] + ViewsFrom(o, to)
    decreases |o.children| - from, to
  {
    if from < |o.children| {
      if from < to {
        ViewsSplit(o, from + 1, to);
      } else {
        ViewsSplit(o, from + 1, from + 1);
      }
    }
  }

  /** The object that a crawl is currently reading. */
  predicate At(c: Capture, chunk: nat, path: seq<nat>, o: SDObject) {
    c.chunks.Some? && chunk < |c.chunks.value| && Walk(c.chunks.value[chunk], path) == Success(o)
  }

  /** Re-query one chunk at a reported path. */
  function Fetch(c: Capture, chunk: nat, maxNodes: nat, path: seq<nat>, childOffset: nat, valueOffset: nat,
                 ghost o: SDObject): (p: Projection)
    requires 0 < maxNodes && At(c, chunk, path, o) && OffsetsInside(o, childOffset, valueOffset)
    ensures p == Fill(o, maxNodes, 0, path, childOffset, valueOffset).0
    ensures Faithful(o, path, childOffset, valueOffset, p)
  {
    var q := Request(None, Some([chunk]), 0, 1, maxNodes, path, childOffset, valueOffset);
    assert AsNats(path) == path;
    assert Slice(ByIndex([chunk]), 0, 1) == [Association(chunk, None)];
    QuerySucceedsIff(c, q);
    FillIsFaithful(o, maxNodes, 0, path, childOffset, valueOffset);
    Query(c, q).0.value.calls[0].call
  }

  /** Complete a reply: its children, then whatever its own resume token still owes. */
  function Finish(c: Capture, chunk: nat, maxNodes: nat, p: Projection, childOffset: nat, valueOffset: nat,
                  ghost o: SDObject): (v: View)
    requires 2 <= maxNodes && At(c, chunk, p.path, o) && OffsetsInside(o, childOffset, valueOffset)
    requires Faithful(o, p.path, childOffset, valueOffset, p)
    ensures childOffset == 0 && valueOffset == 0 ==> v == ViewOf(o)
    decreases if IsBranch(o) then 1 + SizeFrom(o, childOffset) else 1, 2
  {
    match p.body
    case Branch(children, _, _, _, next) =>
      EachIsFaithful(p.path, children, childOffset, o);
      var head := FinishAll(c, chunk, maxNodes, p.path, children, childOffset, o);
      SizeShrinks(o, childOffset, childOffset + |children|);
      var tail := if next.None? then [] else Resume(c, chunk, maxNodes, p.path, next.value, o);
      ViewsSplit(o, childOffset, childOffset + |children|);
      View(p.head, Tree(head + tail))
    case Text(value, _, _, next) =>
      var tail := if next.None? then [] else ResumeText(c, chunk, maxNodes, p.path, next.value, o);
      assert o.text == o.text[..TextEnd(o, valueOffset)] + o.text[TextEnd(o, valueOffset)..];
      View(p.head, Whole(value + tail))
    case Leaf(scalar) => View(p.head, Atom(scalar))
  }

  function FinishAll(c: Capture, chunk: nat, maxNodes: nat, path: seq<nat>, ps: seq<Projection>, index: nat,
                     ghost o: SDObject): (views: seq<View>)
    requires 2 <= maxNodes && At(c, chunk, path, o) && IsBranch(o)
    requires index + |ps| <= |o.children| && AllFaithful(path, ps, index, o)
    ensures ViewsFrom(o, index) == views + ViewsFrom(o, index + |ps|)
    ensures |views| == |ps|
    decreases 1 + SizeFrom(o, index), 0
  {
    if ps == [] then []
    else
      WalkExtends(c.chunks.value[chunk], path, index);
      assert SizeFrom(o, index) == Size(o.children[index]) + SizeFrom(o, index + 1);
      var first := [Finish(c, chunk, maxNodes, ps[0], 0, 0, o.children[index])];
      var rest := FinishAll(c, chunk, maxNodes, path, ps[1..], index + 1, o);
      Associates(first, rest, ViewsFrom(o, index + |ps|));
      first + rest
  }

  /** Consecutive children, from `index` on, each projected faithfully. */
  ghost predicate AllFaithful(path: seq<nat>, ps: seq<Projection>, index: nat, o: SDObject) {
    ps != [] ==>
      && index < |o.children|
      && Faithful(o.children[index], path + [index], 0, 0, ps[0])
      && AllFaithful(path, ps[1..], index + 1, o)
  }

  lemma {:induction false} EachIsFaithful(path: seq<nat>, ps: seq<Projection>, index: nat, o: SDObject)
    requires index + |ps| <= |o.children|
    requires forall i :: index <= i < index + |ps| ==> Faithful(o.children[i], path + [i], 0, 0, ps[i - index])
    ensures AllFaithful(path, ps, index, o)
    decreases |ps|
  {
    if ps != [] {
      forall i | index + 1 <= i < index + 1 + |ps[1..]|
        ensures Faithful(o.children[i], path + [i], 0, 0, ps[1..][i - (index + 1)])
      {
        assert ps[1..][i - (index + 1)] == ps[i - index];
      }
      EachIsFaithful(path, ps[1..], index + 1, o);
    }
  }

  /** Ask for the children from `childOffset` on, page after page. */
  function Resume(c: Capture, chunk: nat, maxNodes: nat, path: seq<nat>, childOffset: nat,
                  ghost o: SDObject): (views: seq<View>)
    requires 2 <= maxNodes && At(c, chunk, path, o) && IsBranch(o) && childOffset < |o.children|
    ensures views == ViewsFrom(o, childOffset)
    decreases 1 + SizeFrom(o, childOffset), 1
  {
    var p := Fetch(c, chunk, maxNodes, path, childOffset, 0, o);
    BranchAdvancesIff(o, maxNodes, path, childOffset);
    PageIsFaithful(path, p, childOffset, o);
    var head := FinishAll(c, chunk, maxNodes, path, p.body.children, childOffset, o);
    if p.body.next.None? then head
    else
      SizeShrinks(o, childOffset, p.body.next.value);
      head + Resume(c, chunk, maxNodes, path, p.body.next.value, o)
  }

  lemma PageIsFaithful(path: seq<nat>, p: Projection, childOffset: nat, o: SDObject)
    requires IsBranch(o) && childOffset < |o.children| && Faithful(o, path, childOffset, 0, p)
    ensures p.body.Branch? && childOffset + |p.body.children| <= |o.children|
    ensures p.body.next == Resumption(childOffset + |p.body.children|, |o.children|)
    ensures AllFaithful(path, p.body.children, childOffset, o)
  {
    EachIsFaithful(path, p.body.children, childOffset, o);
  }

  function ResumeText(c: Capture, chunk: nat, maxNodes: nat, path: seq<nat>, valueOffset: nat,
                      ghost o: SDObject): (text: string)
    requires 0 < maxNodes && At(c, chunk, path, o) && o.base == String && valueOffset < |o.text|
    ensures text == o.text[valueOffset..]
    decreases |o.text| - valueOffset
  {
    var p := Fetch(c, chunk, maxNodes, path, 0, valueOffset, o);
    if p.body.nextValue.None? then p.body.value
    else p.body.value + ResumeText(c, chunk, maxNodes, path, p.body.nextValue.value, o)
  }

  /** Crawl completeness, for every finite tree and every page of at least two nodes. */
  function CrawlChunk(c: Capture, chunk: nat, maxNodes: nat): (v: View)
    requires 2 <= maxNodes && c.chunks.Some? && chunk < |c.chunks.value|
    ensures Recovers(v, c.chunks.value[chunk])
  {
    var o := c.chunks.value[chunk];
    ViewRecovers(o);
    var p := Fetch(c, chunk, maxNodes, [], 0, 0, o);
    Finish(c, chunk, maxNodes, p, 0, 0, o)
  }

  /** The bound of two is exact: at any branch with more to show, a page of one node repeats its token. */
  lemma OneNodePageIsStuck(c: Capture, chunk: nat, maxNodes: nat, path: seq<nat>, childOffset: nat, o: SDObject)
    requires 0 < maxNodes && At(c, chunk, path, o) && IsBranch(o) && childOffset < |o.children|
    ensures Fetch(c, chunk, maxNodes, path, childOffset, 0, o).body.next == Some(childOffset)
       <==> maxNodes == 1
  {
    BranchAdvancesIff(o, maxNodes, path, childOffset);
  }
}
