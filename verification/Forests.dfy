/** Ordered trees, and their nodes in recursive preorder. */
module Forests {
  import opened Wrappers

  datatype Tree<T> = Node(data: T, children: seq<Tree<T>>)

  function Preorder<T>(forest: seq<Tree<T>>): seq<Tree<T>> {
    if forest == [] then [] else [forest[0]] + Preorder(forest[0].children) + Preorder(forest[1..])
  }

  lemma {:induction false} PreorderConcat<T>(a: seq<Tree<T>>, b: seq<Tree<T>>)
    ensures Preorder(a + b) == Preorder(a) + Preorder(b)
  {
    if a == [] {
      assert a + b == b;
    } else {
      var (first, below) := (a[0], Preorder(a[0].children));
      PreorderConcat(a[1..], b);
      assert (a + b)[0] == first && (a + b)[1..] == a[1..] + b;
      Associates([first] + below, Preorder(a[1..]), Preorder(b));
    }
  }
}
