/** The part of the DOM the click handlers look at: a finite tree given by
    each node's parent. Nodes are numbered in tree order, so a parent always
    has a smaller number than its children; this keeps every walk towards
    the root finite. */
module Dom {
  import opened Wrappers

  type Node = nat

  datatype Tree = Tree(parent: map<Node, Node>)

  predicate TreeOrdered(t: Tree) {
    forall n :: n in t.parent ==> t.parent[n] < n
  }

  /** A document: a tree whose parent links all point towards the root. */
  type Document = t: Tree | TreeOrdered(t) witness Tree(map[])

  function Parent(d: Document, n: Node): Option<Node> {
    if n in d.parent then Some(d.parent[n]) else None
  }

  /** `a.contains(b)`: whether `b` is `a` itself or one of its descendants,
      found by walking up from `b`. */
  function Contains(d: Document, a: Node, b: Node): (r: bool)
    ensures a == b ==> r
    ensures r ==> a <= b
    decreases b
  {
    a == b || (b in d.parent && Contains(d, a, d.parent[b]))
  }

  /** The node `k` parent links above `n`, if the tree is that deep there. */
  function Up(d: Document, n: Node, k: nat): Option<Node>
    decreases k
  {
    if k == 0 then Some(n)
    else if n in d.parent then Up(d, d.parent[n], k - 1)
    else None
  }

  /** `a` is an inclusive ancestor of `b`: reached from `b` by following
      zero or more parent links. */
  ghost predicate IsInclusiveAncestor(d: Document, a: Node, b: Node) {
    exists k: nat :: Up(d, b, k) == Some(a)
  }

  lemma {:induction false} ContainsIsInclusiveAncestor(d: Document, a: Node, b: Node)
    ensures Contains(d, a, b) <==> IsInclusiveAncestor(d, a, b)
    decreases b
  {
    if a == b {
      assert Up(d, b, 0) == Some(a);
    } else if b in d.parent {
      var p := d.parent[b];
      ContainsIsInclusiveAncestor(d, a, p);
      if Contains(d, a, p) {
        var k: nat :| Up(d, p, k) == Some(a);
        assert Up(d, b, k + 1) == Some(a);
      }
      if IsInclusiveAncestor(d, a, b) {
        var k: nat :| Up(d, b, k) == Some(a);
        assert Up(d, p, k - 1) == Some(a);
      }
    } else {
      forall k: nat ensures Up(d, b, k) != Some(a) {
      }
    }
  }

  /** `event.composedPath()` for a target in the light tree: the target,
      then its ancestors up to the root. */
  function ComposedPath(d: Document, target: Node): (path: seq<Node>)
    ensures |path| >= 1 && path[0] == target
    ensures forall i :: 0 <= i < |path| - 1 ==> Parent(d, path[i]) == Some(path[i + 1])
    ensures Parent(d, path[|path| - 1]) == None
    decreases target
  {
    if target in d.parent then [target] + ComposedPath(d, d.parent[target]) else [target]
  }

  /** A node is on the composed path of a target exactly when it contains
      the target. */
  lemma {:induction false} ComposedPathIsContainers(d: Document, a: Node, target: Node)
    ensures a in ComposedPath(d, target) <==> Contains(d, a, target)
    decreases target
  {
    if target in d.parent {
      ComposedPathIsContainers(d, a, d.parent[target]);
    }
  }

  /** Containment is transitive: a descendant of a descendant is inside. */
  lemma {:induction false} ContainsTransitive(d: Document, a: Node, b: Node, c: Node)
    requires Contains(d, a, b) && Contains(d, b, c)
    ensures Contains(d, a, c)
    decreases c
  {
    if b != c {
      ContainsTransitive(d, a, b, d.parent[c]);
    }
  }
}
