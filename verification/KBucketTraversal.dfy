/** The two traversals of a k-bucket routing table: the recursive one and the guarded one that
    replaces it and survives shared, cyclic and missing buckets. */
module KBucketTraversal {
  import opened Sequences

  type Peer = string

  class Bucket {
    const isLeaf: bool
    const peers: seq<Peer>
    var left: Bucket?
    var right: Bucket?

    constructor (isLeaf: bool, peers: seq<Peer>, left: Bucket?, right: Bucket?)
      ensures this.isLeaf == isLeaf && this.peers == peers && this.left == left && this.right == right
    {
      this.isLeaf, this.peers, this.left, this.right := isLeaf, peers, left, right;
    }
  }

  /** Following a child never leaves the heap. */
  ghost predicate Closed(heap: set<Bucket>)
    reads heap
  {
    forall bucket :: bucket in heap ==>
      && (bucket.left != null ==> bucket.left in heap)
      && (bucket.right != null ==> bucket.right in heap)
  }

  ghost predicate InHeap(heap: set<Bucket>, pending: seq<Bucket?>) {
    forall i :: 0 <= i < |pending| && pending[i] != null ==> pending[i] in heap
  }

  function PeersOf(leaves: seq<Bucket>): seq<Peer> {
    if leaves == [] then [] else leaves[0].peers + PeersOf(leaves[1..])
  }

  lemma {:induction false} PeersAppend(a: seq<Bucket>, b: seq<Bucket>)
    ensures PeersOf(a + b) == PeersOf(a) + PeersOf(b)
  {
    if a == [] {
      assert a + b == b;
    } else {
      assert (a + b)[1..] == a[1..] + b;
      PeersAppend(a[1..], b);
    }
  }

  // ---- The guarded traversal ----

  /** The leaves the guarded loop reaches from a stack, in the order it yields them. */
  ghost function Guarded(heap: set<Bucket>, pending: seq<Bucket?>, visited: set<Bucket>): seq<Bucket>
    requires Closed(heap) && InHeap(heap, pending)
    reads heap
    decreases heap - visited, |pending|
  {
    if pending == [] then [] else
      var rest, bucket := pending[..|pending| - 1], pending[|pending| - 1];
      if bucket == null || bucket in visited then Guarded(heap, rest, visited)
      else if bucket.isLeaf then [bucket] + Guarded(heap, rest, visited + {bucket})
      else Guarded(heap, rest + [bucket.right, bucket.left], visited + {bucket})
  }

  /** What was yielded and what the stack still leads to make up the whole traversal. */
  ghost predicate OnCourse(yielded: seq<Peer>, heap: set<Bucket>, pending: seq<Bucket?>, visited: set<Bucket>,
                           whole: seq<Peer>)
    requires Closed(heap) && InHeap(heap, pending)
    reads heap
  {
    yielded + PeersOf(Guarded(heap, pending, visited)) == whole
  }

  lemma LeafOnCourse(yielded: seq<Peer>, heap: set<Bucket>, rest: seq<Bucket?>, bucket: Bucket, visited: set<Bucket>,
                     whole: seq<Peer>)
    requires Closed(heap) && InHeap(heap, rest) && bucket in heap && bucket !in visited && bucket.isLeaf
    requires OnCourse(yielded, heap, rest + [bucket], visited, whole)
    ensures OnCourse(yielded + bucket.peers, heap, rest, visited + {bucket}, whole)
  {
    var later := Guarded(heap, rest, visited + {bucket});
    assert (rest + [bucket])[..|rest|] == rest;
    assert ([bucket] + later)[1..] == later;
    assert yielded + (bucket.peers + PeersOf(later)) == yielded + bucket.peers + PeersOf(later);
  }

  lemma SkipOnCourse(yielded: seq<Peer>, heap: set<Bucket>, rest: seq<Bucket?>, bucket: Bucket?, visited: set<Bucket>,
                     whole: seq<Peer>)
    requires Closed(heap) && InHeap(heap, rest) && (bucket == null || (bucket in heap && bucket in visited))
    requires OnCourse(yielded, heap, rest + [bucket], visited, whole)
    ensures OnCourse(yielded, heap, rest, visited, whole)
  {
    assert (rest + [bucket])[..|rest|] == rest;
  }

  lemma InnerOnCourse(yielded: seq<Peer>, heap: set<Bucket>, rest: seq<Bucket?>, bucket: Bucket, visited: set<Bucket>,
                      whole: seq<Peer>)
    requires Closed(heap) && InHeap(heap, rest) && bucket in heap && bucket !in visited && !bucket.isLeaf
    requires OnCourse(yielded, heap, rest + [bucket], visited, whole)
    ensures OnCourse(yielded, heap, rest + [bucket.right, bucket.left], visited + {bucket}, whole)
  {
    assert (rest + [bucket])[..|rest|] == rest;
  }

  /** The guarded `toIterable`. It terminates on every finite bucket graph. */
  method GuardedTraversal(root: Bucket?, ghost heap: set<Bucket>) returns (yielded: seq<Peer>)
    requires Closed(heap) && (root != null ==> root in heap)
    ensures yielded == PeersOf(Guarded(heap, [root], {}))
  {
    yielded := [];
    var pending: seq<Bucket?> := [root];
    var visited: set<Bucket> := {};
    ghost var whole := PeersOf(Guarded(heap, [root], {}));
    while |pending| > 0
      invariant InHeap(heap, pending)
      invariant OnCourse(yielded, heap, pending, visited, whole)
      decreases heap - visited, |pending|
    {
      var bucket := pending[|pending| - 1];
      ghost var popped := pending;
      pending := pending[..|pending| - 1];
      assert popped == pending + [bucket];
      if bucket == null || bucket in visited {
        SkipOnCourse(yielded, heap, pending, bucket, visited, whole);
        continue;
      }
      assert bucket in heap - visited;
      if bucket.isLeaf {
        LeafOnCourse(yielded, heap, pending, bucket, visited, whole);
        visited := visited + {bucket};
        yielded := yielded + bucket.peers;
        continue;
      }
      InnerOnCourse(yielded, heap, pending, bucket, visited, whole);
      visited := visited + {bucket};
      assert pending + [bucket.right, bucket.left] == (pending + [bucket.right]) + [bucket.left];
      pending := pending + [bucket.right];
      pending := pending + [bucket.left];
    }
  }

  // ---- Trees: both traversals agree ----

  /** A bucket tree, bucket by bucket. */
  datatype Tree = Leaf(bucket: Bucket) | Inner(bucket: Bucket, left: Tree, right: Tree)

  ghost function Nodes(tree: Tree): set<Bucket> {
    match tree
    case Leaf(bucket) => {bucket}
    case Inner(bucket, left, right) => {bucket} + Nodes(left) + Nodes(right)
  }

  ghost function Leaves(tree: Tree): seq<Bucket> {
    match tree
    case Leaf(bucket) => [bucket]
    case Inner(_, left, right) => Leaves(left) + Leaves(right)
  }

  /** The buckets below `tree.bucket` form this tree, no bucket occurring twice. */
  ghost predicate Shapes(tree: Tree)
    reads Nodes(tree)
  {
    match tree
    case Leaf(bucket) => bucket.isLeaf
    case Inner(bucket, left, right) =>
      && !bucket.isLeaf
      && bucket.left == left.bucket && bucket.right == right.bucket
      && bucket !in Nodes(left) && bucket !in Nodes(right) && Nodes(left) !! Nodes(right)
      && Shapes(left) && Shapes(right)
  }

  /** The recursive `toIterable` this replaces. On a tree it yields the leaves left to right. */
  function Recursive(bucket: Bucket, ghost tree: Tree): (yielded: seq<Peer>)
    requires Shapes(tree) && bucket == tree.bucket
    reads Nodes(tree)
    ensures yielded == PeersOf(Leaves(tree))
    decreases tree
  {
    if bucket.isLeaf then
      assert PeersOf([bucket]) == bucket.peers + [];
      bucket.peers
    else
      PeersAppend(Leaves(tree.left), Leaves(tree.right));
      Recursive(bucket.left, tree.left) + Recursive(bucket.right, tree.right)
  }

  /** With a fresh tree on top of the stack, the guarded loop yields its leaves left to right and
      then goes on with the rest of the stack. */
  lemma {:induction false} GuardedWalksTree(heap: set<Bucket>, tree: Tree, rest: seq<Bucket?>, visited: set<Bucket>)
    requires Closed(heap) && InHeap(heap, rest) && Shapes(tree)
    requires Nodes(tree) <= heap && Nodes(tree) !! visited
    ensures Guarded(heap, rest + [tree.bucket], visited)
         == Leaves(tree) + Guarded(heap, rest, visited + Nodes(tree))
    decreases tree
  {
    var pending: seq<Bucket?> := rest + [tree.bucket];
    assert pending[..|pending| - 1] == rest;
    match tree
    case Leaf(bucket) =>
    case Inner(bucket, left, right) =>
      var seen := visited + {bucket};
      GuardedWalksTree(heap, left, rest + [right.bucket], seen);
      GuardedWalksTree(heap, right, rest, seen + Nodes(left));
      assert rest + [bucket.right, bucket.left] == (rest + [right.bucket]) + [left.bucket];
      assert seen + Nodes(left) + Nodes(right) == visited + Nodes(tree);
  }

  /** On every bucket tree the guarded traversal yields what the recursive one yields. */
  lemma SameOnTrees(heap: set<Bucket>, tree: Tree)
    requires Closed(heap) && Shapes(tree) && Nodes(tree) <= heap
    ensures Guarded(heap, [tree.bucket], {}) == Leaves(tree)
  {
    GuardedWalksTree(heap, tree, [], {});
    assert [] + [tree.bucket] == [tree.bucket];
    assert Guarded(heap, [], {} + Nodes(tree)) == [];
  }

  // ---- Graphs: every reachable leaf exactly once ----

  ghost predicate IsChild(parent: Bucket, child: Bucket)
    reads parent
  {
    !parent.isLeaf && (parent.left == child || parent.right == child)
  }

  /** `bucket` lies `steps` children below `from`. */
  ghost predicate Below(heap: set<Bucket>, from: Bucket?, bucket: Bucket, steps: nat)
    requires Closed(heap)
    reads heap
    decreases steps
  {
    && from != null && from in heap
    && if steps == 0 then from == bucket
       else !from.isLeaf && (Below(heap, from.left, bucket, steps - 1) || Below(heap, from.right, bucket, steps - 1))
  }

  ghost predicate Reachable(heap: set<Bucket>, from: Bucket?, bucket: Bucket)
    requires Closed(heap)
    reads heap
  {
    exists steps: nat :: Below(heap, from, bucket, steps)
  }

  lemma ReachableThroughChild(heap: set<Bucket>, parent: Bucket, child: Bucket?, bucket: Bucket)
    requires Closed(heap) && parent in heap && !parent.isLeaf
    requires (child == parent.left || child == parent.right) && Reachable(heap, child, bucket)
    ensures Reachable(heap, parent, bucket)
  {
    var steps: nat :| Below(heap, child, bucket, steps);
    assert Below(heap, parent, bucket, steps + 1);
  }

  lemma ReachableIsInHeap(heap: set<Bucket>, from: Bucket?, bucket: Bucket, steps: nat)
    requires Closed(heap) && Below(heap, from, bucket, steps)
    ensures bucket in heap
    decreases steps
  {
    if steps > 0 {
      var side := if Below(heap, from.left, bucket, steps - 1) then from.left else from.right;
      ReachableIsInHeap(heap, side, bucket, steps - 1);
    }
  }

  /** A way down from `path[0]` to the last bucket of `path`, through children of inner buckets. */
  ghost predicate Path(heap: set<Bucket>, path: seq<Bucket>)
    reads heap
  {
    && path != []
    && (forall bucket :: bucket in path ==> bucket in heap)
    && forall i :: 0 <= i < |path| - 1 ==> path[i] in heap && IsChild(path[i], path[i + 1])
  }

  lemma {:induction false} PathTo(heap: set<Bucket>, from: Bucket?, bucket: Bucket, steps: nat)
    returns (path: seq<Bucket>)
    requires Closed(heap) && Below(heap, from, bucket, steps)
    ensures Path(heap, path) && path[0] == from && path[|path| - 1] == bucket
    decreases steps
  {
    path := [from];
    if steps > 0 {
      var child := if Below(heap, from.left, bucket, steps - 1) then from.left else from.right;
      var rest := PathTo(heap, child, bucket, steps - 1);
      path := path + rest;
      forall i | 0 <= i < |path| - 1 ensures path[i] in heap && IsChild(path[i], path[i + 1]) {
        assert i > 0 ==> path[i] == rest[i - 1] && path[i + 1] == rest[i];
      }
    }
  }

  /** Only leaves reachable from the stack are yielded, each once, and none that was visited. */
  lemma {:induction false} GuardedIsSound(heap: set<Bucket>, pending: seq<Bucket?>, visited: set<Bucket>)
    requires Closed(heap) && InHeap(heap, pending)
    ensures var leaves := Guarded(heap, pending, visited);
            && Distinct(leaves)
            && forall leaf :: leaf in leaves ==>
                 && leaf.isLeaf && leaf !in visited
                 && exists from :: from in pending && Reachable(heap, from, leaf)
    decreases heap - visited, |pending|
  {
    if pending != [] {
      var rest, bucket := pending[..|pending| - 1], pending[|pending| - 1];
      assert pending == rest + [bucket];
      if bucket == null || bucket in visited {
        GuardedIsSound(heap, rest, visited);
      } else if bucket.isLeaf {
        GuardedIsSound(heap, rest, visited + {bucket});
        assert Below(heap, bucket, bucket, 0);
        forall leaf | leaf in Guarded(heap, pending, visited)
          ensures exists from :: from in pending && Reachable(heap, from, leaf)
        {
          if leaf == bucket {
            assert bucket in pending && Reachable(heap, bucket, bucket);
          } else {
            var from :| from in rest && Reachable(heap, from, leaf);
            assert from in pending;
          }
        }
      } else {
        var next := rest + [bucket.right, bucket.left];
        GuardedIsSound(heap, next, visited + {bucket});
        forall leaf | leaf in Guarded(heap, pending, visited)
          ensures exists from :: from in pending && Reachable(heap, from, leaf)
        {
          var from :| from in next && Reachable(heap, from, leaf);
          if from !in rest {
            ReachableThroughChild(heap, bucket, from, leaf);
          }
        }
      }
    }
  }

  /** A leaf with a way down from the stack that avoids the visited buckets is yielded. */
  lemma {:induction false} GuardedIsComplete(heap: set<Bucket>, pending: seq<Bucket?>, visited: set<Bucket>,
                                             path: seq<Bucket>)
    requires Closed(heap) && InHeap(heap, pending)
    requires Path(heap, path) && path[0] in pending && path[|path| - 1].isLeaf
    requires forall bucket :: bucket in path ==> bucket !in visited
    ensures path[|path| - 1] in Guarded(heap, pending, visited)
    decreases heap - visited, |pending|
  {
    var rest, bucket := pending[..|pending| - 1], pending[|pending| - 1];
    assert pending == rest + [bucket];
    if bucket == null || bucket in visited {
      GuardedIsComplete(heap, rest, visited, path);
    } else if bucket !in path {
      if bucket.isLeaf {
        GuardedIsComplete(heap, rest, visited + {bucket}, path);
      } else {
        GuardedIsComplete(heap, rest + [bucket.right, bucket.left], visited + {bucket}, path);
      }
    } else {
      var i := LastIndex(path, bucket);
      if i < |path| - 1 {
        assert IsChild(path[i], path[i + 1]);
        var below := path[i + 1..];
        forall k | 0 <= k < |below| - 1 ensures below[k] in heap && IsChild(below[k], below[k + 1]) {
          assert IsChild(path[i + 1 + k], path[i + 2 + k]);
        }
        var next := rest + [bucket.right, bucket.left];
        assert next[|rest|] == bucket.right && next[|rest| + 1] == bucket.left;
        GuardedIsComplete(heap, next, visited + {bucket}, below);
      }
    }
  }

  lemma {:induction false} LastIndex(path: seq<Bucket>, bucket: Bucket) returns (i: nat)
    requires bucket in path
    ensures i < |path| && path[i] == bucket && bucket !in path[i + 1..]
  {
    if path[|path| - 1] == bucket {
      i := |path| - 1;
    } else {
      var front := path[..|path| - 1];
      assert path == front + [path[|path| - 1]];
      i := LastIndex(front, bucket);
      assert path[i + 1..] == front[i + 1..] + [path[|path| - 1]];
    }
  }

  /** On any finite bucket graph the guarded traversal yields exactly the leaves reachable from the
      root, each once. */
  lemma EachReachableLeafOnce(heap: set<Bucket>, root: Bucket?)
    requires Closed(heap) && (root != null ==> root in heap)
    ensures var leaves := Guarded(heap, [root], {});
            && Distinct(leaves)
            && forall bucket :: bucket in leaves <==> bucket in heap && bucket.isLeaf && Reachable(heap, root, bucket)
  {
    var leaves := Guarded(heap, [root], {});
    GuardedIsSound(heap, [root], {});
    forall bucket | bucket in heap && bucket.isLeaf && Reachable(heap, root, bucket)
      ensures bucket in leaves
    {
      var steps: nat :| Below(heap, root, bucket, steps);
      var path := PathTo(heap, root, bucket, steps);
      GuardedIsComplete(heap, [root], {}, path);
    }
    forall bucket | bucket in leaves ensures bucket in heap && Reachable(heap, root, bucket) {
      var from :| from in [root] && Reachable(heap, from, bucket);
      var steps: nat :| Below(heap, from, bucket, steps);
      ReachableIsInHeap(heap, from, bucket, steps);
    }
  }
}
