/**
 * The traversals of summarize.js: `preOrderIterator` and `findDescendant`.
 *
 * Once `toTree` has built the tree it is never changed again, so the
 * traversals are modelled over `Tree`, the immutable value a resolved
 * `Node` denotes. The generator becomes the finite sequence it yields.
 */
module Traversal {
  import opened Wrappers
  import opened Sequences
  import opened Trace

  /** The immutable value of a node once its subtree is resolved. */
  datatype Tree = Tree(uid: Id, id: Label, stats: Stats, children: seq<Tree>)

  /** The resolved object `n` and everything below it have the shape and contents of `t`. */
  ghost predicate Denotes(n: Node, t: Tree)
    reads *
    decreases t
  {
    && n.uid == t.uid && n.id == t.id && n.stats == t.stats
    && n.children.Refs?
    && |n.children.nodes| == |t.children|
    && forall i :: 0 <= i < |t.children| ==> Denotes(n.children.nodes[i], t.children[i])
  }

  /** A resolved object denotes at most one tree, so traversing it has one meaning. */
  lemma {:induction false} DenotesUnique(n: Node, t1: Tree, t2: Tree)
    requires Denotes(n, t1) && Denotes(n, t2)
    ensures t1 == t2
    decreases t1
  {
    forall i | 0 <= i < |t1.children|
      ensures t1.children[i] == t2.children[i]
    {
      DenotesUnique(n.children.nodes[i], t1.children[i], t2.children[i]);
    }
  }

  /** Every child id listed by a dictionary entry is itself a key of the dictionary. */
  predicate Closed(entries: seq<Entry>)
  {
    forall k :: k in LastPos(entries) ==>
      forall i :: 0 <= i < |ChildIdsOf(entries, k)| ==> ChildIdsOf(entries, k)[i] in LastPos(entries)
  }

  /**
   * `rank` numbers the dictionary's ids so that every child ranks below its
   * parent: the child links of the trace form no cycle.
   */
  predicate Ranked(entries: seq<Entry>, rank: map<Id, nat>)
  {
    forall k :: k in LastPos(entries) ==> (k in rank &&
      forall i :: 0 <= i < |ChildIdsOf(entries, k)| ==>
        ChildIdsOf(entries, k)[i] in rank && rank[ChildIdsOf(entries, k)[i]] < rank[k])
  }

  /** The tree the entries describe below id `k`: each child id replaced by the tree below it. */
  function TreeOf(entries: seq<Entry>, rank: map<Id, nat>, k: Id): (t: Tree)
    requires Closed(entries) && Ranked(entries, rank) && k in LastPos(entries)
    ensures t.uid == k && |t.children| == |ChildIdsOf(entries, k)|
    decreases rank[k]
  {
    var e := entries[LastPos(entries)[k]];
    var ids := ChildIdsOf(entries, k);
    Tree(k, e.id, e.stats, seq(|ids|, i requires 0 <= i < |ids| => TreeOf(entries, rank, ids[i])))
  }

  /** Every child id resolving, as a successful `toTree` has it, means the dictionary is closed. */
  lemma ResolvedIsClosed(entries: seq<Entry>, nodes: map<Id, Node>)
    requires nodes.Keys == LastPos(entries).Keys
    requires forall k :: k in nodes ==> Resolve(ChildIdsOf(entries, k), nodes).Ok?
    ensures Closed(entries)
  {
    forall k | k in LastPos(entries)
      ensures forall i :: 0 <= i < |ChildIdsOf(entries, k)| ==> ChildIdsOf(entries, k)[i] in LastPos(entries)
    {
      ResolveMeaning(ChildIdsOf(entries, k), nodes);
    }
  }

  /**
   * After a successful `toTree` over a trace without cycles, every object of
   * the dictionary denotes the tree its entry describes.
   */
  lemma {:induction false} ResolvedDenotes(entries: seq<Entry>, made: seq<Node>, nodes: map<Id, Node>, rank: map<Id, nat>, k: Id)
    requires |made| == |entries|
    requires forall i :: 0 <= i < |made| ==> MadeFrom(made[i], entries[i])
    requires nodes.Keys == LastPos(entries).Keys
    requires forall k :: k in nodes ==> nodes[k] == made[LastPos(entries)[k]]
    requires forall k :: k in nodes ==> Resolve(ChildIdsOf(entries, k), nodes).Ok?
    requires forall k :: k in nodes ==> nodes[k].children == Refs(Resolve(ChildIdsOf(entries, k), nodes).value)
    requires Closed(entries) && Ranked(entries, rank)
    requires k in nodes
    ensures Denotes(nodes[k], TreeOf(entries, rank, k))
    decreases rank[k]
  {
    var ids := ChildIdsOf(entries, k);
    var t := TreeOf(entries, rank, k);
    ResolveMeaning(ids, nodes);
    forall i | 0 <= i < |ids|
      ensures Denotes(nodes[k].children.nodes[i], t.children[i])
    {
      ResolvedDenotes(entries, made, nodes, rank, ids[i]);
    }
  }

  /**
   * The root `toTree` returns denotes the tree of the first entry, unless a
   * later entry with the same id displaced it from the dictionary.
   */
  lemma RootDenotes(entries: seq<Entry>, made: seq<Node>, nodes: map<Id, Node>, rank: map<Id, nat>)
    requires |made| == |entries|
    requires forall i :: 0 <= i < |made| ==> MadeFrom(made[i], entries[i])
    requires nodes.Keys == LastPos(entries).Keys
    requires forall k :: k in nodes ==> nodes[k] == made[LastPos(entries)[k]]
    requires forall k :: k in nodes ==> Resolve(ChildIdsOf(entries, k), nodes).Ok?
    requires forall k :: k in nodes ==> nodes[k].children == Refs(Resolve(ChildIdsOf(entries, k), nodes).value)
    requires Ranked(entries, rank)
    requires entries != [] && Live(entries, 0)
    ensures Closed(entries)
    ensures Denotes(made[0], TreeOf(entries, rank, entries[0].uid))
  {
    ResolvedIsClosed(entries, nodes);
    ResolvedDenotes(entries, made, nodes, rank, entries[0].uid);
  }

  /** `until && until(child)`: the child is skipped, together with its whole subtree. */
  predicate Skips(until: Option<Tree -> bool>, child: Tree)
  {
    until.Some? && until.value(child)
  }

  /**
   * `preOrderIterator(until)`: the node itself, then the full pre-order of
   * every child that `until` does not skip. The recursive call passes no
   * `until`, so only the immediate children are ever tested.
   */
  function PreOrder(t: Tree, until: Option<Tree -> bool>): seq<Tree>
    decreases t, 1
  {
    [t] + Forest(t.children, until)
  }

  /** The loop of `preOrderIterator` over the children `cs`. */
  function Forest(cs: seq<Tree>, until: Option<Tree -> bool>): seq<Tree>
    decreases cs, 0
  {
    if cs == [] then []
    else (if Skips(until, cs[0]) then [] else PreOrder(cs[0], None)) + Forest(cs[1..], until)
  }

  /** The number of nodes in a tree: an independent count. */
  function Size(t: Tree): nat
    decreases t, 1
  {
    1 + ForestSize(t.children)
  }

  function ForestSize(cs: seq<Tree>): nat
    decreases cs, 0
  {
    if cs == [] then 0 else Size(cs[0]) + ForestSize(cs[1..])
  }

  /** The unrestricted traversal visits every node of the subtree exactly once by count. */
  lemma {:induction false} PreOrderLength(t: Tree)
    ensures |PreOrder(t, None)| == Size(t)
    decreases t, 1
  {
    ForestLength(t.children);
  }

  lemma {:induction false} ForestLength(cs: seq<Tree>)
    ensures |Forest(cs, None)| == ForestSize(cs)
    decreases cs, 0
  {
    if cs != [] {
      PreOrderLength(cs[0]);
      ForestLength(cs[1..]);
    }
  }

  /** `until` drops exactly the skipped children: the rest are traversed in full, in order. */
  lemma {:induction false} ForestUntil(cs: seq<Tree>, p: Tree -> bool, kept: Tree -> bool)
    requires forall c :: kept(c) == !p(c)
    ensures Forest(cs, Some(p)) == Forest(Filter(cs, kept), None)
  {
    if cs != [] {
      ForestUntil(cs[1..], p, kept);
      if kept(cs[0]) {
        var f := Filter(cs, kept);
        assert f[0] == cs[0] && f[1..] == Filter(cs[1..], kept);
      } else {
        assert Filter(cs, kept) == Filter(cs[1..], kept);
      }
    }
  }

  /**
   * The restricted traversal starts with the node itself and is a
   * subsequence of the unrestricted one.
   */
  lemma {:induction false} RestrictedIsSubseq(t: Tree, until: Option<Tree -> bool>)
    ensures PreOrder(t, until)[0] == t
    ensures IsSubseq(PreOrder(t, until), PreOrder(t, None))
  {
    ForestSubseq(t.children, until);
    assert IsSubseq([t], [t]) by {
      SubseqEmpty<Tree>([]);
    }
    SubseqConcat([t], [t], Forest(t.children, until), Forest(t.children, None));
  }

  lemma {:induction false} ForestSubseq(cs: seq<Tree>, until: Option<Tree -> bool>)
    ensures IsSubseq(Forest(cs, until), Forest(cs, None))
  {
    if cs == [] {
      SubseqEmpty<Tree>([]);
    } else {
      ForestSubseq(cs[1..], until);
      var full := PreOrder(cs[0], None);
      if Skips(until, cs[0]) {
        SubseqEmpty(full);
        SubseqConcat([], full, Forest(cs[1..], until), Forest(cs[1..], None));
      } else {
        SubseqRefl(full);
        SubseqConcat(full, full, Forest(cs[1..], until), Forest(cs[1..], None));
      }
    }
  }

  /** When `until` holds of no immediate child, it changes nothing. */
  lemma {:induction false} UntilNoneSkipped(t: Tree, p: Tree -> bool)
    requires forall i :: 0 <= i < |t.children| ==> !p(t.children[i])
    ensures PreOrder(t, Some(p)) == PreOrder(t, None)
  {
    ForestNoneSkipped(t.children, p);
  }

  lemma {:induction false} ForestNoneSkipped(cs: seq<Tree>, p: Tree -> bool)
    requires forall i :: 0 <= i < |cs| ==> !p(cs[i])
    ensures Forest(cs, Some(p)) == Forest(cs, None)
  {
    if cs != [] {
      ForestNoneSkipped(cs[1..], p);
    }
  }

  /** A child that is not skipped is traversed in full, whatever `until` says of its descendants. */
  lemma {:induction false} ForestKeeps(cs: seq<Tree>, until: Option<Tree -> bool>, i: nat, x: Tree)
    requires i < |cs| && !Skips(until, cs[i])
    requires x in PreOrder(cs[i], None)
    ensures x in Forest(cs, until)
  {
    if i == 0 {
      assert Forest(cs, until) == PreOrder(cs[0], None) + Forest(cs[1..], until);
    } else {
      ForestKeeps(cs[1..], until, i - 1, x);
    }
  }

  /**
   * `until` is applied to the immediate children only: a grandchild below a
   * kept child is visited even when `until` holds of it.
   */
  lemma {:induction false} UntilOnlyImmediate(t: Tree, p: Tree -> bool, i: nat, j: nat)
    requires i < |t.children| && !p(t.children[i])
    requires j < |t.children[i].children|
    ensures t.children[i].children[j] in PreOrder(t, Some(p))
  {
    var c := t.children[i];
    var g := c.children[j];
    ForestKeeps(c.children, None, j, g);
    ForestKeeps(t.children, Some(p), i, g);
  }

  /**
   * `findDescendant`: the first node of the pre-order traversal whose label
   * the matcher accepts, possibly the start node itself; none if no node matches.
   */
  method FindDescendant(t: Tree, matcher: Label -> bool) returns (found: Option<Tree>)
    ensures found.None? <==> forall x :: x in PreOrder(t, None) ==> !matcher(x.id)
    ensures found.Some? ==> exists i :: (0 <= i < |PreOrder(t, None)|
      && PreOrder(t, None)[i] == found.value && matcher(found.value.id)
      && forall j :: 0 <= j < i ==> !matcher(PreOrder(t, None)[j].id))
    ensures matcher(t.id) ==> found == Some(t)
  {
    var order := PreOrder(t, None);
    assert order[0] == t;
    for i := 0 to |order|
      invariant forall j :: 0 <= j < i ==> !matcher(order[j].id)
    {
      if matcher(order[i].id) {
        return Some(order[i]);
      }
    }
    return None;
  }
}
