/**
 * The trace tree of summarize.js: `Node` and `toTree`.
 *
 * A raw trace is the list `data.nodes`; each entry carries its id
 * (`_id`, here `uid`), its label (`id`: a name and the `broccoliNode`
 * flag), its statistics and the ids of its children. A later entry with
 * the same id overwrites an earlier one in the dictionary.
 * `toTree` turns the entries into `Node` objects in two passes and
 * overwrites each object's child-id list with references to objects.
 */
module Trace {
  import opened Wrappers

  /** A node's `_id`, taken to be a natural number. */
  type Id = nat

  /** A node's statistics, keyed by dotted path (`time.self`), in nanoseconds. */
  type Stats = map<string, int>

  /** A node's `id` object: its name and whether it marks a plugin. */
  datatype Label = Label(name: string, broccoliNode: bool)

  /** One element of `data.nodes`. */
  datatype Entry = Entry(uid: Id, id: Label, stats: Stats, childIds: seq<Id>)

  /**
   * The `children` field of a `Node`: the child ids it is constructed with,
   * then the child objects once `toTree` has resolved them.
   */
  datatype ChildList = Ids(ids: seq<Id>) | Refs(nodes: seq<Node>)

  class Node {
    const uid: Id
    const id: Label
    const stats: Stats
    var children: ChildList

    constructor (uid: Id, id: Label, stats: Stats, childIds: seq<Id>)
      ensures this.uid == uid && this.id == id && this.stats == stats
      ensures children == Ids(childIds)
    {
      this.uid := uid;
      this.id := id;
      this.stats := stats;
      children := Ids(childIds);
    }
  }

  /** `n` is the object `new Node(...)` built from entry `e`. */
  predicate MadeFrom(n: Node, e: Entry)
  {
    n.uid == e.uid && n.id == e.id && n.stats == e.stats
  }

  /**
   * For every id, the position of the entry the dictionary of `toTree` holds
   * under it: a later entry with the same id overwrites an earlier one.
   */
  function LastPos(entries: seq<Entry>): (pos: map<Id, nat>)
    ensures forall j :: 0 <= j < |entries| ==> entries[j].uid in pos
    ensures forall k :: k in pos ==> pos[k] < |entries| && entries[pos[k]].uid == k
    decreases |entries|
  {
    if entries == [] then map[]
    else
      var init := entries[..|entries| - 1];
      assert forall j :: 0 <= j < |init| ==> init[j] == entries[j];
      LastPos(init)[entries[|entries| - 1].uid := |init|]
  }

  /** The entry the dictionary holds under an id is the last entry carrying that id. */
  lemma {:induction false} LastPosIsLast(entries: seq<Entry>, k: Id, j: nat)
    requires k in LastPos(entries) && LastPos(entries)[k] < j < |entries|
    ensures entries[j].uid != k
    decreases |entries|
  {
    var n := |entries| - 1;
    var init := entries[..n];
    if j < n {
      assert entries[n].uid != k;
      assert init[j] == entries[j];
      LastPosIsLast(init, k, j);
    }
  }

  /** The dictionary after the first pass has stored `made[j]` under the id of `entries[j]`, for each `j` in turn. */
  function Stored(entries: seq<Entry>, made: seq<Node>): map<Id, Node>
    requires |made| == |entries|
  {
    if entries == [] then map[]
    else Stored(entries[..|entries| - 1], made[..|made| - 1])[entries[|entries| - 1].uid := made[|made| - 1]]
  }

  lemma StoredStep(entries: seq<Entry>, made: seq<Node>, i: nat, node: Node)
    requires i < |entries| && |made| == i
    ensures Stored(entries[..i + 1], made + [node]) == Stored(entries[..i], made)[entries[i].uid := node]
  {
    assert entries[..i + 1][..i] == entries[..i];
    assert (made + [node])[..i] == made;
  }

  /** Under each id the dictionary holds the node of the last entry carrying that id. */
  lemma {:induction false} StoredIsLast(entries: seq<Entry>, made: seq<Node>)
    requires |made| == |entries|
    ensures Stored(entries, made).Keys == LastPos(entries).Keys
    ensures forall k :: k in Stored(entries, made) ==> Stored(entries, made)[k] == made[LastPos(entries)[k]]
  {
    if entries != [] {
      var n := |entries| - 1;
      StoredIsLast(entries[..n], made[..n]);
    }
  }

  /** Entry `i` is the one the dictionary holds under its id. */
  predicate Live(entries: seq<Entry>, i: nat)
    requires i < |entries|
  {
    LastPos(entries)[entries[i].uid] == i
  }

  /** The child ids listed by the entry the dictionary holds under `k`. */
  function ChildIdsOf(entries: seq<Entry>, k: Id): seq<Id>
    requires k in LastPos(entries)
  {
    entries[LastPos(entries)[k]].childIds
  }

  /**
   * `node.children.map(...)` in the second pass of `toTree`: every id looked
   * up in the dictionary; the first id that is missing is thrown.
   */
  function Resolve(ids: seq<Id>, nodes: map<Id, Node>): Result<seq<Node>, Id>
  {
    if ids == [] then Ok([])
    else if ids[0] !in nodes then Err(ids[0])
    else match Resolve(ids[1..], nodes)
      case Ok(rest) => Ok([nodes[ids[0]]] + rest)
      case Err(missing) => Err(missing)
  }

  /**
   * Resolving succeeds exactly when every id is in the dictionary, and then
   * yields the dictionary's nodes in child-id order; otherwise it fails with
   * the first id that is not.
   */
  lemma {:induction false} ResolveMeaning(ids: seq<Id>, nodes: map<Id, Node>)
    ensures Resolve(ids, nodes).Ok? <==> forall i :: 0 <= i < |ids| ==> ids[i] in nodes
    ensures Resolve(ids, nodes).Ok? ==> (|Resolve(ids, nodes).value| == |ids|
      && forall i :: 0 <= i < |ids| ==> Resolve(ids, nodes).value[i] == nodes[ids[i]])
    ensures Resolve(ids, nodes).Err? ==> exists i :: (0 <= i < |ids| && ids[i] == Resolve(ids, nodes).error
      && ids[i] !in nodes && forall j :: 0 <= j < i ==> ids[j] in nodes)
  {
    if ids != [] && ids[0] in nodes {
      ResolveMeaning(ids[1..], nodes);
      var r := Resolve(ids[1..], nodes);
      if r.Ok? {
        assert Resolve(ids, nodes).value == [nodes[ids[0]]] + r.value;
      } else {
        var i :| 0 <= i < |ids| - 1 && ids[1..][i] == r.error && ids[1..][i] !in nodes
          && forall j :: 0 <= j < i ==> ids[1..][j] in nodes;
        assert ids[i + 1] == r.error;
        assert forall j :: 1 <= j < i + 1 ==> ids[j] == ids[1..][j - 1];
      }
    }
  }

  /** The least key of a non-empty set of ids. */
  ghost function Least(s: set<Id>): (m: Id)
    requires s != {}
    ensures m in s && forall k :: k in s ==> m <= k
    decreases |s|
  {
    var x :| x in s;
    if s == {x} then x
    else
      var rest := s - {x};
      assert |rest| < |s|;
      var m := Least(rest);
      assert forall k :: k in s ==> k == x || k in rest;
      if x < m then x else m
  }

  /**
   * The first pass of `toTree`: one `Node` per entry, created in input
   * order and stored in the dictionary under its id; the first one created
   * is the root. `made` are the objects created, one per entry.
   */
  method IndexNodes(entries: seq<Entry>) returns (root: Node?, dict: map<Id, Node>, ghost made: seq<Node>)
    ensures |made| == |entries|
    ensures forall i :: 0 <= i < |made| ==>
      fresh(made[i]) && MadeFrom(made[i], entries[i]) && made[i].children == Ids(entries[i].childIds)
    ensures forall i, j :: 0 <= i < j < |made| ==> made[i] != made[j]
    ensures dict.Keys == LastPos(entries).Keys
    ensures forall k :: k in dict ==> dict[k] == made[LastPos(entries)[k]]
    ensures root == if entries == [] then null else made[0]
  {
    root := null;
    dict := map[];
    made := [];
    for i := 0 to |entries|
      invariant |made| == i
      invariant forall j :: 0 <= j < i ==> fresh(made[j])
      invariant forall j :: 0 <= j < i ==> MadeFrom(made[j], entries[j])
      invariant forall j :: 0 <= j < i ==> made[j].children == Ids(entries[j].childIds)
      invariant forall j, j' :: 0 <= j < j' < i ==> made[j] != made[j']
      invariant dict == Stored(entries[..i], made)
      invariant i == 0 ==> root == null
      invariant i > 0 ==> root == made[0]
    {
      var e := entries[i];
      var node := new Node(e.uid, e.id, e.stats, e.childIds);
      StoredStep(entries, made, i, node);
      dict := dict[e.uid := node];
      if root == null {
        root := node;
      }
      made := made + [node];
    }
    assert entries[..|entries|] == entries;
    StoredIsLast(entries, made);
  }

  /** `Object.keys` of the dictionary: integer keys come in ascending order. */
  predicate Ascending(order: seq<Id>)
  {
    forall i, j :: 0 <= i < j < |order| ==> order[i] < order[j]
  }

  /**
   * `Object.keys(nodes)`: every key exactly once, in ascending order;
   * `index` gives each key's position.
   */
  method AscendingKeys(keys: set<Id>) returns (order: seq<Id>, ghost index: map<Id, nat>)
    ensures Ascending(order)
    ensures index.Keys == keys
    ensures forall k :: k in keys ==> index[k] < |order| && order[index[k]] == k
    ensures forall i :: 0 <= i < |order| ==> order[i] in keys
  {
    var rest := keys;
    order := [];
    index := map[];
    while rest != {}
      invariant rest <= keys
      invariant Ascending(order)
      invariant forall i :: 0 <= i < |order| ==> order[i] in keys && order[i] !in rest
      invariant forall i, k :: 0 <= i < |order| && k in rest ==> order[i] < k
      invariant index.Keys == keys - rest
      invariant forall k :: k in index ==> index[k] < |order| && order[index[k]] == k
      decreases rest
    {
      ghost var m := Least(rest);
      var least :| least in rest && forall k :: k in rest ==> least <= k;
      index := index[least := |order|];
      order := order + [least];
      rest := rest - {least};
    }
  }

  /** A key below the `i`-th in ascending order comes before it. */
  lemma BelowIsBefore(order: seq<Id>, index: map<Id, nat>, i: nat)
    requires Ascending(order) && i < |order|
    requires forall k :: k in index ==> index[k] < |order| && order[index[k]] == k
    ensures forall k :: k in index && k < order[i] ==> index[k] < i
  {
  }

  /**
   * `node.children = node.children.map(...)`: when an id is missing the
   * throw leaves the ids in place; otherwise they become the nodes.
   */
  method LinkNode(node: Node, dict: map<Id, Node>) returns (resolved: Result<seq<Node>, Id>)
    requires node.children.Ids?
    modifies node
    ensures resolved == Resolve(old(node.children.ids), dict)
    ensures node.children == if resolved.Ok? then Refs(resolved.value) else old(node.children)
  {
    resolved := Resolve(node.children.ids, dict);
    if resolved.Ok? {
      node.children := Refs(resolved.value);
    }
  }

  /**
   * The loop of the second pass over the keys in `order`: it stops at the
   * first node that lists an unknown id (at position `at`) and throws that id.
   */
  method LinkInOrder(order: seq<Id>, dict: map<Id, Node>, ghost entries: seq<Entry>, ghost owner: map<Node, Id>)
    returns (thrown: Option<Id>, ghost at: nat)
    requires forall j :: 0 <= j < |order| ==> order[j] in dict && order[j] in LastPos(entries)
    requires forall i, j :: 0 <= i < j < |order| ==> order[i] != order[j]
    requires forall j :: 0 <= j < |order| ==> dict[order[j]].children == Ids(ChildIdsOf(entries, order[j]))
    requires forall k :: k in dict ==> dict[k] in owner && owner[dict[k]] == k
    modifies owner.Keys
    ensures thrown.Some? ==> (at < |order| && Resolve(ChildIdsOf(entries, order[at]), dict) == Err(thrown.value)
      && forall j :: 0 <= j < at ==> Resolve(ChildIdsOf(entries, order[j]), dict).Ok?)
    ensures thrown.None? ==> forall j :: 0 <= j < |order| ==>
      Resolve(ChildIdsOf(entries, order[j]), dict).Ok? && dict[order[j]].children == Refs(Resolve(ChildIdsOf(entries, order[j]), dict).value)
  {
    for i := 0 to |order|
      invariant forall j :: 0 <= j < i ==> Resolve(ChildIdsOf(entries, order[j]), dict).Ok?
      invariant forall j :: 0 <= j < i ==> dict[order[j]].children == Refs(Resolve(ChildIdsOf(entries, order[j]), dict).value)
      invariant forall j :: i <= j < |order| ==> dict[order[j]].children == Ids(ChildIdsOf(entries, order[j]))
    {
      var resolved := LinkNode(dict[order[i]], dict);
      if resolved.Err? {
        return Some(resolved.error), i;
      }
    }
    return None, 0;
  }

  /**
   * The second pass of `toTree`: over the dictionary's keys in ascending
   * order, each node's child ids are replaced by the nodes they name. The
   * first id not in the dictionary is thrown, here returned as `Some(id)`.
   * `owner` maps each node back to its key; its keys are the objects the
   * pass may change.
   */
  method LinkChildren(dict: map<Id, Node>, ghost entries: seq<Entry>, ghost owner: map<Node, Id>)
    returns (thrown: Option<Id>, ghost culprit: Id)
    requires dict.Keys == LastPos(entries).Keys
    requires forall k :: k in dict ==> dict[k].children == Ids(ChildIdsOf(entries, k))
    requires forall k :: k in dict ==> dict[k] in owner && owner[dict[k]] == k
    modifies owner.Keys
    // it throws exactly when some node lists an unknown child id ...
    ensures thrown.None? <==> forall k :: k in dict ==> Resolve(ChildIdsOf(entries, k), dict).Ok?
    // ... and then the first such id of the node with the least key, `culprit`
    ensures thrown.Some? ==> (culprit in dict
      && Resolve(ChildIdsOf(entries, culprit), dict) == Err(thrown.value)
      && forall k' :: k' in dict && k' < culprit ==> Resolve(ChildIdsOf(entries, k'), dict).Ok?)
    // otherwise every node has its children as nodes, in child-id order
    ensures thrown.None? ==> forall k :: k in dict ==> dict[k].children == Refs(Resolve(ChildIdsOf(entries, k), dict).value)
  {
    var order, index := AscendingKeys(dict.Keys);
    ghost var at;
    thrown, at := LinkInOrder(order, dict, entries, owner);
    if thrown.Some? {
      BelowIsBefore(order, index, at);
      culprit := order[at];
    } else {
      culprit := 0;
      forall k | k in dict
        ensures Resolve(ChildIdsOf(entries, k), dict).Ok? && dict[k].children == Refs(Resolve(ChildIdsOf(entries, k), dict).value)
      {
        assert order[index[k]] == k;
      }
    }
  }

  /**
   * `toTree`: both passes. It returns the root (null for an empty list) or
   * the child id it throws on. `made` are the objects created, one per
   * entry; `nodes` is the dictionary.
   */
  method ToTree(entries: seq<Entry>) returns (result: Result<Node?, Id>, ghost made: seq<Node>, ghost nodes: map<Id, Node>)
    ensures |made| == |entries|
    ensures forall i :: 0 <= i < |made| ==>
      fresh(made[i]) && MadeFrom(made[i], entries[i])
    ensures forall i, j :: 0 <= i < j < |made| ==> made[i] != made[j]
    ensures nodes.Keys == LastPos(entries).Keys
    ensures forall k :: k in nodes ==> nodes[k] == made[LastPos(entries)[k]]
    // the root is the node of the first entry, whatever comes later
    ensures result.Ok? ==> result.value == if entries == [] then null else made[0]
    ensures result.Ok? <==> forall k :: k in nodes ==> Resolve(ChildIdsOf(entries, k), nodes).Ok?
    ensures result.Err? ==> exists k :: (k in nodes
      && Resolve(ChildIdsOf(entries, k), nodes) == Err(result.error)
      && forall k' :: k' in nodes && k' < k ==> Resolve(ChildIdsOf(entries, k'), nodes).Ok?)
    // then every node in the dictionary has its children as nodes, in child-id order ...
    ensures result.Ok? ==> forall k :: k in nodes ==>
      nodes[k].children == Refs(Resolve(ChildIdsOf(entries, k), nodes).value)
    // ... and a node displaced from the dictionary by a later duplicate keeps its ids
    ensures forall i :: 0 <= i < |made| && !Live(entries, i) ==> made[i].children == Ids(entries[i].childIds)
  {
    var root, dict;
    root, dict, made := IndexNodes(entries);
    nodes := dict;
    DictChildren(entries, made, dict);
    DictInjective(entries, made, dict);
    DisplacedNotOwned(entries, made, dict);
    var thrown;
    ghost var culprit;
    thrown, culprit := SecondPass(entries, dict, made);
    result := if thrown.Some? then Err(thrown.value) else Ok(root);
    if thrown.Some? {
      assert culprit in nodes && Resolve(ChildIdsOf(entries, culprit), nodes) == Err(result.error);
    }
  }

  /**
   * The second pass as `toTree` sees it: only the objects in the dictionary
   * change, so an object displaced by a later duplicate id keeps its ids.
   */
  method SecondPass(entries: seq<Entry>, dict: map<Id, Node>, ghost made: seq<Node>)
    returns (thrown: Option<Id>, ghost culprit: Id)
    requires |made| == |entries|
    requires forall i :: 0 <= i < |made| && !Live(entries, i) ==> made[i].children == Ids(entries[i].childIds)
    requires dict.Keys == LastPos(entries).Keys
    requires forall k :: k in dict ==> dict[k].children == Ids(ChildIdsOf(entries, k))
    requires forall k, k' :: k in dict && k' in dict && k != k' ==> dict[k] != dict[k']
    requires forall i :: 0 <= i < |made| && !Live(entries, i) ==> made[i] !in Owner(dict)
    modifies Owner(dict).Keys
    ensures thrown.None? <==> forall k :: k in dict ==> Resolve(ChildIdsOf(entries, k), dict).Ok?
    ensures thrown.Some? ==> (culprit in dict
      && Resolve(ChildIdsOf(entries, culprit), dict) == Err(thrown.value)
      && forall k' :: k' in dict && k' < culprit ==> Resolve(ChildIdsOf(entries, k'), dict).Ok?)
    ensures thrown.None? ==> forall k :: k in dict ==>
      dict[k].children == Refs(Resolve(ChildIdsOf(entries, k), dict).value)
    ensures forall i :: 0 <= i < |made| && !Live(entries, i) ==> made[i].children == Ids(entries[i].childIds)
  {
    thrown, culprit := LinkChildren(dict, entries, Owner(dict));
  }

  /** Each node of an injective dictionary mapped back to its key. */
  ghost function Owner(dict: map<Id, Node>): (owner: map<Node, Id>)
    requires forall k, k' :: k in dict && k' in dict && k != k' ==> dict[k] != dict[k']
    ensures forall k :: k in dict ==> dict[k] in owner && owner[dict[k]] == k
  {
    map k | k in dict :: dict[k] := k
  }

  /** After the first pass, each node in the dictionary lists the child ids of its entry. */
  lemma DictChildren(entries: seq<Entry>, made: seq<Node>, dict: map<Id, Node>)
    requires |made| == |entries|
    requires dict.Keys == LastPos(entries).Keys
    requires forall k :: k in dict ==> dict[k] == made[LastPos(entries)[k]]
    requires forall i :: 0 <= i < |made| ==> made[i].children == Ids(entries[i].childIds)
    ensures forall k :: k in dict ==> dict[k].children == Ids(ChildIdsOf(entries, k))
  {
  }

  /** After the first pass, distinct ids hold distinct objects. */
  lemma DictInjective(entries: seq<Entry>, made: seq<Node>, dict: map<Id, Node>)
    requires |made| == |entries|
    requires forall i, j :: 0 <= i < j < |made| ==> made[i] != made[j]
    requires dict.Keys == LastPos(entries).Keys
    requires forall k :: k in dict ==> dict[k] == made[LastPos(entries)[k]]
    ensures forall k, k' :: k in dict && k' in dict && k != k' ==> dict[k] != dict[k']
  {
  }

  /** An object whose entry was displaced by a later duplicate is not in the dictionary. */
  lemma {:induction false} DisplacedNotOwned(entries: seq<Entry>, made: seq<Node>, dict: map<Id, Node>)
    requires |made| == |entries|
    requires forall i, j :: 0 <= i < j < |made| ==> made[i] != made[j]
    requires dict.Keys == LastPos(entries).Keys
    requires forall k :: k in dict ==> dict[k] == made[LastPos(entries)[k]]
    requires forall k, k' :: k in dict && k' in dict && k != k' ==> dict[k] != dict[k']
    ensures forall i :: 0 <= i < |made| && !Live(entries, i) ==> made[i] !in Owner(dict)
  {
    var pos := LastPos(entries);
    forall i | 0 <= i < |made| && !Live(entries, i)
      ensures made[i] !in Owner(dict)
    {
      forall k | k in dict
        ensures dict[k] != made[i]
      {
        assert pos[k] != i by {
          assert entries[pos[k]].uid == k;
        }
      }
      var owner := map k | k in dict :: dict[k] := k;
      assert Owner(dict) == owner;
    }
  }
}
