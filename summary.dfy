/**
 * The aggregates of summarize.js: `sumStat`, `allPlugins`,
 * `summarizePlugin` and the build summary that `printBuildSummary` prints.
 * Times stay integer nanoseconds; `formatNs` is not part of this model.
 */
module Summary {
  import opened Wrappers
  import opened Sequences
  import opened Trace
  import opened Traversal

  /** The stat both time summaries add up: a node's own time, in nanoseconds. */
  const SelfTime: string := "time.self"

  /** `_.get(node, 'stats.' + stat)`: the value under the stat's path, if any. */
  function StatAt(t: Tree, stat: string): Option<int>
  {
    if stat in t.stats then Some(t.stats[stat]) else None
  }

  /** The stat has a truthy value: it is present and not 0. */
  predicate Truthy(t: Tree, stat: string)
  {
    StatAt(t, stat).Some? && StatAt(t, stat).value != 0
  }

  /** The term `sumStat` adds for one node: the value when truthy, otherwise 0. */
  function StatOrZero(t: Tree, stat: string): int
  {
    if Truthy(t, stat) then StatAt(t, stat).value else 0
  }

  /** The callback `sumStat` hands to `sumBy`. */
  function StatFn(stat: string): Tree -> int
  {
    t => StatOrZero(t, stat)
  }

  /** `sumStat`: the sum over the nodes of their stat, a missing or falsy value counting 0. */
  method SumStat(nodes: seq<Tree>, stat: string) returns (total: int)
    ensures total == Sum(nodes, StatFn(stat))
  {
    total := SumBy(nodes, StatFn(stat));
  }

  /** Nodes whose stat is missing or falsy contribute nothing: summing only the truthy ones gives the same total. */
  lemma {:induction false} FalsyCountsZero(nodes: seq<Tree>, stat: string)
    ensures Sum(nodes, StatFn(stat)) == Sum(Filter(nodes, t => Truthy(t, stat)), StatFn(stat))
  {
    if nodes != [] {
      FalsyCountsZero(nodes[1..], stat);
      var kept := Filter(nodes, t => Truthy(t, stat));
      if Truthy(nodes[0], stat) {
        assert kept[0] == nodes[0] && kept[1..] == Filter(nodes[1..], t => Truthy(t, stat));
      } else {
        assert kept == Filter(nodes[1..], t => Truthy(t, stat));
      }
    }
  }

  /** Where no stat value is negative, the sum is not negative either. */
  lemma {:induction false} SumStatNonNegative(nodes: seq<Tree>, stat: string)
    requires forall i :: 0 <= i < |nodes| ==> StatOrZero(nodes[i], stat) >= 0
    ensures Sum(nodes, StatFn(stat)) >= 0
  {
    if nodes != [] {
      assert StatOrZero(nodes[0], stat) >= 0;
      SumStatNonNegative(nodes[1..], stat);
    }
  }

  /** `node => node.id.broccoliNode`: the node marks a plugin. */
  predicate IsPlugin(t: Tree)
  {
    t.id.broccoliNode
  }

  /** `node => node.id.name`. */
  function NameOf(t: Tree): string
  {
    t.id.name
  }

  /**
   * `allPlugins`: the nodes that mark a plugin, grouped by name. Each such
   * node is in the group under its own name and in no other, the nodes that
   * mark no plugin are in none, and each group keeps the input order.
   */
  method AllPlugins(nodes: seq<Tree>) returns (groups: map<string, seq<Tree>>)
    ensures forall x :: x in nodes && IsPlugin(x) ==> NameOf(x) in groups
    ensures forall name :: name in groups ==> exists x :: x in nodes && IsPlugin(x) && NameOf(x) == name
    ensures forall name, x :: name in groups && x in nodes ==>
      (x in groups[name] <==> IsPlugin(x) && NameOf(x) == name)
    ensures forall name :: name in groups ==>
      groups[name] == Filter(nodes, x => IsPlugin(x) && NameOf(x) == name)
    ensures forall name :: name in groups ==> groups[name] != [] && IsSubseq(groups[name], nodes)
  {
    var plugins := Filter(nodes, IsPlugin);
    groups := GroupBy(plugins, NameOf);
    forall name | name in groups
      ensures groups[name] == Filter(nodes, x => IsPlugin(x) && NameOf(x) == name)
      ensures IsSubseq(groups[name], nodes)
    {
      var named: Tree -> bool := x => NameOf(x) == name;
      var both: Tree -> bool := x => IsPlugin(x) && NameOf(x) == name;
      GroupIsFilter(plugins, NameOf, name, named);
      FilterFilter(nodes, IsPlugin, named, both);
      FilterIsSubseq(nodes, both);
    }
    forall x | x in nodes && IsPlugin(x)
      ensures NameOf(x) in groups
    {
      FilterMembership(nodes, IsPlugin, x);
    }
    forall name, x | name in groups && x in nodes
      ensures x in groups[name] <==> IsPlugin(x) && NameOf(x) == name
    {
      FilterMembership(nodes, IsPlugin, x);
    }
    forall name | name in groups
      ensures exists x :: x in nodes && IsPlugin(x) && NameOf(x) == name
    {
      var x :| x in plugins && NameOf(x) == name;
      FilterMembership(nodes, IsPlugin, x);
    }
  }

  /** What `summarizePlugin` reports, with both times in nanoseconds. */
  datatype PluginSummary = PluginSummary(name: string, selfTime: int, totalTime: int)

  /**
   * `summarizePlugin`: the self time sums `time.self` over the traversal that
   * skips the immediate children marking a plugin; the total time sums it
   * over the whole subtree.
   */
  method SummarizePlugin(plugin: Tree) returns (summary: PluginSummary)
    ensures summary.name == plugin.id.name
    ensures summary.selfTime == Sum(PreOrder(plugin, Some(IsPlugin)), StatFn(SelfTime))
    ensures summary.totalTime == Sum(PreOrder(plugin, None), StatFn(SelfTime))
    // the time self time leaves out is the total time of the immediate plugin children
    ensures summary.totalTime == summary.selfTime + Sum(Forest(Filter(plugin.children, IsPlugin), None), StatFn(SelfTime))
    ensures NonNegativeTimes(plugin) ==> summary.selfTime <= summary.totalTime
    ensures (forall i :: 0 <= i < |plugin.children| ==> !IsPlugin(plugin.children[i])) ==>
      summary.selfTime == summary.totalTime
  {
    var selfTime := SumStat(PreOrder(plugin, Some(IsPlugin)), SelfTime);
    var totalTime := SumStat(PreOrder(plugin, None), SelfTime);
    summary := PluginSummary(plugin.id.name, selfTime, totalTime);
    TotalIsSelfPlusPluginChildren(plugin);
    if NonNegativeTimes(plugin) {
      SelfAtMostTotal(plugin);
    }
    if forall i :: 0 <= i < |plugin.children| ==> !IsPlugin(plugin.children[i]) {
      SelfEqualsTotal(plugin);
    }
  }

  /** Every `time.self` in the subtree is non-negative (a missing one counts 0). */
  predicate NonNegativeTimes(t: Tree)
  {
    forall i :: 0 <= i < |PreOrder(t, None)| ==> StatOrZero(PreOrder(t, None)[i], SelfTime) >= 0
  }

  /** With non-negative times, a plugin's self time is at most its total time. */
  lemma {:induction false} SelfAtMostTotal(plugin: Tree)
    requires NonNegativeTimes(plugin)
    ensures Sum(PreOrder(plugin, Some(IsPlugin)), StatFn(SelfTime)) <= Sum(PreOrder(plugin, None), StatFn(SelfTime))
  {
    var full := PreOrder(plugin, None);
    RestrictedIsSubseq(plugin, Some(IsPlugin));
    forall x | x in full
      ensures StatFn(SelfTime)(x) >= 0
    {
      var i :| 0 <= i < |full| && full[i] == x;
    }
    SumSubseq(PreOrder(plugin, Some(IsPlugin)), full, StatFn(SelfTime));
  }

  /** Without an immediate child marking a plugin, self time and total time agree. */
  lemma {:induction false} SelfEqualsTotal(plugin: Tree)
    requires forall i :: 0 <= i < |plugin.children| ==> !IsPlugin(plugin.children[i])
    ensures Sum(PreOrder(plugin, Some(IsPlugin)), StatFn(SelfTime)) == Sum(PreOrder(plugin, None), StatFn(SelfTime))
  {
    UntilNoneSkipped(plugin, IsPlugin);
  }

  /**
   * Over children `cs`, the full traversal sums to the restricted one plus
   * the full traversals of the children `p` skips.
   */
  lemma {:induction false} ForestSplit(cs: seq<Tree>, p: Tree -> bool, fn: Tree -> int)
    ensures Sum(Forest(cs, None), fn) == Sum(Forest(cs, Some(p)), fn) + Sum(Forest(Filter(cs, p), None), fn)
  {
    if cs != [] {
      ForestSplit(cs[1..], p, fn);
      var head := PreOrder(cs[0], None);
      SumAppend(head, Forest(cs[1..], None), fn);
      var skipped := Filter(cs, p);
      if p(cs[0]) {
        assert skipped[0] == cs[0] && skipped[1..] == Filter(cs[1..], p);
        assert Forest(skipped, None) == head + Forest(Filter(cs[1..], p), None);
        SumAppend(head, Forest(Filter(cs[1..], p), None), fn);
        assert Forest(cs, Some(p)) == Forest(cs[1..], Some(p));
      } else {
        assert skipped == Filter(cs[1..], p);
        SumAppend(head, Forest(cs[1..], Some(p)), fn);
      }
    }
  }

  /**
   * The time a plugin's self time leaves out is exactly the total time of
   * its immediate children that mark a plugin.
   */
  lemma {:induction false} TotalIsSelfPlusPluginChildren(plugin: Tree)
    ensures Sum(PreOrder(plugin, None), StatFn(SelfTime))
      == Sum(PreOrder(plugin, Some(IsPlugin)), StatFn(SelfTime))
       + Sum(Forest(Filter(plugin.children, IsPlugin), None), StatFn(SelfTime))
  {
    var fn := StatFn(SelfTime);
    SumAppend([plugin], Forest(plugin.children, None), fn);
    SumAppend([plugin], Forest(plugin.children, Some(IsPlugin)), fn);
    ForestSplit(plugin.children, IsPlugin, fn);
  }

  /** `function() { return 1; }`: the callback that makes `sumBy` count. */
  function One(t: Tree): int
  {
    1
  }

  /** The `steps` of the build summary: one per node of the tree. */
  method Steps(tree: Tree) returns (steps: int)
    ensures steps == Size(tree)
    ensures steps == |PreOrder(tree, None)|
  {
    steps := SumBy(PreOrder(tree, None), One);
    SumOfOnes(PreOrder(tree, None), One);
    PreOrderLength(tree);
  }

  /** The object `printBuildSummary` prints, with the total time in nanoseconds. */
  datatype BuildSummary = BuildSummary(
    totalTime: int,
    cacheHit: string,
    reasonType: string,
    steps: int,
    plugin: PluginSummary)

  /**
   * The build summary of a tree: the total time of every node, a fixed cache
   * hit and reason, one step per node, and the root summarized as a plugin.
   */
  method SummarizeBuild(tree: Tree) returns (summary: BuildSummary)
    ensures summary.totalTime == Sum(PreOrder(tree, None), StatFn(SelfTime))
    ensures summary.totalTime == summary.plugin.totalTime
    ensures summary.cacheHit == "N/A%" && summary.reasonType == "initial"
    ensures summary.steps == Size(tree)
    ensures summary.plugin.name == tree.id.name
    ensures summary.plugin.selfTime == Sum(PreOrder(tree, Some(IsPlugin)), StatFn(SelfTime))
    ensures NonNegativeTimes(tree) ==> summary.plugin.selfTime <= summary.totalTime
  {
    var totalTime := SumStat(PreOrder(tree, None), SelfTime);
    var steps := Steps(tree);
    var plugin := SummarizePlugin(tree);
    summary := BuildSummary(totalTime, "N/A%", "initial", steps, plugin);
  }
}
