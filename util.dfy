/**
 * `util.py` (fg_tools) and `util.py` (fcTools): the upstream-node search,
 * the attribute-change scan and the `UserSelection` context manager.
 */
module Util {
  import opened Outcomes
  import opened Lists
  import opened SceneState

  // ----- get_upstream_nodes -----

  /**
   * The input connections of each node (`listConnections(source=True,
   * destination=False)`); a node that is not a key has none.
   */
  type Graph = map<string, set<string>>

  /** `get_inputs(obj)`: the set of input nodes, empty when the host answers None. */
  function Inputs(g: Graph, x: string): set<string> {
    if x in g then g[x] else {}
  }

  /** A set of nodes that contains the inputs of each of its members. */
  ghost predicate Closed(g: Graph, c: set<string>) {
    forall x :: x in c ==> Inputs(g, x) <= c
  }

  /**
   * `s` is the set of transitive inputs of `node`, without `node` itself:
   * it holds the inputs of `node` and of each member, and lies inside every
   * input-closed set that holds the inputs of `node`.
   */
  ghost predicate IsUpstream(g: Graph, node: string, s: set<string>) {
    && node !in s
    && Inputs(g, node) - {node} <= s
    && (forall y :: y in s ==> Inputs(g, y) <= s + {node})
    && (forall c :: Closed(g, c) && Inputs(g, node) <= c ==> s <= c)
  }

  /** There is only one such set: any two answers that satisfy `IsUpstream` agree. */
  lemma UpstreamUnique(g: Graph, node: string, a: set<string>, b: set<string>)
    requires IsUpstream(g, node, a) && IsUpstream(g, node, b)
    ensures a == b
  {
    assert Closed(g, a + {node});
    assert Closed(g, b + {node});
  }

  /** What Python raises once the recursion limit is reached. */
  const RecursionLimitMessage: string := "maximum recursion depth exceeded"

  /**
   * A graph in which every node has exactly one input, itself a node of the
   * graph, which is neither the node itself nor a node whose input is the
   * node. Following inputs from any node never stops and ends up going round
   * a cycle of three or more nodes; nodes on a tail leading into that cycle
   * are allowed.
   */
  ghost predicate Ring(g: Graph) {
    forall x :: RingAt(g, x)
  }

  /** The ring condition at one node. */
  ghost predicate RingAt(g: Graph, x: string) {
    x in g ==> g[x] != {} && forall z :: z in g[x] ==> g[x] == {z} && z in g && z != x && x !in g[z]
  }

  /**
   * On a ring, the set `get_recursive_inputs` receives from its caller: `obj`
   * and the node whose input `obj` is.
   */
  ghost predicate RingParent(g: Graph, obj: string, parent: set<string>) {
    && obj in parent && |parent| == 2
    && forall y :: y in parent && y != obj ==> y in g && g[y] == {obj}
  }

  /** The one input of a node with inputs. */
  ghost function SomeInput(g: Graph, x: string): (z: string)
    requires x in g && g[x] != {}
    ensures z in g[x]
  {
    var z :| z in g[x]; z
  }

  /** Each member of `results` is in `parent` or `relevant`, or has its inputs in `results`. */
  ghost predicate Covered(g: Graph, results: set<string>, parent: set<string>, relevant: set<string>) {
    forall y :: y in results ==> y in parent || y in relevant || Inputs(g, y) <= results
  }

  /** `results` lies inside every input-closed set holding the inputs of `obj`, give or take `obj`. */
  ghost predicate Within(g: Graph, obj: string, results: set<string>) {
    forall c :: Closed(g, c) && Inputs(g, obj) <= c ==> results <= c + {obj}
  }

  /** Adding what the call on `n` found covers `n` and keeps everything else covered. */
  lemma CoveredStep(g: Graph, results: set<string>, parent: set<string>, relevant: set<string>, n: string, sub: set<string>)
    requires Covered(g, results, parent, relevant) && Covered(g, sub, results, {}) && Inputs(g, n) <= sub
    ensures Covered(g, results + sub, parent, relevant - {n})
  {
  }

  /** What the call on an input of `obj` (or on `obj`) found stays inside the inputs of `obj`. */
  lemma WithinStep(g: Graph, obj: string, results: set<string>, n: string, sub: set<string>)
    requires Within(g, obj, results) && n in Inputs(g, obj) + {obj} && Within(g, n, sub)
    ensures Within(g, obj, results + sub)
  {
    forall c | Closed(g, c) && Inputs(g, obj) <= c
      ensures results + sub <= c + {obj}
    {
      if n != obj {
        assert Inputs(g, n) <= c;
      }
    }
  }

  /** On a ring, a call from the top or from the node `obj` is the input of has one new input to visit. */
  lemma RingEntry(g: Graph, obj: string, parent: set<string>, z: string)
    requires Ring(g) && obj in g && (parent == {} || RingParent(g, obj, parent)) && z in g[obj]
    ensures g[obj] == {z} && z in g && z != obj && z !in parent
  {
    assert RingAt(g, obj);
    if parent != {} {
      assert RingAt(g, z);
    }
  }

  /** On a ring, the call on the input `z` of `obj` receives `{z, obj}`, a ring parent of `z`. */
  lemma RingNext(g: Graph, obj: string, z: string)
    requires Ring(g) && obj in g && g[obj] == {z}
    ensures z in g && RingParent(g, z, {z, obj})
  {
    assert z in g[obj] && RingAt(g, obj);
  }

  /**
   * A numbering of the graph's nodes, each below the number of nodes, in
   * which every input is numbered below its node: a topological order.
   */
  ghost predicate Numbering(g: Graph, rank: map<string, nat>) {
    && (forall x :: x in AllNodes(g) ==> x in rank && rank[x] < |AllNodes(g)|)
    && (forall x, y :: y in Inputs(g, x) ==> x in rank && y in rank && rank[y] < rank[x])
  }

  /** The graph has no cycle: its nodes admit a topological order. */
  ghost predicate Acyclic(g: Graph) {
    exists rank :: Numbering(g, rank)
  }

  /** One topological order of an acyclic graph. */
  ghost function Ranking(g: Graph): (rank: map<string, nat>)
    requires Acyclic(g)
    ensures Numbering(g, rank)
  {
    var rank :| Numbering(g, rank); rank
  }

  /** The place of `x` in that order; a node the graph does not mention is at 0. */
  ghost function Level(g: Graph, x: string): nat
    requires Acyclic(g)
  {
    if x in AllNodes(g) then Ranking(g)[x] else 0
  }

  /** Every place lies below the number of nodes, or is 0. */
  lemma LevelBound(g: Graph, x: string)
    requires Acyclic(g)
    ensures Level(g, x) <= |AllNodes(g)|
  {
  }

  /** An input sits below its node. */
  lemma LevelStep(g: Graph, x: string, y: string)
    requires Acyclic(g) && y in Inputs(g, x)
    ensures Level(g, y) < Level(g, x)
  {
    assert x in g;
    assert x in AllNodes(g) && y in AllNodes(g);
  }

  /** Every walk from `x` along inputs passes through fewer than `d` nodes. */
  ghost predicate Shallow(g: Graph, x: string, d: nat)
    decreases d
  {
    0 < d && forall y :: y in Inputs(g, x) ==> Shallow(g, y, d - 1)
  }

  /** A bound that holds keeps holding when it grows. */
  lemma {:induction false} ShallowGrows(g: Graph, x: string, d: nat, e: nat)
    requires Shallow(g, x, d) && d <= e
    ensures Shallow(g, x, e)
    decreases d
  {
    forall y | y in Inputs(g, x)
      ensures Shallow(g, y, e - 1)
    {
      ShallowGrows(g, y, d - 1, e - 1);
    }
  }

  /** In an acyclic graph the walks from a node are no longer than its place in the order. */
  lemma {:induction false} LevelShallow(g: Graph, x: string)
    requires Acyclic(g)
    ensures Shallow(g, x, Level(g, x) + 1)
    decreases Level(g, x)
  {
    forall y | y in Inputs(g, x)
      ensures Shallow(g, y, Level(g, x))
    {
      LevelStep(g, x, y);
      LevelShallow(g, y);
      ShallowGrows(g, y, Level(g, y) + 1, Level(g, x));
    }
  }

  /** Each node of `path` has the next one among its inputs. */
  ghost predicate InputPath(g: Graph, path: seq<string>) {
    forall i :: 0 <= i < |path| - 1 ==> path[i + 1] in Inputs(g, path[i])
  }

  /** Along a walk of inputs the level falls at every step. */
  lemma {:induction false} LevelFalls(g: Graph, path: seq<string>)
    requires Acyclic(g) && |path| >= 2 && InputPath(g, path)
    ensures Level(g, path[|path| - 1]) < Level(g, path[0])
    decreases |path|
  {
    LevelStep(g, path[0], path[1]);
    if |path| > 2 {
      var tail := path[1..];
      assert InputPath(g, tail) by {
        forall i | 0 <= i < |tail| - 1
          ensures tail[i + 1] in Inputs(g, tail[i])
        {
          assert tail[i] == path[i + 1] && tail[i + 1] == path[i + 2];
        }
      }
      LevelFalls(g, tail);
    }
  }

  /** In an acyclic graph no node reaches itself along inputs. */
  lemma AcyclicNoReturn(g: Graph, path: seq<string>)
    requires Acyclic(g) && |path| >= 2 && InputPath(g, path)
    ensures path[0] != path[|path| - 1]
  {
    LevelFalls(g, path);
  }

  /** A topological numbering puts each input below its node. */
  lemma NumberedEdge(g: Graph, rank: map<string, nat>, x: string, y: string)
    requires y in Inputs(g, x)
    ensures Numbering(g, rank) ==> x in rank && y in rank && rank[y] < rank[x]
  {
  }

  /** No numbering of the three-cycle is topological: each node would sit below itself. */
  lemma ThreeCycleUnnumbered(rank: map<string, nat>)
    ensures !Numbering(ThreeCycle, rank)
  {
    assert "a" != "b" && "b" != "c" && "c" != "a" by {
      assert "a"[0] != "b"[0] && "b"[0] != "c"[0] && "c"[0] != "a"[0];
    }
    assert Inputs(ThreeCycle, "a") == {"b"} && Inputs(ThreeCycle, "b") == {"c"} && Inputs(ThreeCycle, "c") == {"a"};
    NumberedEdge(ThreeCycle, rank, "a", "b");
    NumberedEdge(ThreeCycle, rank, "b", "c");
    NumberedEdge(ThreeCycle, rank, "c", "a");
  }

  lemma ThreeCycleNotAcyclic()
    ensures !Acyclic(ThreeCycle)
  {
    forall rank: map<string, nat>
      ensures !Numbering(ThreeCycle, rank)
    {
      ThreeCycleUnnumbered(rank);
    }
  }

  /**
   * `get_recursive_inputs(obj, parent_results)` as written. `depth` is the
   * number of frames left before the interpreter's recursion limit. It
   * visits, in the set's own order, the new nodes of the inputs plus `obj`,
   * passing down the results gathered so far.
   */
  method RecursiveInputs(g: Graph, obj: string, parent: set<string>, depth: nat) returns (r: Result<set<string>>)
    decreases depth
    ensures r.Err? ==> r.error == RuntimeError(RecursionLimitMessage)
    ensures r.Ok? ==> 0 < depth
    ensures r.Ok? ==> Inputs(g, obj) <= r.value
    ensures r.Ok? ==> Covered(g, r.value, parent, {})
    ensures r.Ok? ==> Within(g, obj, r.value)
    ensures 0 < depth && Inputs(g, obj) == {} ==> r == Ok({})
    ensures 0 < depth && Inputs(g, obj) != {} && Inputs(g, obj) + {obj} <= parent ==> r == Ok(Inputs(g, obj) + {obj})
    ensures Ring(g) && obj in g && (parent == {} || RingParent(g, obj, parent)) ==> r.Err?
    ensures 0 < depth && Shallow(g, obj, depth - 1) ==> r.Ok?
  {
    if depth == 0 {
      return Err(RuntimeError(RecursionLimitMessage));
    }
    ghost var ring := Ring(g) && obj in g && (parent == {} || RingParent(g, obj, parent));
    ghost var z := if ring then assert RingAt(g, obj); SomeInput(g, obj) else obj;
    if ring {
      RingEntry(g, obj, parent, z);
    }
    var results := Inputs(g, obj);
    if results != {} {
      results := results + {obj};
      var relevant := results - parent;
      while relevant != {}
        invariant Inputs(g, obj) + {obj} <= results
        invariant relevant <= Inputs(g, obj) + {obj} && relevant !! parent
        invariant Inputs(g, obj) + {obj} <= parent ==> results == Inputs(g, obj) + {obj}
        invariant Covered(g, results, parent, relevant)
        invariant Within(g, obj, results)
        invariant ring ==> g[obj] == {z} && results == {z, obj} && z in relevant
        decreases relevant
      {
        var n :| n in relevant;
        relevant := relevant - {n};
        var sub := RecursiveInputs(g, n, results, depth - 1);
        if sub.Err? {
          return sub;
        }
        if ring {
          RingNext(g, obj, z);
          assert n == obj;
        }
        CoveredStep(g, results, parent, relevant + {n}, n, sub.value);
        assert relevant + {n} - {n} == relevant;
        WithinStep(g, obj, results, n, sub.value);
        results := results + sub.value;
      }
    }
    return Ok(results);
  }

  /**
   * `get_upstream_nodes(node)` as written: the recursive search from `node`,
   * with `node` discarded. When it returns, the answer is exactly the
   * transitive inputs of `node`; on a graph made of cycles of three or more
   * nodes it never returns before the recursion limit; on a graph without
   * cycles it always returns once the limit exceeds the number of nodes by
   * more than one.
   */
  method UpstreamNodes(g: Graph, node: string, depth: nat) returns (r: Result<set<string>>)
    ensures r.Err? ==> r.error == RuntimeError(RecursionLimitMessage)
    ensures r.Ok? ==> IsUpstream(g, node, r.value)
    ensures 0 < depth && Inputs(g, node) == {} ==> r == Ok({})
    ensures Ring(g) && node in g ==> r.Err?
    ensures Acyclic(g) && depth > |AllNodes(g)| + 1 ==> r.Ok?
  {
    if Acyclic(g) && depth > |AllNodes(g)| + 1 {
      LevelBound(g, node);
      LevelShallow(g, node);
      ShallowGrows(g, node, Level(g, node) + 1, depth - 1);
    }
    var found := RecursiveInputs(g, node, {}, depth);
    if found.Err? {
      return found;
    }
    assert found.value == {} ==> found.value - {node} == {};
    r := Ok(found.value - {node});
    assert Closed(g, found.value) by {
      assert Covered(g, found.value, {}, {});
    }
  }

  /** Three nodes, each the input of the next: `a <- b <- c <- a`. */
  const ThreeCycle: Graph := map["a" := {"b"}, "b" := {"c"}, "c" := {"a"}]

  lemma ThreeCycleIsRing()
    ensures Ring(ThreeCycle) && "a" in ThreeCycle
  {
    var g := ThreeCycle;
    assert "a" != "b" && "b" != "c" && "c" != "a" by {
      assert "a"[0] != "b"[0] && "b"[0] != "c"[0] && "c"[0] != "a"[0];
    }
    assert g.Keys == {"a", "b", "c"};
    forall x
      ensures RingAt(g, x)
    {
      if x == "a" {
        assert g[x] == {"b"} && g["b"] == {"c"};
      } else if x == "b" {
        assert g[x] == {"c"} && g["c"] == {"a"};
      } else if x == "c" {
        assert g[x] == {"a"} && g["a"] == {"b"};
      }
    }
  }

  /** On the three-cycle, the search as written fails whatever the recursion limit. */
  method UpstreamOfThreeCycle(depth: nat) returns (r: Result<set<string>>)
    ensures r == Err(RuntimeError(RecursionLimitMessage))
  {
    ThreeCycleIsRing();
    r := UpstreamNodes(ThreeCycle, "a", depth);
  }

  /** Two nodes, the second the input of the first: `a <- b`. */
  const Chain: Graph := map["a" := {"b"}, "b" := {}]

  lemma ChainIsAcyclic()
    ensures Acyclic(Chain) && |AllNodes(Chain)| == 2
  {
    assert "a" != "b" by {
      assert "a"[0] != "b"[0];
    }
    assert AllNodes(Chain) == {"a", "b"} by {
      assert Chain.Values == {{"b"}, {}} by {
        assert Chain["a"] == {"b"} && Chain["b"] == {};
      }
    }
    var rank: map<string, nat> := map["a" := 1, "b" := 0];
    assert Numbering(Chain, rank);
  }

  /** On the chain, a recursion limit of more than three frames lets the search as written return `{b}`. */
  method UpstreamOfChain(depth: nat) returns (r: Result<set<string>>)
    requires depth > 3
    ensures r == Ok({"b"})
  {
    ChainIsAcyclic();
    r := UpstreamNodes(Chain, "a", depth);
    assert "a" != "b" by {
      assert "a"[0] != "b"[0];
    }
    assert IsUpstream(Chain, "a", {"b"});
    UpstreamUnique(Chain, "a", r.value, {"b"});
  }

  /** Every node a graph mentions, as key or as input. */
  function AllNodes(g: Graph): (all: set<string>)
    ensures forall x :: Inputs(g, x) <= all
  {
    var all := g.Keys + (set s, x | s in g.Values && x in s :: x);
    assert forall x :: x in g ==> g[x] in g.Values;
    all
  }

  /** Every visited node has its inputs visited or waiting. */
  ghost predicate Explored(g: Graph, visited: set<string>, frontier: set<string>) {
    forall y :: y in visited ==> Inputs(g, y) <= visited + frontier
  }

  /** `s` lies inside every input-closed set holding the inputs of `node`. */
  ghost predicate Below(g: Graph, node: string, s: set<string>) {
    forall c :: Closed(g, c) && Inputs(g, node) <= c ==> s <= c
  }

  /** Visiting a waiting node and queueing its inputs keeps every visited node explored. */
  lemma ExploredStep(g: Graph, visited: set<string>, frontier: set<string>, x: string)
    requires Explored(g, visited, frontier) && x in frontier
    ensures x !in visited ==> Explored(g, visited + {x}, (frontier - {x}) + Inputs(g, x))
    ensures x in visited ==> Explored(g, visited, frontier - {x})
  {
  }

  /** The inputs of a node inside every such closed set are inside it too. */
  lemma BelowStep(g: Graph, node: string, visited: set<string>, frontier: set<string>, x: string)
    requires Below(g, node, visited + frontier) && x in frontier
    ensures x !in visited ==> Below(g, node, (visited + {x}) + ((frontier - {x}) + Inputs(g, x)))
    ensures x in visited ==> Below(g, node, visited + (frontier - {x}))
  {
    assert x !in visited ==> (visited + {x}) + ((frontier - {x}) + Inputs(g, x)) == visited + frontier + Inputs(g, x);
  }

  /**
   * The intended `get_upstream_nodes`: a search that remembers every node it
   * has visited, so it ends on every graph, with the same answer.
   */
  method UpstreamNodesIntended(g: Graph, node: string) returns (r: set<string>)
    ensures IsUpstream(g, node, r)
    ensures Inputs(g, node) == {} ==> r == {}
  {
    var visited: set<string> := {};
    var frontier := Inputs(g, node);
    while frontier != {}
      invariant visited <= AllNodes(g) && frontier <= AllNodes(g)
      invariant Inputs(g, node) <= visited + frontier
      invariant Explored(g, visited, frontier)
      invariant Below(g, node, visited + frontier)
      decreases |AllNodes(g) - visited|, |frontier|
    {
      var x :| x in frontier;
      ExploredStep(g, visited, frontier, x);
      BelowStep(g, node, visited, frontier, x);
      if x in visited {
        frontier := frontier - {x};
      } else {
        assert AllNodes(g) - (visited + {x}) == (AllNodes(g) - visited) - {x};
        visited := visited + {x};
        frontier := (frontier - {x}) + Inputs(g, x);
      }
    }
    assert Closed(g, visited) by {
      assert Explored(g, visited, {});
    }
    r := visited - {node};
  }

  // ----- attr_changed_between -----

  /**
   * `attr_changed_between(attr, start, end)`: whether the attribute, read
   * at each frame through `valueAt`, differs at some frame after `start`
   * up to `end` from its value at `start`.
   */
  method AttrChangedBetween<T(==)>(valueAt: int -> T, start: int, end: int) returns (changed: bool)
    ensures changed <==> exists f :: start < f <= end && valueAt(f) != valueAt(start)
  {
    var first := valueAt(start);
    var frame := start + 1;
    while frame < end + 1
      invariant start + 1 <= frame
      invariant forall f :: start < f < frame ==> valueAt(f) == first
    {
      if first != valueAt(frame) {
        return true;
      }
      frame := frame + 1;
    }
    return false;
  }

  // ----- UserSelection -----

  /** The name `_get_select_mode` gives each mode. */
  function ModeName(m: SelectMode): string {
    match m
    case Object => "object"
    case Component => "component"
    case Root => "root"
    case Leaf => "leaf"
    case Template => "template"
    case Hierarchical => "hierarchical"
    case Preset => "preset"
  }

  /** The mode `_set_select_mode` switches to for a name; any other name switches nothing. */
  function ModeOfName(name: string): (m: Option<SelectMode>)
    ensures m.Some? ==> ModeName(m.value) == name
    ensures forall mode :: ModeName(mode) == name ==> m == Some(mode)
  {
    if name == "object" then Some(Object)
    else if name == "component" then Some(Component)
    else if name == "root" then Some(Root)
    else if name == "leaf" then Some(Leaf)
    else if name == "template" then Some(Template)
    else if name == "hierarchical" then Some(Hierarchical)
    else if name == "preset" then Some(Preset)
    else None
  }

  /** `[obj for obj in saved if cmds.objExists(obj)]`. */
  function Surviving(saved: seq<string>, nodes: set<string>): seq<string> {
    Filter(saved, obj => obj in nodes)
  }

  /** The reselection holds the saved items that still exist, in saved order; all of them when none was removed. */
  lemma SurvivingSpec(saved: seq<string>, more: seq<string>, nodes: set<string>)
    ensures forall obj :: obj in Surviving(saved, nodes) <==> obj in saved && obj in nodes
    ensures Surviving(saved + more, nodes) == Surviving(saved, nodes) + Surviving(more, nodes)
    ensures (forall obj :: obj in saved ==> obj in nodes) ==> Surviving(saved, nodes) == saved
  {
    FilterMembers(saved, obj => obj in nodes);
    FilterAppend(saved, more, obj => obj in nodes);
    if forall obj :: obj in saved ==> obj in nodes {
      FilterAll(saved, obj => obj in nodes);
    }
  }

  /** The context manager that puts back the user's selection mode and selection. */
  class UserSelection {
    var selectMode: string
    var userSelection: seq<string>

    constructor ()
      ensures selectMode == "" && userSelection == []
    {
      selectMode := "";
      userSelection := [];
    }

    /** `__enter__`: records the mode's name and the selection, and returns the selection. */
    method Enter(scene: Scene) returns (selected: seq<string>)
      modifies this
      ensures selectMode == ModeName(scene.selectMode) && userSelection == scene.selection
      ensures selected == scene.selection
    {
      selectMode := ModeName(scene.selectMode);
      userSelection := scene.selection;
      selected := userSelection;
    }

    /**
     * `__exit__`: switches back to the recorded mode, clears the selection
     * and reselects the recorded items that still exist; returns False, so
     * an exception in the block propagates.
     */
    method Exit(scene: Scene) returns (suppress: bool)
      modifies scene`selection, scene`selectMode
      ensures !suppress
      ensures scene.selectMode == match ModeOfName(selectMode) case Some(m) => m case None => old(scene.selectMode)
      ensures scene.selection == Surviving(userSelection, scene.nodes)
    {
      var mode := ModeOfName(selectMode);
      if mode.Some? {
        scene.selectMode := mode.value;
      }
      scene.selection := [];
      var existing := Surviving(userSelection, scene.nodes);
      if existing != [] {
        scene.selection := existing;
      }
      return false;
    }
  }
}
