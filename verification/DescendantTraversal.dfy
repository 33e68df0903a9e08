// Counting the working descendants of a session: a worklist over an arbitrary, possibly
// cyclic, parent map with deleted nodes left out.
module DescendantTraversal {
  import opened Wrappers
  import opened SetFacts

  type Node = nat

  // A parent may be absent, deleted, the node itself or no node of the forest at all.
  datatype Forest = Forest(
    nodes: set<Node>,
    parent: map<Node, Option<Node>>,
    deleted: set<Node>,
    working: set<Node>,
    target: Node
  )

  datatype State = State(visited: set<Node>, frontier: set<Node>, steps: nat)

  ghost predicate ValidForest(f: Forest) {
    f.nodes <= f.parent.Keys && f.target in f.nodes
  }

  // The derived index from parents to children, deleted nodes included.
  ghost function ParentIndex(f: Forest): set<(Option<Node>, Node)>
    requires ValidForest(f)
  {
    set n | n in f.nodes :: (f.parent[n], n)
  }

  // The children of a node, from the index and by a scan.
  ghost function Children(f: Forest, id: Node): set<Node>
    requires ValidForest(f)
  {
    set n | n in f.nodes && n !in f.deleted && (Some(id), n) in ParentIndex(f)
  }

  ghost function ScanChildren(f: Forest, id: Node): set<Node>
    requires ValidForest(f)
  {
    set n | n in f.nodes && n !in f.deleted && f.parent[n] == Some(id)
  }

  lemma IndexEquivalent(f: Forest, id: Node)
    requires ValidForest(f)
    ensures Children(f, id) == ScanChildren(f, id)
  {
    forall n | n in f.nodes ensures (Some(id), n) in ParentIndex(f) <==> f.parent[n] == Some(id) {
    }
  }

  // ---------- the traversal ----------

  ghost predicate Init(f: Forest, s: State)
    requires ValidForest(f)
  {
    s == State({}, Children(f, f.target), 0)
  }

  ghost predicate Step(f: Forest, s: State, s': State, n: Node)
    requires ValidForest(f)
  {
    && n in s.frontier
    && s' == State(s.visited + {n}, (s.frontier + Children(f, n)) - (s.visited + {n}), s.steps + 1)
  }

  ghost predicate Next(f: Forest, s: State, s': State)
    requires ValidForest(f)
  {
    exists n :: Step(f, s, s', n)
  }

  ghost predicate IsRun(f: Forest, run: seq<State>) {
    && ValidForest(f) && |run| > 0 && Init(f, run[0])
    && forall i :: 0 <= i < |run| - 1 ==> Next(f, run[i], run[i + 1])
  }

  ghost function Count(f: Forest, s: State): nat {
    |(s.visited - {f.target}) * f.working|
  }

  // ---------- expansion to a bounded depth ----------

  ghost function Expand(f: Forest, from: set<Node>): set<Node>
    requires ValidForest(f)
  {
    set n | n in f.nodes && n !in f.deleted && exists p :: p in from && n in ScanChildren(f, p)
  }

  ghost function Reach(f: Forest, depth: nat): set<Node>
    requires ValidForest(f)
  {
    if depth == 0 then ScanChildren(f, f.target) else Reach(f, depth - 1) + Expand(f, Reach(f, depth - 1))
  }

  ghost predicate Closed(f: Forest, reached: set<Node>)
    requires ValidForest(f)
  {
    Expand(f, reached) <= reached
  }

  lemma {:induction false} ReachInside(f: Forest, depth: nat)
    requires ValidForest(f)
    ensures Reach(f, depth) <= f.nodes - f.deleted
  {
    if depth > 0 { ReachInside(f, depth - 1); }
  }

  // Expansion stops growing, for each depth adds a node until it does.
  lemma {:induction false} ReachGrows(f: Forest, depth: nat)
    requires ValidForest(f)
    ensures Closed(f, Reach(f, depth)) || |Reach(f, depth)| > depth
  {
    if depth == 0 {
      if Reach(f, 0) == {} { assert Expand(f, {}) == {}; }
      else { SubsetSize({}, Reach(f, 0)); }
    } else {
      var before := Reach(f, depth - 1);
      ReachGrows(f, depth - 1);
      if Closed(f, before) {
        assert Reach(f, depth) == before;
      } else {
        SubsetSize(before, Reach(f, depth));
      }
    }
  }

  lemma ReachClosed(f: Forest)
    requires ValidForest(f)
    ensures Closed(f, Reach(f, |f.nodes|))
  {
    ReachGrows(f, |f.nodes|);
    ReachInside(f, |f.nodes|);
    SubsetSize(Reach(f, |f.nodes|), f.nodes);
  }

  // ---------- the invariant ----------

  // What has been seen is reachable, and only what is in the frontier is not yet expanded.
  ghost predicate Inv(f: Forest, s: State)
    requires ValidForest(f)
  {
    && s.visited !! s.frontier
    && s.visited + s.frontier <= Reach(f, |f.nodes|)
    && Children(f, f.target) <= s.visited + s.frontier
    && (forall n :: n in s.visited ==> Children(f, n) <= s.visited + s.frontier)
    && s.steps == |s.visited|
  }

  lemma StepKeeps(f: Forest, s: State, s': State, n: Node)
    requires ValidForest(f) && Inv(f, s) && Step(f, s, s', n)
    ensures Inv(f, s')
  {
    var reach := Reach(f, |f.nodes|);
    ReachClosed(f);
    IndexEquivalent(f, n);
    forall c | c in Children(f, n) ensures c in reach {
      assert c in Expand(f, reach);
    }
  }

  lemma {:induction false} ReachStarts(f: Forest, depth: nat)
    requires ValidForest(f)
    ensures ScanChildren(f, f.target) <= Reach(f, depth)
  {
    if depth > 0 { ReachStarts(f, depth - 1); }
  }

  lemma {:induction false} RunKeeps(f: Forest, run: seq<State>, n: nat)
    requires IsRun(f, run) && n < |run|
    ensures Inv(f, run[n]) && run[n].steps == n
  {
    if n == 0 {
      IndexEquivalent(f, f.target);
      ReachStarts(f, |f.nodes|);
    } else {
      RunKeeps(f, run, n - 1);
      var node :| Step(f, run[n - 1], run[n], node);
      StepKeeps(f, run[n - 1], run[n], node);
    }
  }

  // ---------- what the traversal guarantees ----------

  // It ends after at most as many steps as there are nodes, one for each node visited.
  lemma TraversalIsFinite(f: Forest, run: seq<State>, n: nat)
    requires IsRun(f, run) && n < |run|
    ensures run[n].steps == n == |run[n].visited| <= |f.nodes|
    ensures run[n].visited !! f.deleted && run[n].visited <= f.nodes
  {
    RunKeeps(f, run, n);
    ReachInside(f, |f.nodes|);
    SubsetSize(run[n].visited, f.nodes);
  }

  // A node added by expansion was already visited once nothing is left to expand.
  lemma {:induction false} DoneCovers(f: Forest, s: State, depth: nat)
    requires ValidForest(f) && Inv(f, s) && s.frontier == {}
    ensures Reach(f, depth) <= s.visited
  {
    if depth == 0 {
      IndexEquivalent(f, f.target);
    } else {
      DoneCovers(f, s, depth - 1);
      forall c | c in Expand(f, Reach(f, depth - 1)) ensures c in s.visited {
        var p :| p in Reach(f, depth - 1) && c in ScanChildren(f, p);
        IndexEquivalent(f, p);
        assert c in Children(f, p);
      }
    }
  }

  // When the frontier is empty, the visited nodes are exactly those that bounded-depth
  // expansion reaches, and the count is that of the working descendants but the target.
  lemma CountsDescendants(f: Forest, run: seq<State>, n: nat)
    requires IsRun(f, run) && n < |run|
    ensures run[n].frontier == {} <==> run[n].visited == Reach(f, |f.nodes|)
    ensures run[n].frontier == {} ==> Count(f, run[n]) == |(Reach(f, |f.nodes|) - {f.target}) * f.working|
    ensures Count(f, run[n]) == |(run[n].visited * f.working) - {f.target}|
  {
    RunKeeps(f, run, n);
    if run[n].frontier == {} { DoneCovers(f, run[n], |f.nodes|); }
    assert (run[n].visited - {f.target}) * f.working == (run[n].visited * f.working) - {f.target};
  }

  // ---------- descendants ----------

  // A chain of existing nodes from the target down: each the parent of the next.
  ghost predicate Chain(f: Forest, chain: seq<Node>)
    requires ValidForest(f)
  {
    && |chain| > 0 && chain[0] in ScanChildren(f, f.target)
    && forall i :: 0 <= i < |chain| - 1 ==> chain[i + 1] in ScanChildren(f, chain[i])
  }

  lemma {:induction false} ReachHasChain(f: Forest, depth: nat, n: Node) returns (chain: seq<Node>)
    requires ValidForest(f) && n in Reach(f, depth)
    ensures Chain(f, chain) && chain[|chain| - 1] == n
  {
    if depth == 0 {
      chain := [n];
    } else if n in Reach(f, depth - 1) {
      chain := ReachHasChain(f, depth - 1, n);
    } else {
      var p :| p in Reach(f, depth - 1) && n in ScanChildren(f, p);
      chain := ReachHasChain(f, depth - 1, p);
      chain := chain + [n];
    }
  }

  lemma {:induction false} ChainInside(f: Forest, chain: seq<Node>, i: nat)
    requires ValidForest(f) && Chain(f, chain) && i < |chain|
    ensures chain[i] in Reach(f, |f.nodes|)
  {
    if i == 0 {
      ReachStarts(f, |f.nodes|);
    } else {
      ChainInside(f, chain, i - 1);
      ReachClosed(f);
      assert chain[i - 1 + 1] in ScanChildren(f, chain[i - 1]);
      assert chain[i] in Expand(f, Reach(f, |f.nodes|));
    }
  }

  // A finished traversal visited a node exactly if it is a descendant of the target, at
  // whatever depth and through whatever cycles.
  lemma VisitsDescendants(f: Forest, run: seq<State>, n: nat, node: Node)
    requires IsRun(f, run) && n < |run| && run[n].frontier == {}
    ensures node in run[n].visited <==> exists chain :: Chain(f, chain) && chain[|chain| - 1] == node
  {
    CountsDescendants(f, run, n);
    if node in run[n].visited {
      var chain := ReachHasChain(f, |f.nodes|, node);
    }
    if chain :| Chain(f, chain) && chain[|chain| - 1] == node { ChainInside(f, chain, |chain| - 1); }
  }
}
