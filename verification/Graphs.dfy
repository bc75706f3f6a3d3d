/** Dependency graphs: every node lists the nodes it depends on. */
module Graphs {
  type Graph = map<string, seq<string>>

  /** Every listed dependency is itself a node. */
  ghost predicate Closed(g: Graph) {
    forall n, d :: n in g && d in g[n] ==> d in g
  }

  /** Each node of `p` is a dependency of the node after it. */
  ghost predicate IsChain(g: Graph, p: seq<string>) {
    && p != []
    && (forall i :: 0 <= i < |p| ==> p[i] in g)
    && (forall i :: 0 < i < |p| ==> p[i - 1] in g[p[i]])
  }

  ghost predicate Acyclic(g: Graph) {
    forall p :: IsChain(g, p) && |p| > 1 ==> p[0] != p[|p| - 1]
  }

  /** The longest dependency chain that ends in `n` has exactly `k` edges. */
  ghost predicate LongestChain(g: Graph, n: string, k: nat) {
    && (exists p :: IsChain(g, p) && p[|p| - 1] == n && |p| == k + 1)
    && (forall p :: IsChain(g, p) && p[|p| - 1] == n ==> |p| <= k + 1)
  }

  lemma LongestChainUnique(g: Graph, n: string, j: nat, k: nat)
    requires LongestChain(g, n, j) && LongestChain(g, n, k)
    ensures j == k
  {
  }

  ghost predicate Ranked(g: Graph, rank: map<string, nat>) {
    forall n, d :: n in g && d in g[n] && d in g ==> n in rank && d in rank && rank[d] < rank[n]
  }

  lemma {:induction false} RankGrowsAlongChain(g: Graph, rank: map<string, nat>, p: seq<string>)
    requires Ranked(g, rank) && IsChain(g, p) && |p| > 1
    ensures p[0] in rank && p[|p| - 1] in rank && rank[p[0]] + |p| - 1 <= rank[p[|p| - 1]]
  {
    var m := |p| - 1;
    assert p[m - 1] in g[p[m]];
    if m > 1 {
      assert IsChain(g, p[..m]);
      RankGrowsAlongChain(g, rank, p[..m]);
    }
  }

  /** A rank that grows along every dependency rules cycles out. */
  lemma RankedIsAcyclic(g: Graph, rank: map<string, nat>)
    requires Ranked(g, rank)
    ensures Acyclic(g)
  {
    forall p | IsChain(g, p) && |p| > 1 ensures p[0] != p[|p| - 1] {
      RankGrowsAlongChain(g, rank, p);
    }
  }

  ghost function Elements(p: seq<string>): set<string> {
    set x | x in p
  }

  lemma {:induction false} DistinctElements(p: seq<string>)
    requires forall i, j :: 0 <= i < j < |p| ==> p[i] != p[j]
    ensures |Elements(p)| == |p|
  {
    if p != [] {
      var q := p[..|p| - 1];
      DistinctElements(q);
      assert Elements(p) == Elements(q) + {p[|p| - 1]};
    }
  }

  lemma SubsetSize(a: set<string>, b: set<string>)
    requires a <= b
    ensures |a| <= |b|
  {
    assert b == a + (b - a);
  }

  lemma SubChain(g: Graph, p: seq<string>, i: nat, j: nat)
    requires IsChain(g, p) && i <= j < |p|
    ensures IsChain(g, p[i..j + 1])
  {
    var q := p[i..j + 1];
    forall k | 0 < k < |q| ensures q[k - 1] in g[q[k]] {
      assert p[i + k - 1] in g[p[i + k]];
    }
  }

  /** A chain that stays inside fewer nodes than its length contains a cycle. */
  lemma LongChainHasCycle(g: Graph, p: seq<string>, r: set<string>)
    requires IsChain(g, p) && Elements(p) <= r && |p| > |r|
    ensures !Acyclic(g)
  {
    if forall i, j :: 0 <= i < j < |p| ==> p[i] != p[j] {
      DistinctElements(p);
      SubsetSize(Elements(p), r);
    } else {
      var i, j :| 0 <= i < j < |p| && p[i] == p[j];
      SubChain(g, p, i, j);
    }
  }

  lemma {:induction false} WalkInside(g: Graph, r: set<string>, start: string, n: nat) returns (p: seq<string>)
    requires start in r && r <= g.Keys
    requires forall x :: x in r ==> exists d :: d in g[x] && d in r
    ensures IsChain(g, p) && Elements(p) <= r && |p| == n + 1
  {
    p := [start];
    for i := 0 to n
      invariant IsChain(g, p) && Elements(p) <= r && |p| == i + 1
    {
      assert p[0] in Elements(p);
      var d :| d in g[p[0]] && d in r;
      p := [d] + p;
    }
  }

  /** If each node of a non-empty set depends on a node of the set, there is a cycle. */
  lemma StuckSetHasCycle(g: Graph, r: set<string>)
    requires r != {} && r <= g.Keys
    requires forall x :: x in r ==> exists d :: d in g[x] && d in r
    ensures !Acyclic(g)
  {
    var start :| start in r;
    var p := WalkInside(g, r, start, |r|);
    LongChainHasCycle(g, p, r);
  }

  lemma {:induction false} ChainInto(g: Graph, rank: map<string, nat>, n: string) returns (p: seq<string>)
    requires n in g && g.Keys <= rank.Keys
    requires forall x :: x in g && rank[x] > 0 ==> exists d :: d in g[x] && d in g && rank[d] + 1 == rank[x]
    ensures IsChain(g, p) && p[|p| - 1] == n && |p| == rank[n] + 1
    decreases rank[n]
  {
    if rank[n] == 0 {
      p := [n];
    } else {
      var d :| d in g[n] && d in g && rank[d] + 1 == rank[n];
      var q := ChainInto(g, rank, d);
      p := q + [n];
    }
  }

  /** A rank whose every positive value is explained by a dependency one below
      is the length of the longest chain. */
  lemma TightRankIsLongestChain(g: Graph, rank: map<string, nat>, n: string)
    requires n in g && g.Keys <= rank.Keys && Ranked(g, rank)
    requires forall x :: x in g && rank[x] > 0 ==> exists d :: d in g[x] && d in g && rank[d] + 1 == rank[x]
    ensures LongestChain(g, n, rank[n])
  {
    var w := ChainInto(g, rank, n);
    forall p | IsChain(g, p) && p[|p| - 1] == n ensures |p| <= rank[n] + 1 {
      if |p| > 1 {
        RankGrowsAlongChain(g, rank, p);
      }
    }
  }

  /** A dependency has a shorter longest chain than the node that lists it. */
  lemma DependencyIsLower(g: Graph, n: string, d: string, j: nat, k: nat)
    requires n in g && d in g[n] && d in g && LongestChain(g, d, j) && LongestChain(g, n, k)
    ensures j < k
  {
    var p :| IsChain(g, p) && p[|p| - 1] == d && |p| == j + 1;
    var q := p + [n];
    assert IsChain(g, q) && q[|q| - 1] == n;
  }
}
