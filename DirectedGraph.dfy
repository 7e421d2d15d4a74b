// chi::DirectedGraph: vertices with upstream/downstream edge sets and edge
// weights, a validity flag per vertex, and the graph algorithms built on
// them (depth-first search, Tarjan's strongly connected components, Kahn's
// topological sort, the Eades-Lin-Smyth feedback arc set heuristic and the
// cyclic-dependency removal that combines them).
module DirectedGraphs {
  import opened Wrappers
  import opened OrderedSets

  /** chi::GraphVertex. The untyped context pointer is not modelled. */
  datatype Vertex = Vertex(
    id: nat,
    usEdge: set<nat>,
    dsEdge: set<nat>,
    usWeights: map<nat, real>,
    dsWeights: map<nat, real>)

  /** A fresh vertex with no edges. */
  function NewVertex(id: nat): (r: Vertex)
    ensures r.id == id && r.usEdge == {} && r.dsEdge == {}
  {
    Vertex(id, {}, {}, map[], map[])
  }

  /** std::map::operator[] on a weight map: an absent key reads as 0.0. */
  function WeightOf(m: map<nat, real>, k: nat): real
  {
    if k in m then m[k] else 0.0
  }

  /** Every edge endpoint names an existing vertex. */
  ghost predicate EdgesInRange(vs: seq<Vertex>)
  {
    forall a: int, b: nat :: 0 <= a < |vs| && b in vs[a].dsEdge ==> b < |vs|
  }

  ghost predicate UsEdgesInRange(vs: seq<Vertex>)
  {
    forall a: int, b: nat :: 0 <= a < |vs| && b in vs[a].usEdge ==> b < |vs|
  }

  /** Vertex a, when valid, has every downstream edge mirrored by an
    * upstream edge of its target and vice versa, and only valid neighbours. */
  ghost predicate LinkedAt(vs: seq<Vertex>, flags: seq<bool>, a: int)
    requires |flags| == |vs| && 0 <= a < |vs|
  {
    flags[a] ==>
      (forall b :: b in vs[a].dsEdge ==> b < |vs| && flags[b] && a in vs[b].usEdge)
      && (forall b :: b in vs[a].usEdge ==> b < |vs| && flags[b] && a in vs[b].dsEdge)
  }

  /** Among valid vertices the edge sets agree with each other. */
  ghost predicate Linked(vs: seq<Vertex>, flags: seq<bool>)
    requires |flags| == |vs|
  {
    forall a :: 0 <= a < |vs| ==> LinkedAt(vs, flags, a)
  }

  /** The edge sets of a vertex list, without ids and weights. */
  function EdgeSets(vs: seq<Vertex>): (r: seq<(set<nat>, set<nat>)>)
    ensures |r| == |vs| && forall i :: 0 <= i < |vs| ==> r[i] == (vs[i].usEdge, vs[i].dsEdge)
  {
    seq(|vs|, i requires 0 <= i < |vs| => (vs[i].usEdge, vs[i].dsEdge))
  }

  /** The vertex list after AddEdge(from, to, weight). */
  function WithEdge(vs: seq<Vertex>, from: nat, to: nat, w: real): seq<Vertex>
    requires from < |vs| && to < |vs|
  {
    var vs1 := vs[from := vs[from].(dsEdge := vs[from].dsEdge + {to},
                                    dsWeights := vs[from].dsWeights[to := w])];
    vs1[to := vs1[to].(usEdge := vs1[to].usEdge + {from},
                       usWeights := vs1[to].usWeights[from := w])]
  }

  /** The vertex list after RemoveEdge(from, to); the weights stay. */
  function WithoutEdge(vs: seq<Vertex>, from: nat, to: nat): seq<Vertex>
    requires from < |vs| && to < |vs|
  {
    var vs1 := vs[from := vs[from].(dsEdge := vs[from].dsEdge - {to})];
    vs1[to := vs1[to].(usEdge := vs1[to].usEdge - {from})]
  }

  /** The vertex list after RemoveVertex(v): v is erased from both edge
    * sets of every vertex adjacent to it; v keeps its own edge sets. */
  function Detached(vs: seq<Vertex>, v: nat): (r: seq<Vertex>)
    requires v < |vs|
    ensures |r| == |vs|
  {
    var adj := vs[v].usEdge + vs[v].dsEdge;
    seq(|vs|, i requires 0 <= i < |vs| =>
      if i in adj then vs[i].(usEdge := vs[i].usEdge - {v}, dsEdge := vs[i].dsEdge - {v})
      else vs[i])
  }

  /** AddEdge records the edge on both endpoints, and keeps the graph linked
    * when both endpoints are valid. */
  lemma AddEdgeKeepsLinked(vs: seq<Vertex>, flags: seq<bool>, from: nat, to: nat, w: real)
    requires |flags| == |vs| && from < |vs| && to < |vs|
    requires Linked(vs, flags) && flags[from] && flags[to]
    ensures var r := WithEdge(vs, from, to, w);
      Linked(r, flags) && to in r[from].dsEdge && from in r[to].usEdge
      && r[from].dsWeights[to] == w && r[to].usWeights[from] == w
  {
    var r := WithEdge(vs, from, to, w);
    forall a | 0 <= a < |r|
      ensures LinkedAt(r, flags, a)
    {
      assert LinkedAt(vs, flags, a);
      if flags[a] {
        forall b | b in r[a].dsEdge
          ensures b < |r| && flags[b] && a in r[b].usEdge
        {
          if !(a == from && b == to) {
            assert b in vs[a].dsEdge;
          }
        }
        forall b | b in r[a].usEdge
          ensures b < |r| && flags[b] && a in r[b].dsEdge
        {
          if !(a == to && b == from) {
            assert b in vs[a].usEdge;
          }
        }
      }
    }
  }

  /** RemoveEdge erases the edge from both endpoints and keeps the graph
    * linked. */
  lemma RemoveEdgeKeepsLinked(vs: seq<Vertex>, flags: seq<bool>, from: nat, to: nat)
    requires |flags| == |vs| && from < |vs| && to < |vs|
    requires Linked(vs, flags)
    ensures var r := WithoutEdge(vs, from, to);
      Linked(r, flags) && to !in r[from].dsEdge && from !in r[to].usEdge
  {
    var r := WithoutEdge(vs, from, to);
    forall a | 0 <= a < |r|
      ensures LinkedAt(r, flags, a)
    {
      assert LinkedAt(vs, flags, a);
      if flags[a] {
        forall b | b in r[a].dsEdge
          ensures b < |r| && flags[b] && a in r[b].usEdge
        {
          assert b in vs[a].dsEdge;
        }
        forall b | b in r[a].usEdge
          ensures b < |r| && flags[b] && a in r[b].dsEdge
        {
          assert b in vs[a].usEdge;
        }
      }
    }
  }

  /** Removing an edge that AddEdge just introduced restores every edge set. */
  lemma AddRemoveEdgeRoundTrip(vs: seq<Vertex>, from: nat, to: nat, w: real)
    requires from < |vs| && to < |vs|
    requires to !in vs[from].dsEdge && from !in vs[to].usEdge
    ensures EdgeSets(WithoutEdge(WithEdge(vs, from, to, w), from, to)) == EdgeSets(vs)
  {
    var r := WithoutEdge(WithEdge(vs, from, to, w), from, to);
    forall i | 0 <= i < |vs|
      ensures r[i].usEdge == vs[i].usEdge && r[i].dsEdge == vs[i].dsEdge
    {
    }
  }

  /** After RemoveVertex(v) on a linked graph, no valid vertex refers to v
    * any more and the graph, with v flagged invalid, is still linked. */
  lemma DetachedKeepsLinked(vs: seq<Vertex>, flags: seq<bool>, v: nat)
    requires |flags| == |vs| && v < |vs| && Linked(vs, flags) && flags[v]
    ensures var r := Detached(vs, v);
      Linked(r, flags[v := false])
      && forall u :: 0 <= u < |r| && u != v && flags[u] ==> v !in r[u].usEdge && v !in r[u].dsEdge
  {
    var r := Detached(vs, v);
    var f := flags[v := false];
    assert LinkedAt(vs, flags, v);
    forall u | 0 <= u < |r| && u != v && flags[u]
      ensures v !in r[u].usEdge && v !in r[u].dsEdge
    {
      assert LinkedAt(vs, flags, u);
      if v in vs[u].dsEdge {
        assert u in vs[v].usEdge;
      }
      if v in vs[u].usEdge {
        assert u in vs[v].dsEdge;
      }
    }
    forall a | 0 <= a < |r|
      ensures LinkedAt(r, f, a)
    {
      assert LinkedAt(vs, flags, a);
      if f[a] {
        forall b | b in r[a].dsEdge
          ensures b < |r| && f[b] && a in r[b].usEdge
        {
          assert b in vs[a].dsEdge;
        }
        forall b | b in r[a].usEdge
          ensures b < |r| && f[b] && a in r[b].dsEdge
        {
          assert b in vs[a].usEdge;
        }
      }
    }
  }

  /** The vertex list after erasing v from the edge sets of the vertices in
    * `done`: the state of RemoveVertex's loop part way through. */
  function PartlyDetached(vs: seq<Vertex>, v: nat, done: set<nat>): (r: seq<Vertex>)
    ensures |r| == |vs|
  {
    seq(|vs|, i requires 0 <= i < |vs| =>
      if i in done then vs[i].(usEdge := vs[i].usEdge - {v}, dsEdge := vs[i].dsEdge - {v})
      else vs[i])
  }

  /** The indices not yet visited by a depth-first search. */
  function Unvisited(visited: seq<bool>): (r: set<nat>)
    ensures forall i :: i in r <==> 0 <= i < |visited| && !visited[i]
  {
    set i: nat | i < |visited| && !visited[i]
  }

  lemma UnvisitedShrinks(before: seq<bool>, after: seq<bool>, x: nat)
    requires |before| == |after| && x < |after|
    requires forall i :: 0 <= i < |before| && before[i] ==> after[i]
    requires !before[x] && after[x]
    ensures |Unvisited(after)| < |Unvisited(before)|
  {
    assert Unvisited(after) <= Unvisited(before) - {x};
    SubsetCard(Unvisited(after), Unvisited(before) - {x});
  }

  lemma UnvisitedMonotone(before: seq<bool>, after: seq<bool>)
    requires |before| == |after|
    requires forall i :: 0 <= i < |before| && before[i] ==> after[i]
    ensures |Unvisited(after)| <= |Unvisited(before)|
  {
    SubsetCard(Unvisited(after), Unvisited(before));
  }

  lemma {:induction false} SubsetCard(a: set<nat>, b: set<nat>)
    requires a <= b
    ensures |a| <= |b|
    decreases |b|
  {
    if a != {} {
      var x :| x in a;
      SubsetCard(a - {x}, b - {x});
    }
  }

  lemma DistinctAppend(a: seq<nat>, b: seq<nat>)
    requires Distinct(a) && Distinct(b)
    requires forall i :: 0 <= i < |b| ==> b[i] !in a
    ensures Distinct(a + b)
  {
    forall i, j | 0 <= i < j < |a + b|
      ensures (a + b)[i] != (a + b)[j]
    {
      if i < |a| && j >= |a| {
        assert (a + b)[j] == b[j - |a|];
      }
    }
  }

  /** A sequence without repeated elements. */
  predicate Distinct(s: seq<nat>)
  {
    forall i, j :: 0 <= i < j < |s| ==> s[i] != s[j]
  }

  /** vis differs from before exactly by the vertices listed in xs. */
  ghost predicate Marks(vis: seq<bool>, before: seq<bool>, xs: seq<nat>)
  {
    |vis| == |before| && forall x :: 0 <= x < |vis| ==> (vis[x] <==> before[x] || x in xs)
  }

  /** Every downstream neighbour of a vertex in xs is visited. */
  ghost predicate ClosedUnder(vs: seq<Vertex>, xs: seq<nat>, vis: seq<bool>)
  {
    forall x :: x in xs ==> x < |vs| && forall y :: y in vs[x].dsEdge ==> y < |vis| && vis[y]
  }

  lemma MarksCompose(vis: seq<bool>, mid: seq<bool>, before: seq<bool>, xs: seq<nat>, ys: seq<nat>)
    requires Marks(mid, before, xs) && Marks(vis, mid, ys)
    ensures Marks(vis, before, xs + ys)
  {
  }

  lemma ClosedGrow(vs: seq<Vertex>, xs: seq<nat>, vis1: seq<bool>, vis2: seq<bool>)
    requires ClosedUnder(vs, xs, vis1) && |vis1| == |vis2|
    requires forall i :: 0 <= i < |vis1| && vis1[i] ==> vis2[i]
    ensures ClosedUnder(vs, xs, vis2)
  {
  }

  lemma ClosedConcat(vs: seq<Vertex>, xs: seq<nat>, ys: seq<nat>, vis: seq<bool>)
    requires ClosedUnder(vs, xs, vis) && ClosedUnder(vs, ys, vis)
    ensures ClosedUnder(vs, xs + ys, vis)
  {
  }

  lemma ClosedCons(vs: seq<Vertex>, x: nat, xs: seq<nat>, vis: seq<bool>)
    requires ClosedUnder(vs, xs, vis) && x < |vs|
    requires forall y :: y in vs[x].dsEdge ==> y < |vis| && vis[y]
    ensures ClosedUnder(vs, [x] + xs, vis)
  {
  }

  /** What DFSAlgorithm(traversal, visited, cur) establishes, with `before`
    * the visited flags on entry and `vis` those on exit. */
  ghost predicate DfsPost(vs: seq<Vertex>, traversal: seq<nat>, cur: nat,
                          before: seq<bool>, t: seq<nat>, vis: seq<bool>)
  {
    |before| == |vs| && cur < |vs|
    && |t| > |traversal| && t[..|traversal|] == traversal && t[|traversal|] == cur
    && Distinct(t[|traversal|..])
    && (forall i :: |traversal| < i < |t| ==> t[i] < |before| && !before[t[i]])
    && Marks(vis, before, t[|traversal|..])
    && ClosedUnder(vs, t[|traversal|..], vis)
  }

  /** The loop invariant of DFSAlgorithm: `remaining` holds the downstream
    * neighbours of cur not handled yet. */
  ghost predicate DfsInv(vs: seq<Vertex>, traversal: seq<nat>, cur: nat,
                         before: seq<bool>, t: seq<nat>, vis: seq<bool>, remaining: set<nat>)
  {
    |before| == |vs| && cur < |vs| && remaining <= vs[cur].dsEdge
    && |t| > |traversal| && t[..|traversal|] == traversal && t[|traversal|] == cur
    && Distinct(t[|traversal|..])
    && (forall i :: |traversal| < i < |t| ==> t[i] < |before| && !before[t[i]])
    && Marks(vis, before, t[|traversal|..])
    && ClosedUnder(vs, t[|traversal| + 1..], vis)
    && (forall y :: y in vs[cur].dsEdge && y !in remaining ==> y < |vis| && vis[y])
  }

  lemma DfsStart(vs: seq<Vertex>, traversal: seq<nat>, cur: nat, before: seq<bool>, vis: seq<bool>)
    requires |before| == |vs| && cur < |vs| && vis == before[cur := true]
    ensures DfsInv(vs, traversal, cur, before, traversal + [cur], vis, vs[cur].dsEdge)
  {
    var t := traversal + [cur];
    assert t[|traversal|..] == [cur];
    assert t[|traversal| + 1..] == [];
  }

  lemma DfsSkip(vs: seq<Vertex>, traversal: seq<nat>, cur: nat, before: seq<bool>,
                t: seq<nat>, vis: seq<bool>, remaining: set<nat>, v: nat)
    requires DfsInv(vs, traversal, cur, before, t, vis, remaining)
    requires v in remaining && v < |vis| && vis[v]
    ensures DfsInv(vs, traversal, cur, before, t, vis, remaining - {v})
  {
  }

  lemma DfsStep(vs: seq<Vertex>, traversal: seq<nat>, cur: nat, before: seq<bool>,
                tMid: seq<nat>, mid: seq<bool>, remaining: set<nat>, v: nat,
                t: seq<nat>, vis: seq<bool>)
    requires DfsInv(vs, traversal, cur, before, tMid, mid, remaining)
    requires v in remaining && v < |mid| && !mid[v]
    requires DfsPost(vs, tMid, v, mid, t, vis)
    ensures DfsInv(vs, traversal, cur, before, t, vis, remaining - {v})
  {
    DfsStepOrder(vs, traversal, cur, before, tMid, mid, remaining, v, t, vis);
    DfsStepClosed(vs, traversal, cur, before, tMid, mid, remaining, v, t, vis);
  }

  /** The recursive call extends the traversal with fresh vertices only. */
  lemma DfsStepOrder(vs: seq<Vertex>, traversal: seq<nat>, cur: nat, before: seq<bool>,
                     tMid: seq<nat>, mid: seq<bool>, remaining: set<nat>, v: nat,
                     t: seq<nat>, vis: seq<bool>)
    requires DfsInv(vs, traversal, cur, before, tMid, mid, remaining)
    requires v in remaining && v < |mid| && !mid[v]
    requires DfsPost(vs, tMid, v, mid, t, vis)
    ensures |t| > |traversal| && t[..|traversal|] == traversal && t[|traversal|] == cur
    ensures Distinct(t[|traversal|..]) && Marks(vis, before, t[|traversal|..])
    ensures forall i :: |traversal| < i < |t| ==> t[i] < |before| && !before[t[i]]
  {
    var base := |traversal|;
    var added := t[|tMid|..];
    assert t[base..] == tMid[base..] + added;
    assert forall i :: 0 <= i < |added| ==> !mid[added[i]];
    assert forall i :: 0 <= i < |added| ==> added[i] !in tMid[base..];
    DistinctAppend(tMid[base..], added);
    MarksCompose(vis, mid, before, tMid[base..], added);
    assert t[..base] == tMid[..base];
    forall i | base < i < |t|
      ensures t[i] < |before| && !before[t[i]]
    {
      if i >= |tMid| {
        assert t[i] == added[i - |tMid|];
      } else {
        assert t[i] == tMid[i];
      }
    }
  }

  /** After the recursive call every vertex listed after cur, and every
    * handled neighbour of cur, has its neighbours visited. */
  lemma DfsStepClosed(vs: seq<Vertex>, traversal: seq<nat>, cur: nat, before: seq<bool>,
                      tMid: seq<nat>, mid: seq<bool>, remaining: set<nat>, v: nat,
                      t: seq<nat>, vis: seq<bool>)
    requires DfsInv(vs, traversal, cur, before, tMid, mid, remaining)
    requires v in remaining && v < |mid| && !mid[v]
    requires DfsPost(vs, tMid, v, mid, t, vis)
    ensures ClosedUnder(vs, t[|traversal| + 1..], vis)
    ensures forall y :: y in vs[cur].dsEdge && y !in remaining - {v} ==> y < |vis| && vis[y]
  {
    var base := |traversal|;
    var added := t[|tMid|..];
    assert t[base + 1..] == tMid[base + 1..] + added;
    ClosedGrow(vs, tMid[base + 1..], mid, vis);
    ClosedConcat(vs, tMid[base + 1..], added, vis);
    assert added[0] == v;
  }

  lemma DfsDone(vs: seq<Vertex>, traversal: seq<nat>, cur: nat, before: seq<bool>,
                t: seq<nat>, vis: seq<bool>)
    requires DfsInv(vs, traversal, cur, before, t, vis, {})
    ensures DfsPost(vs, traversal, cur, before, t, vis)
  {
    var base := |traversal|;
    assert t[base..] == [cur] + t[base + 1..];
    ClosedCons(vs, cur, t[base + 1..], vis);
  }

  /** The vertices whose discovery time is still -1. */
  function Undiscovered(disc: seq<int>): (r: set<nat>)
    ensures forall i :: i in r <==> 0 <= i < |disc| && disc[i] == -1
  {
    set i: nat | i < |disc| && disc[i] == -1
  }

  lemma UndiscoveredShrinks(before: seq<int>, after: seq<int>, x: nat)
    requires |before| == |after| && x < |after| && before[x] == -1 && after[x] != -1
    requires forall i :: 0 <= i < |before| && before[i] != -1 ==> after[i] != -1
    ensures |Undiscovered(after)| < |Undiscovered(before)|
  {
    assert Undiscovered(after) <= Undiscovered(before) - {x};
    SubsetCard(Undiscovered(after), Undiscovered(before) - {x});
  }

  lemma UndiscoveredMonotone(before: seq<int>, after: seq<int>)
    requires |before| == |after|
    requires forall i :: 0 <= i < |before| && before[i] != -1 ==> after[i] != -1
    ensures |Undiscovered(after)| <= |Undiscovered(before)|
  {
    SubsetCard(Undiscovered(after), Undiscovered(before));
  }

  function Min(a: int, b: int): int
  {
    if a <= b then a else b
  }

  /** Every component has more than one vertex, each below n. */
  ghost predicate ComponentsOver(sccs: seq<seq<nat>>, n: nat)
  {
    forall i :: 0 <= i < |sccs| ==> |sccs[i]| > 1 && forall j :: 0 <= j < |sccs[i]| ==> sccs[i][j] < n
  }

  /** Every vertex is valid. */
  predicate AllValid(flags: seq<bool>)
  {
    forall i :: 0 <= i < |flags| ==> flags[i]
  }

  /** Downstream and upstream edges mirror each other over the whole list. */
  ghost predicate Symmetric(vs: seq<Vertex>)
  {
    EdgesInRange(vs) && UsEdgesInRange(vs)
    && forall a: nat, b: nat :: a < |vs| && b < |vs| ==> (b in vs[a].dsEdge <==> a in vs[b].usEdge)
  }

  lemma LinkedAllValidSymmetric(vs: seq<Vertex>, flags: seq<bool>)
    requires |flags| == |vs| && AllValid(flags) && Linked(vs, flags)
    ensures Symmetric(vs)
  {
    forall a: int, b: nat | 0 <= a < |vs| && b in vs[a].dsEdge
      ensures b < |vs|
    {
      assert LinkedAt(vs, flags, a);
    }
    forall a: int, b: nat | 0 <= a < |vs| && b in vs[a].usEdge
      ensures b < |vs|
    {
      assert LinkedAt(vs, flags, a);
    }
    forall a: nat, b: nat | a < |vs| && b < |vs|
      ensures b in vs[a].dsEdge <==> a in vs[b].usEdge
    {
      assert LinkedAt(vs, flags, a) && LinkedAt(vs, flags, b);
    }
  }

  /** The number of downstream edges over all vertices. */
  function DsTotal(vs: seq<Vertex>): nat
  {
    if vs == [] then 0 else DsTotal(vs[..|vs| - 1]) + |vs[|vs| - 1].dsEdge|
  }

  lemma {:induction false} DsTotalUpdate(vs: seq<Vertex>, i: nat, v: Vertex)
    requires i < |vs|
    ensures DsTotal(vs[i := v]) + |vs[i].dsEdge| == DsTotal(vs) + |v.dsEdge|
    decreases |vs|
  {
    var w := vs[i := v];
    if i == |vs| - 1 {
      assert w[..|w| - 1] == vs[..|vs| - 1];
    } else {
      assert w[..|w| - 1] == vs[..|vs| - 1][i := v];
      DsTotalUpdate(vs[..|vs| - 1], i, v);
    }
  }

  /** The ids of the listed vertices. */
  function Ids(vs: seq<Vertex>, order: seq<nat>): (r: seq<nat>)
    requires forall k :: 0 <= k < |order| ==> order[k] < |vs|
    ensures |r| == |order| && forall k :: 0 <= k < |order| ==> r[k] == vs[order[k]].id
  {
    if order == [] then [] else Ids(vs, order[..|order| - 1]) + [vs[order[|order| - 1]].id]
  }

  /** Every listed vertex comes after all of its upstream neighbours. */
  ghost predicate InNeighboursEarlier(vs: seq<Vertex>, order: seq<nat>)
  {
    forall j :: 0 <= j < |order| ==>
      order[j] < |vs| && forall a :: a in vs[order[j]].usEdge ==> a in order[..j]
  }

  /** Every edge between two listed vertices points forward in the list. */
  ghost predicate EdgesForward(vs: seq<Vertex>, order: seq<nat>)
    requires forall k :: 0 <= k < |order| ==> order[k] < |vs|
  {
    forall i, j :: 0 <= i < |order| && 0 <= j < |order| && order[j] in vs[order[i]].dsEdge ==> i < j
  }

  /** The state of Kahn's algorithm: `cur` is the working copy of `orig`
    * with some edges erased, `S` the stack of vertices free of incoming
    * edges, `order` the vertices output so far, and `remaining` the
    * downstream edges of the last output vertex not yet erased. */
  ghost predicate KahnBase(orig: seq<Vertex>, cur: seq<Vertex>, S: seq<nat>, order: seq<nat>,
                           remaining: set<nat>)
  {
    |cur| == |orig| && EdgesInRange(orig)
    && (forall i :: 0 <= i < |cur| ==>
          (cur[i].id == orig[i].id && cur[i].dsEdge <= orig[i].dsEdge && cur[i].usEdge <= orig[i].usEdge))
    && (forall k :: 0 <= k < |S| ==> S[k] < |cur| && cur[S[k]].usEdge == {})
    && (forall k :: 0 <= k < |order| ==> order[k] < |cur| && cur[order[k]].usEdge == {})
    && (order == [] ==> remaining == {})
    && (order != [] ==> cur[order[|order| - 1]].dsEdge == remaining)
  }

  /** On a symmetric graph, in addition: no vertex is output or stacked
    * twice, the output respects the edges, and the edges erased are exactly
    * those leaving output vertices. */
  ghost predicate KahnSym(orig: seq<Vertex>, cur: seq<Vertex>, S: seq<nat>, order: seq<nat>,
                          remaining: set<nat>)
    requires KahnBase(orig, cur, S, order, remaining)
  {
    Symmetric(orig) && Symmetric(cur)
    && Distinct(order) && Distinct(S) && (forall k :: 0 <= k < |S| ==> S[k] !in order)
    && InNeighboursEarlier(orig, order)
    && forall a :: 0 <= a < |cur| ==>
         (cur[a].dsEdge == (if a !in order then orig[a].dsEdge
                            else if a == order[|order| - 1] then remaining else {}))
  }

  ghost predicate KahnInv(orig: seq<Vertex>, cur: seq<Vertex>, S: seq<nat>, order: seq<nat>,
                          remaining: set<nat>, sym: bool)
  {
    KahnBase(orig, cur, S, order, remaining) && (sym ==> KahnSym(orig, cur, S, order, remaining))
  }

  lemma KahnInit(orig: seq<Vertex>, S: seq<nat>, sym: bool)
    requires EdgesInRange(orig) && (sym ==> Symmetric(orig))
    requires forall k :: 0 <= k < |S| ==> S[k] < |orig| && orig[S[k]].usEdge == {}
    requires forall k, j :: 0 <= k < j < |S| ==> S[k] < S[j]
    ensures KahnInv(orig, orig, S, [], {}, sym)
  {
  }

  /** Popping the top of the stack and outputting it keeps the state. */
  lemma KahnPop(orig: seq<Vertex>, cur: seq<Vertex>, S: seq<nat>, order: seq<nat>, sym: bool)
    requires KahnInv(orig, cur, S, order, {}, sym) && S != []
    ensures var n := S[|S| - 1];
      KahnInv(orig, cur, S[..|S| - 1], order + [n], cur[n].dsEdge, sym)
  {
    var n := S[|S| - 1];
    assert KahnBase(orig, cur, S[..|S| - 1], order + [n], cur[n].dsEdge);
    if sym {
      KahnPopSym(orig, cur, S, order);
    }
  }

  lemma KahnPopSym(orig: seq<Vertex>, cur: seq<Vertex>, S: seq<nat>, order: seq<nat>)
    requires KahnBase(orig, cur, S, order, {}) && KahnSym(orig, cur, S, order, {}) && S != []
    requires KahnBase(orig, cur, S[..|S| - 1], order + [S[|S| - 1]], cur[S[|S| - 1]].dsEdge)
    ensures KahnSym(orig, cur, S[..|S| - 1], order + [S[|S| - 1]], cur[S[|S| - 1]].dsEdge)
  {
    var n := S[|S| - 1];
    var o := order + [n];
    assert n !in order;
    KahnPopEarlier(orig, order, n);
    assert Distinct(o);
  }

  /** A vertex without upstream edges left may follow all output vertices. */
  lemma KahnPopEarlier(orig: seq<Vertex>, order: seq<nat>, n: nat)
    requires Symmetric(orig) && n < |orig| && InNeighboursEarlier(orig, order)
    requires forall a :: 0 <= a < |orig| && a !in order ==> n !in orig[a].dsEdge
    ensures InNeighboursEarlier(orig, order + [n])
  {
    var o := order + [n];
    assert o[..|order|] == order;
    forall a | a in orig[n].usEdge
      ensures a in order
    {
      assert n in orig[a].dsEdge;
    }
    forall j | 0 <= j < |o|
      ensures o[j] < |orig| && forall a :: a in orig[o[j]].usEdge ==> a in o[..j]
    {
      if j < |order| {
        assert o[..j] == order[..j];
      }
    }
  }

  /** cur is before with m erased from node's downstream edges and gone
    * erased from m's upstream edges; the edge node -> m is erased on both
    * endpoints when gone is node. */
  ghost predicate ErasedEdge(before: seq<Vertex>, cur: seq<Vertex>, node: nat, m: nat, gone: nat)
  {
    |cur| == |before| && forall i :: 0 <= i < |cur| ==>
      (cur[i].id == before[i].id
       && cur[i].dsEdge == (if i == node then before[i].dsEdge - {m} else before[i].dsEdge)
       && cur[i].usEdge == (if i == m then before[i].usEdge - {gone} else before[i].usEdge))
  }

  lemma ErasedEdgeSymmetric(before: seq<Vertex>, cur: seq<Vertex>, node: nat, m: nat)
    requires ErasedEdge(before, cur, node, m, node)
    ensures Symmetric(before) ==> Symmetric(cur)
  {
    if !Symmetric(before) {
      return;
    }
    forall a: nat, b: nat | a < |cur| && b < |cur|
      ensures b in cur[a].dsEdge <==> a in cur[b].usEdge
    {
      assert b in before[a].dsEdge <==> a in before[b].usEdge;
    }
  }

  /** Erasing the edge node -> m from the working copy, and pushing m when it
    * has no incoming edge left, keeps the state. */
  lemma KahnErase(orig: seq<Vertex>, before: seq<Vertex>, cur: seq<Vertex>, S: seq<nat>,
                  order: seq<nat>, remaining: set<nat>, m: nat, gone: nat, sym: bool)
    requires KahnInv(orig, before, S, order, remaining, sym) && order != []
    requires m in remaining && ErasedEdge(before, cur, order[|order| - 1], m, gone)
    requires sym ==> gone == order[|order| - 1]
    ensures m < |cur|
    ensures KahnInv(orig, cur, if cur[m].usEdge == {} then S + [m] else S, order, remaining - {m}, sym)
  {
    var node := order[|order| - 1];
    assert m in orig[node].dsEdge;
    KahnEraseBase(orig, before, cur, S, order, remaining, m, gone);
    if sym {
      KahnEraseSym(orig, before, cur, S, order, remaining, m);
    }
  }

  lemma KahnEraseBase(orig: seq<Vertex>, before: seq<Vertex>, cur: seq<Vertex>, S: seq<nat>,
                      order: seq<nat>, remaining: set<nat>, m: nat, gone: nat)
    requires KahnBase(orig, before, S, order, remaining) && order != [] && m < |before|
    requires m in remaining && ErasedEdge(before, cur, order[|order| - 1], m, gone)
    ensures KahnBase(orig, cur, if cur[m].usEdge == {} then S + [m] else S, order, remaining - {m})
  {
  }

  lemma KahnEraseSym(orig: seq<Vertex>, before: seq<Vertex>, cur: seq<Vertex>, S: seq<nat>,
                     order: seq<nat>, remaining: set<nat>, m: nat)
    requires KahnBase(orig, before, S, order, remaining) && KahnSym(orig, before, S, order, remaining)
    requires order != [] && m < |before| && m in remaining
    requires ErasedEdge(before, cur, order[|order| - 1], m, order[|order| - 1])
    requires KahnBase(orig, cur, if cur[m].usEdge == {} then S + [m] else S, order, remaining - {m})
    ensures KahnSym(orig, cur, if cur[m].usEdge == {} then S + [m] else S, order, remaining - {m})
  {
    var node := order[|order| - 1];
    var S' := if cur[m].usEdge == {} then S + [m] else S;
    ErasedEdgeSymmetric(before, cur, node, m);
    assert node in before[m].usEdge;
    if cur[m].usEdge == {} {
      assert m !in order;
      assert forall k :: 0 <= k < |S| ==> S[k] != m;
    }
    assert Distinct(S');
  }

  lemma KahnDone(orig: seq<Vertex>, order: seq<nat>)
    requires Symmetric(orig) && Distinct(order) && InNeighboursEarlier(orig, order)
    ensures EdgesForward(orig, order)
  {
    forall i, j | 0 <= i < |order| && 0 <= j < |order| && order[j] in orig[order[i]].dsEdge
      ensures i < j
    {
      assert order[i] in orig[order[j]].usEdge;
      assert order[i] in order[..j];
      var k :| 0 <= k < j && order[k] == order[i];
    }
  }

  /** The working copy after node_n->ds_edge.erase(m) and
    * node_m->us_edge.erase(n), where n is the id of the output vertex while
    * the edge sets hold indices: the edge is erased on both endpoints only
    * when that id is the vertex's index. */
  function EraseEdge(vs: seq<Vertex>, node: nat, m: nat): (r: seq<Vertex>)
    requires node < |vs| && m < |vs| && m in vs[node].dsEdge
    ensures ErasedEdge(vs, r, node, m, vs[node].id)
    ensures DsTotal(r) + 1 == DsTotal(vs)
    ensures vs[node].id == node && Symmetric(vs) ==> Symmetric(r)
  {
    var mid := vs[node := vs[node].(dsEdge := vs[node].dsEdge - {m})];
    DsTotalUpdate(vs, node, mid[node]);
    var r := mid[m := mid[m].(usEdge := mid[m].usEdge - {vs[node].id})];
    DsTotalUpdate(mid, m, r[m]);
    if vs[node].id == node then ErasedEdgeSymmetric(vs, r, node, m); r else r
  }

  /** The erase step as intended: the index of the output vertex leaves m's
    * upstream edges, so the copy stays mirrored whatever the ids. */
  function EraseEdgeAtIndex(vs: seq<Vertex>, node: nat, m: nat): (r: seq<Vertex>)
    requires node < |vs| && m < |vs| && m in vs[node].dsEdge
    ensures ErasedEdge(vs, r, node, m, node)
    ensures Symmetric(vs) ==> Symmetric(r)
  {
    var mid := vs[node := vs[node].(dsEdge := vs[node].dsEdge - {m})];
    var r := mid[m := mid[m].(usEdge := mid[m].usEdge - {node})];
    ErasedEdgeSymmetric(vs, r, node, m);
    r
  }

  /** With ids other than indices the erase step as written leaves the edge
    * in the target's upstream set: in the graph 5 -> 6 (indices 0 -> 1) the
    * target keeps its incoming edge, so Kahn's algorithm never frees it. */
  lemma EraseEdgeByIdKeepsUpstream()
    ensures var vs := [NewVertex(5).(dsEdge := {1}), NewVertex(6).(usEdge := {0})];
            EraseEdge(vs, 0, 1)[1].usEdge == {0} && EraseEdgeAtIndex(vs, 0, 1)[1].usEdge == {}
  {
    var vs := [NewVertex(5).(dsEdge := {1}), NewVertex(6).(usEdge := {0})];
    assert EraseEdge(vs, 0, 1)[1].usEdge == {0} - {5};
    assert EraseEdgeAtIndex(vs, 0, 1)[1].usEdge == {0} - {0};
  }

  /** The inner loop of Kahn's algorithm: erase every downstream edge of the
    * vertex just output, in ascending order of target, pushing each target
    * left without incoming edges. */
  method ReleaseDownstream(ghost orig: seq<Vertex>, cur: seq<Vertex>, S: seq<nat>,
                           ghost order: seq<nat>, node: nat, ghost sym: bool)
    returns (cur': seq<Vertex>, S': seq<nat>)
    requires order != [] && order[|order| - 1] == node && node < |cur|
    requires KahnInv(orig, cur, S, order, cur[node].dsEdge, sym) && (sym ==> IdsAreIndices(orig))
    ensures KahnInv(orig, cur', S', order, {}, sym)
    ensures DsTotal(cur') + |S'| <= DsTotal(cur) + |S|
  {
    cur', S' := cur, S;
    var nodesM := cur[node].dsEdge;
    var remaining := nodesM;
    while remaining != {}
      invariant remaining <= nodesM
      invariant KahnInv(orig, cur', S', order, remaining, sym)
      invariant DsTotal(cur') + |nodesM| == DsTotal(cur) + |remaining|
      invariant |S'| + |remaining| <= |S| + |nodesM|
      decreases |remaining|
    {
      var m := SetMin(remaining);
      ghost var before := cur';
      assert m < |cur'| by {
        assert m in orig[node].dsEdge;
      }
      cur' := EraseEdge(cur', node, m);
      KahnErase(orig, before, cur', S', order, remaining, m, before[node].id, sym);
      if cur'[m].usEdge == {} {
        S' := S' + [m];
      }
      remaining := remaining - {m};
    }
  }

  /** Vertex i has id i, as for vertices added with AddVertex(). */
  predicate IdsAreIndices(vs: seq<Vertex>)
  {
    forall i :: 0 <= i < |vs| ==> vs[i].id == i
  }

  /** The number of valid vertices (VertexAccessor::GetNumValid). */
  function CountTrue(flags: seq<bool>): (r: nat)
    ensures r <= |flags|
  {
    if flags == [] then 0 else CountTrue(flags[..|flags| - 1]) + (if flags[|flags| - 1] then 1 else 0)
  }

  lemma {:induction false} CountTrueZero(flags: seq<bool>)
    ensures CountTrue(flags) == 0 <==> forall i :: 0 <= i < |flags| ==> !flags[i]
    decreases |flags|
  {
    if flags != [] {
      var f := flags[..|flags| - 1];
      CountTrueZero(f);
      assert forall i :: 0 <= i < |f| ==> f[i] == flags[i];
    }
  }

  lemma {:induction false} CountTrueClear(flags: seq<bool>, v: nat)
    requires v < |flags| && flags[v]
    ensures CountTrue(flags[v := false]) + 1 == CountTrue(flags)
    decreases |flags|
  {
    var g := flags[v := false];
    if v == |flags| - 1 {
      assert g[..|g| - 1] == flags[..|flags| - 1];
    } else {
      assert g[..|g| - 1] == flags[..|flags| - 1][v := false];
      CountTrueClear(flags[..|flags| - 1], v);
    }
  }

  /** Sum of the weights recorded for the edges in s. */
  function WeightSum(m: map<nat, real>, s: set<nat>): real
    decreases |s|
  {
    if s == {} then 0.0 else var x := SetMin(s); WeightOf(m, x) + WeightSum(m, s - {x})
  }

  /** The Eades-Lin-Smyth delta of a vertex: outgoing minus incoming weight. */
  function Delta(v: Vertex): real
  {
    WeightSum(v.dsWeights, v.dsEdge) - WeightSum(v.usWeights, v.usEdge)
  }

  /** The bookkeeping of the greedy feedback-arc-set sequence: s1 and s2
    * hold each removed vertex once, and exactly the vertices valid at the
    * start and removed since. */
  ghost predicate FasInv(flags0: seq<bool>, flags: seq<bool>, s1: seq<nat>, s2: seq<nat>)
  {
    |flags| == |flags0|
    && (forall v :: 0 <= v < |flags| && flags[v] ==> flags0[v])
    && Distinct(s1) && Distinct(s2) && (forall i :: 0 <= i < |s1| ==> s1[i] !in s2)
    && forall v: nat :: (v in s1 || v in s2) <==> (v < |flags| && flags0[v] && !flags[v])
  }

  lemma FasRemoveFront(flags0: seq<bool>, flags: seq<bool>, s1: seq<nat>, s2: seq<nat>, v: nat)
    requires FasInv(flags0, flags, s1, s2) && v < |flags| && flags[v]
    ensures FasInv(flags0, flags[v := false], s1 + [v], s2)
  {
  }

  lemma FasRemoveBack(flags0: seq<bool>, flags: seq<bool>, s1: seq<nat>, s2: seq<nat>, v: nat)
    requires FasInv(flags0, flags, s1, s2) && v < |flags| && flags[v]
    ensures FasInv(flags0, flags[v := false], s1, s2 + [v])
  {
  }

  /** No vertex has an edge to itself. */
  ghost predicate NoSelfLoops(vs: seq<Vertex>)
  {
    forall i :: 0 <= i < |vs| ==> i !in vs[i].dsEdge
  }

  /** No valid vertex is a sink. */
  ghost predicate NoSinks(vs: seq<Vertex>, flags: seq<bool>)
    requires |flags| == |vs|
  {
    forall i :: 0 <= i < |vs| && flags[i] ==> vs[i].dsEdge != {}
  }

  lemma DetachedNoSelfLoops(vs: seq<Vertex>, v: nat)
    requires v < |vs| && NoSelfLoops(vs)
    ensures NoSelfLoops(Detached(vs, v))
  {
  }

  /** Removing a source on a linked graph creates no sink. */
  lemma SourceRemovalKeepsNoSinks(vs: seq<Vertex>, flags: seq<bool>, u: nat)
    requires |flags| == |vs| && u < |vs| && flags[u] && vs[u].usEdge == {}
    requires Linked(vs, flags) && NoSinks(vs, flags)
    ensures NoSinks(Detached(vs, u), flags[u := false])
  {
    var r := Detached(vs, u);
    forall i | 0 <= i < |r| && flags[u := false][i]
      ensures r[i].dsEdge != {}
    {
      assert LinkedAt(vs, flags, i);
      assert u !in vs[i].dsEdge;
    }
  }

  /** Removing a vertex that is not a sink from a linked graph without
    * self-loops leaves a valid vertex behind: one of its targets. */
  lemma NonSinkRemovalLeavesValid(vs: seq<Vertex>, flags: seq<bool>, v: nat)
    requires |flags| == |vs| && v < |vs| && flags[v] && vs[v].dsEdge != {}
    requires Linked(vs, flags) && NoSelfLoops(vs)
    ensures CountTrue(flags[v := false]) > 0
  {
    var w :| w in vs[v].dsEdge;
    assert LinkedAt(vs, flags, v);
    CountTrueZero(flags[v := false]);
    assert flags[v := false][w];
  }

  /** The other reading of the header's sink and source counts: a sink has
    * no downstream edge but at least one upstream edge, a source the
    * reverse, so a vertex without edges is neither. */
  ghost predicate StrictSink(vs: seq<Vertex>, flags: seq<bool>, i: int)
    requires |flags| == |vs|
  {
    0 <= i < |vs| && flags[i] && vs[i].dsEdge == {} && vs[i].usEdge != {}
  }

  ghost predicate StrictSource(vs: seq<Vertex>, flags: seq<bool>, i: int)
    requires |flags| == |vs|
  {
    0 <= i < |vs| && flags[i] && vs[i].usEdge == {} && vs[i].dsEdge != {}
  }

  /** While a strict sink b exists, removing any vertex without downstream
    * edges leaves a valid vertex behind: an upstream neighbour of b, which
    * has a downstream edge and so is not the one removed. */
  lemma StrictSinkRemovalLeavesValid(vs: seq<Vertex>, flags: seq<bool>, b: nat, u: nat)
    requires |flags| == |vs| && Linked(vs, flags) && StrictSink(vs, flags, b)
    requires u < |vs| && vs[u].dsEdge == {}
    ensures CountTrue(flags[u := false]) > 0
  {
    var c :| c in vs[b].usEdge;
    assert LinkedAt(vs, flags, b);
    CountTrueZero(flags[u := false]);
    assert flags[u := false][c];
  }

  /** While a strict source b exists, removing any vertex without upstream
    * edges leaves a downstream neighbour of b valid. */
  lemma StrictSourceRemovalLeavesValid(vs: seq<Vertex>, flags: seq<bool>, b: nat, u: nat)
    requires |flags| == |vs| && Linked(vs, flags) && StrictSource(vs, flags, b)
    requires u < |vs| && vs[u].usEdge == {}
    ensures CountTrue(flags[u := false]) > 0
  {
    var w :| w in vs[b].dsEdge;
    assert LinkedAt(vs, flags, b);
    CountTrueZero(flags[u := false]);
    assert flags[u := false][w];
  }

  /** std::find: the index of the first occurrence of x, or |s| when x
    * does not occur. */
  function Find(s: seq<nat>, x: nat): (r: nat)
    ensures r <= |s| && (r < |s| ==> s[r] == x)
    ensures forall j :: 0 <= j < r ==> s[j] != x
    ensures r == |s| <==> x !in s
  {
    if s == [] then 0 else if s[0] == x then 0 else 1 + Find(s[1..], x)
  }

  lemma FindDistinct(s: seq<nat>, c: nat)
    requires Distinct(s) && c < |s|
    ensures Find(s, s[c]) == c
  {
  }

  /** The elements of a sequence, as a set. */
  function Elems(s: seq<nat>): (r: set<nat>)
    ensures forall x :: x in r <==> x in s
  {
    if s == [] then {} else Elems(s[..|s| - 1]) + {s[|s| - 1]}
  }

  lemma {:induction false} DistinctCard(s: seq<nat>)
    requires Distinct(s)
    ensures |Elems(s)| == |s|
    decreases |s|
  {
    if s != [] {
      var t := s[..|s| - 1];
      assert Distinct(t);
      DistinctCard(t);
      assert s[|s| - 1] !in t;
    }
  }

  /** The indices 0 .. k-1. */
  function Below(k: nat): (r: set<nat>)
    ensures |r| == k && forall x: nat :: x in r <==> x < k
  {
    if k == 0 then {} else Below(k - 1) + {k - 1}
  }

  /** A sequence listing each of 0 .. k-1 once has length k. */
  lemma DistinctLength(s: seq<nat>, k: nat)
    requires Distinct(s) && forall v: nat :: v in s <==> v < k
    ensures |s| == k
  {
    DistinctCard(s);
    assert Elems(s) == Below(k);
  }

  /** The targets of the removed pairs that leave a. */
  function RemovedTargets(removed: seq<(nat, nat)>, a: nat): set<nat>
  {
    set p | p in removed && p.0 == a :: p.1
  }

  /** The sources of the removed pairs that enter b. */
  function RemovedSources(removed: seq<(nat, nat)>, b: nat): set<nat>
  {
    set p | p in removed && p.1 == b :: p.0
  }

  /** cur is orig with exactly the listed edges erased on both endpoints;
    * ids and weights are untouched. */
  ghost predicate EdgesRemoved(orig: seq<Vertex>, cur: seq<Vertex>, removed: seq<(nat, nat)>)
  {
    |cur| == |orig| && forall a :: 0 <= a < |cur| ==>
      (cur[a].id == orig[a].id && cur[a].dsWeights == orig[a].dsWeights
       && cur[a].usWeights == orig[a].usWeights
       && cur[a].dsEdge == orig[a].dsEdge - RemovedTargets(removed, a)
       && cur[a].usEdge == orig[a].usEdge - RemovedSources(removed, a))
  }

  lemma EdgesRemovedStep(orig: seq<Vertex>, cur: seq<Vertex>, removed: seq<(nat, nat)>, u: nat, v: nat)
    requires EdgesRemoved(orig, cur, removed) && u < |cur| && v < |cur|
    ensures EdgesRemoved(orig, WithoutEdge(cur, u, v), removed + [(u, v)])
  {
    var r := removed + [(u, v)];
    forall a: nat
      ensures RemovedTargets(r, a) == RemovedTargets(removed, a) + (if a == u then {v} else {})
      ensures RemovedSources(r, a) == RemovedSources(removed, a) + (if a == v then {u} else {})
    {
    }
  }

  /** The edges of the temporary graph are edges of the component:
    * local index j stands for subDG[j]. */
  ghost predicate TgInduced(tg: seq<Vertex>, subDG: seq<nat>, vs: seq<Vertex>)
  {
    forall i :: 0 <= i < |tg| ==>
      (i < |subDG| && subDG[i] < |vs|
       && forall j :: j in tg[i].dsEdge ==> j < |subDG| && subDG[j] in vs[subDG[i]].dsEdge)
  }

  /** Every edge from one of the first `upto` component vertices to a vertex
    * of the component is an edge of the temporary graph, between the
    * positions where the two are first listed. */
  ghost predicate TgCovers(tg: seq<Vertex>, subDG: seq<nat>, vs: seq<Vertex>, upto: nat)
  {
    forall i, v ::
      (0 <= i < upto && i < |tg| && i < |subDG| && subDG[i] < |vs| && v in vs[subDG[i]].dsEdge
       && Find(subDG, v) < |subDG|) ==> Find(subDG, v) in tg[i].dsEdge
  }

  /** Every edge from component vertex mu to a vertex of `done` that lies in
    * the component is an edge of the temporary graph. */
  ghost predicate CoversRow(tg: seq<Vertex>, subDG: seq<nat>, mu: nat, done: set<nat>)
  {
    mu < |tg| && forall x :: x in done && Find(subDG, x) < |subDG| ==> Find(subDG, x) in tg[mu].dsEdge
  }

  /** Adding the edge mu -> Find(subDG, v) covers v and keeps what was covered. */
  lemma CoversAdd(tg: seq<Vertex>, subDG: seq<nat>, vs: seq<Vertex>, mu: nat, v: nat, w: real, done: set<nat>)
    requires TgCovers(tg, subDG, vs, mu) && CoversRow(tg, subDG, mu, done) && Find(subDG, v) < |tg|
    ensures TgCovers(WithEdge(tg, mu, Find(subDG, v), w), subDG, vs, mu)
    ensures CoversRow(WithEdge(tg, mu, Find(subDG, v), w), subDG, mu, done + {v})
  {
    var tg' := WithEdge(tg, mu, Find(subDG, v), w);
    assert forall i :: 0 <= i < |tg| ==> tg[i].dsEdge <= tg'[i].dsEdge;
  }

  /** Once every downstream edge of subDG[mu] is covered, the first mu + 1
    * component vertices are. */
  lemma CoversNext(tg: seq<Vertex>, subDG: seq<nat>, vs: seq<Vertex>, mu: nat)
    requires mu < |subDG| && subDG[mu] < |vs|
    requires TgCovers(tg, subDG, vs, mu) && CoversRow(tg, subDG, mu, vs[subDG[mu]].dsEdge)
    ensures TgCovers(tg, subDG, vs, mu + 1)
  {
  }

  /** A component without self-loops gives a temporary graph without them. */
  lemma TgInducedNoSelfLoops(tg: seq<Vertex>, subDG: seq<nat>, vs: seq<Vertex>)
    requires TgInduced(tg, subDG, vs) && |tg| == |subDG|
    requires forall j :: 0 <= j < |subDG| ==> subDG[j] < |vs| && subDG[j] !in vs[subDG[j]].dsEdge
    ensures NoSelfLoops(tg)
  {
  }

  lemma TgInducedAdd(tg: seq<Vertex>, subDG: seq<nat>, vs: seq<Vertex>, j: nat, l: nat, w: real)
    requires TgInduced(tg, subDG, vs) && j < |tg| && l < |tg| && l < |subDG|
    requires j < |subDG| && subDG[j] < |vs| && subDG[l] in vs[subDG[j]].dsEdge
    ensures TgInduced(WithEdge(tg, j, l, w), subDG, vs)
  {
    var r := WithEdge(tg, j, l, w);
    forall i | 0 <= i < |r|
      ensures i < |subDG| && subDG[i] < |vs|
      ensures forall x :: x in r[i].dsEdge ==> x < |subDG| && subDG[x] in vs[subDG[i]].dsEdge
    {
      assert r[i].dsEdge == if i == j then tg[i].dsEdge + {l} else tg[i].dsEdge;
    }
  }


  // Reachability along downstream edges, and what Tarjan's pass promises
  // about the components it reports.

  /** A walk along downstream edges. */
  ghost predicate IsPath(vs: seq<Vertex>, p: seq<nat>)
  {
    |p| > 0 && (forall i :: 0 <= i < |p| ==> p[i] < |vs|)
    && forall i :: 0 <= i < |p| - 1 ==> p[i + 1] in vs[p[i]].dsEdge
  }

  /** b is reached from a by following downstream edges (possibly none). */
  ghost predicate Reaches(vs: seq<Vertex>, a: nat, b: nat)
  {
    exists p :: IsPath(vs, p) && p[0] == a && p[|p| - 1] == b
  }

  ghost predicate MutuallyReachable(vs: seq<Vertex>, a: nat, b: nat)
  {
    Reaches(vs, a, b) && Reaches(vs, b, a)
  }

  /** a lies on a cycle through at least one other vertex. */
  ghost predicate OnCycle(vs: seq<Vertex>, a: nat)
  {
    exists b: nat :: b != a && MutuallyReachable(vs, a, b)
  }

  lemma ReachesRefl(vs: seq<Vertex>, a: nat)
    requires a < |vs|
    ensures Reaches(vs, a, a)
  {
    assert IsPath(vs, [a]);
  }

  lemma ReachesEdge(vs: seq<Vertex>, a: nat, b: nat)
    requires a < |vs| && b < |vs| && b in vs[a].dsEdge
    ensures Reaches(vs, a, b)
  {
    assert IsPath(vs, [a, b]);
  }

  lemma ReachesTrans(vs: seq<Vertex>, a: nat, b: nat, c: nat)
    requires Reaches(vs, a, b) && Reaches(vs, b, c)
    ensures Reaches(vs, a, c)
  {
    var p :| IsPath(vs, p) && p[0] == a && p[|p| - 1] == b;
    var q :| IsPath(vs, q) && q[0] == b && q[|q| - 1] == c;
    var r := p + q[1..];
    forall i | 0 <= i < |r| - 1
      ensures r[i + 1] in vs[r[i]].dsEdge
    {
      if i >= |p| - 1 {
        assert r[i] == q[i - |p| + 1] && r[i + 1] == q[i - |p| + 2];
      }
    }
    assert IsPath(vs, r) && r[0] == a && r[|r| - 1] == c;
  }

  /** Any vertex in a component's list. */
  ghost predicate InSome(sccs: seq<seq<nat>>, x: nat)
  {
    exists i :: 0 <= i < |sccs| && x in sccs[i]
  }

  /** No vertex is listed twice, within one component or across two. */
  ghost predicate ComponentsDisjoint(sccs: seq<seq<nat>>)
  {
    forall i, j, k, l ::
      0 <= i < |sccs| && 0 <= j < |sccs[i]| && 0 <= k < |sccs| && 0 <= l < |sccs[k]| && sccs[i][j] == sccs[k][l]
      ==> i == k && j == l
  }

  /** Any two vertices of one component reach each other. */
  ghost predicate ComponentsConnected(vs: seq<Vertex>, sccs: seq<seq<nat>>)
  {
    forall i, j, k :: 0 <= i < |sccs| && 0 <= j < |sccs[i]| && 0 <= k < |sccs[i]| ==>
      MutuallyReachable(vs, sccs[i][j], sccs[i][k])
  }

  /** A component holds every vertex that reaches, and is reached from, one of its own. */
  ghost predicate ComponentsMaximal(vs: seq<Vertex>, sccs: seq<seq<nat>>)
  {
    forall i, j, y: nat :: 0 <= i < |sccs| && 0 <= j < |sccs[i]| && MutuallyReachable(vs, sccs[i][j], y) ==>
      y in sccs[i]
  }

  /** Components of more than one vertex, listed once each, are exactly the
    * lists of the vertices that lie on a cycle through another vertex. */
  lemma ComponentMembersOnCycle(vs: seq<Vertex>, sccs: seq<seq<nat>>, x: nat)
    requires ComponentsOver(sccs, |vs|) && ComponentsDisjoint(sccs) && ComponentsConnected(vs, sccs)
    requires InSome(sccs, x)
    ensures OnCycle(vs, x)
  {
    var i :| 0 <= i < |sccs| && x in sccs[i];
    var j :| 0 <= j < |sccs[i]| && sccs[i][j] == x;
    var k := if j == 0 then 1 else 0;
    assert sccs[i][k] != x;
    assert MutuallyReachable(vs, x, sccs[i][k]);
  }

  /** Discovered and already popped: the vertex's component is settled. */
  ghost predicate Settled(d: seq<int>, on: seq<bool>, x: nat)
  {
    x < |d| && x < |on| && d[x] != -1 && !on[x]
  }

  /** No downstream edge leaves the settled vertices. */
  ghost predicate SettledClosed(vs: seq<Vertex>, d: seq<int>, on: seq<bool>)
  {
    |d| == |vs| && forall x: nat, w: nat :: Settled(d, on, x) && w in vs[x].dsEdge ==> Settled(d, on, w)
  }

  lemma {:induction false} SettledAlongPath(vs: seq<Vertex>, d: seq<int>, on: seq<bool>, p: seq<nat>, i: nat)
    requires SettledClosed(vs, d, on) && IsPath(vs, p) && Settled(d, on, p[0]) && i < |p|
    ensures Settled(d, on, p[i])
    decreases i
  {
    if i > 0 {
      SettledAlongPath(vs, d, on, p, i - 1);
      assert p[i] in vs[p[i - 1]].dsEdge;
    }
  }

  lemma SettledReach(vs: seq<Vertex>, d: seq<int>, on: seq<bool>, a: nat, b: nat)
    requires SettledClosed(vs, d, on) && Settled(d, on, a) && Reaches(vs, a, b)
    ensures Settled(d, on, b)
  {
    var p :| IsPath(vs, p) && p[0] == a && p[|p| - 1] == b;
    SettledAlongPath(vs, d, on, p, |p| - 1);
  }

  /** The state every call of SCCAlgorithm keeps: discovery times up to
    * `time`, the stack holding discovered vertices in increasing discovery
    * order with matching on-stack flags, no edge leaving the settled
    * vertices, and the recorded components disjoint, strongly connected,
    * maximal, settled, and covering every settled vertex on a cycle. */
  ghost predicate TarjanState(vs: seq<Vertex>, d: seq<int>, on: seq<bool>,
                              st: seq<nat>, sccs: seq<seq<nat>>, time: int)
  {
    |d| == |vs| && |on| == |vs|
    && (forall x :: 0 <= x < |d| ==> d[x] == -1 || 0 < d[x] <= time)
    && (forall i :: 0 <= i < |st| ==> st[i] < |vs| && d[st[i]] != -1)
    && (forall x :: 0 <= x < |on| ==> (on[x] <==> x in st))
    && StackOrdered(d, st)
    && SettledClosed(vs, d, on)
    && ComponentsOver(sccs, |vs|) && ComponentsDisjoint(sccs)
    && ComponentsConnected(vs, sccs) && ComponentsMaximal(vs, sccs)
    && (forall i, j :: 0 <= i < |sccs| && 0 <= j < |sccs[i]| ==> Settled(d, on, sccs[i][j]))
    && (forall x: nat :: Settled(d, on, x) && OnCycle(vs, x) ==> InSome(sccs, x))
  }

  /** Every edge of z in ws leads to a discovered vertex, and to one whose
    * discovery time is at least low[z] when it is on the stack. */
  ghost predicate Explored(vs: seq<Vertex>, d: seq<int>, lo: seq<int>, on: seq<bool>, z: nat, ws: set<nat>)
  {
    z < |lo| && forall w :: w in ws ==> w < |d| && w < |on| && d[w] != -1 && (on[w] ==> lo[z] <= d[w])
  }

  ghost predicate Finished(vs: seq<Vertex>, d: seq<int>, lo: seq<int>, on: seq<bool>, z: nat)
  {
    z < |vs| && Explored(vs, d, lo, on, z, vs[z].dsEdge)
  }

  /** low of the vertex at position i is the discovery time of a vertex at
    * or below it on the stack that it reaches. */
  ghost predicate LowWitnessed(vs: seq<Vertex>, d: seq<int>, lo: seq<int>, st: seq<nat>, i: nat)
  {
    i < |st| && st[i] < |lo|
    && exists k :: 0 <= k <= i && st[k] < |d| && d[st[k]] == lo[st[i]] && Reaches(vs, st[i], st[k])
  }

  /** What the call for u (at stack position p) knows about the vertex at
    * position i from u up: it is reached from u and has a low value between
    * the floor f and its discovery time, witnessed below it; above u it is
    * finished, not a root, and has a low no lower than u's. */
  ghost predicate AboveAt(vs: seq<Vertex>, d: seq<int>, lo: seq<int>, on: seq<bool>,
                          st: seq<nat>, p: nat, u: nat, f: int, i: nat)
  {
    i < |st| && st[i] < |d| && st[i] < |lo| && u < |lo|
    && f <= lo[st[i]] <= d[st[i]] && Reaches(vs, u, st[i]) && LowWitnessed(vs, d, lo, st, i)
    && (p < i ==> lo[u] <= lo[st[i]] < d[st[i]] && Finished(vs, d, lo, on, st[i]))
  }

  ghost predicate Above(vs: seq<Vertex>, d: seq<int>, lo: seq<int>, on: seq<bool>,
                        st: seq<nat>, p: nat, u: nat, f: int)
  {
    |d| == |vs| && |lo| == |vs| && |on| == |vs|
    && p < |st| && st[p] == u && (forall i :: 0 <= i < |st| ==> st[i] < |vs|)
    && forall i :: p <= i < |st| ==> AboveAt(vs, d, lo, on, st, p, u, f, i)
  }

  /** Stack entries index the discovery times, which increase up the stack. */
  ghost predicate StackOrdered(d: seq<int>, st: seq<nat>)
  {
    (forall i :: 0 <= i < |st| ==> st[i] < |d|) && forall i, j :: 0 <= i < j < |st| ==> d[st[i]] < d[st[j]]
  }

  lemma OrderedDistinct(d: seq<int>, st: seq<nat>)
    requires StackOrdered(d, st)
    ensures Distinct(st)
  {
    forall i, j | 0 <= i < j < |st|
      ensures st[i] != st[j]
    {
      assert d[st[i]] < d[st[j]];
    }
  }

  /** With no entry repeated, a stack splits at p into two parts that share nothing. */
  lemma SplitStack(st: seq<nat>, p: nat)
    requires Distinct(st) && p <= |st|
    ensures forall x :: x in st <==> x in st[..p] || x in st[p..]
    ensures forall x :: x in st[..p] ==> x !in st[p..]
  {
    assert st == st[..p] + st[p..];
    forall x | x in st[..p]
      ensures x !in st[p..]
    {
      var a :| 0 <= a < p && st[..p][a] == x;
      forall j | 0 <= j < |st| - p
        ensures st[p..][j] != x
      {
        assert st[p..][j] == st[p + j] && st[a] == x;
      }
    }
  }

  /** on' is on with the flags of the stack entries from position p up cleared. */
  ghost predicate Unflagged(on: seq<bool>, on': seq<bool>, st: seq<nat>, p: nat)
  {
    |on'| == |on| && p <= |st| && forall x :: 0 <= x < |on| ==> on'[x] == (on[x] && x !in st[p..])
  }

  /** A root u (low equal to discovery time) pops the stack from its
    * position p: afterwards no edge leaves the settled vertices, because an
    * edge from the popped part to a vertex still below u would have lowered
    * low[u]. */
  lemma PopKeepsClosed(vs: seq<Vertex>, d: seq<int>, lo: seq<int>, on: seq<bool>, st: seq<nat>,
                       p: nat, u: nat, f: int, on': seq<bool>)
    requires SettledClosed(vs, d, on) && StackOrdered(d, st) && forall x :: 0 <= x < |on| ==> (on[x] <==> x in st)
    requires Above(vs, d, lo, on, st, p, u, f) && Finished(vs, d, lo, on, u) && lo[u] == d[u]
    requires Unflagged(on, on', st, p)
    ensures SettledClosed(vs, d, on')
  {
    forall x: nat, w: nat | Settled(d, on', x) && w in vs[x].dsEdge
      ensures Settled(d, on', w)
    {
      if on[x] {
        var j :| 0 <= j < |st| - p && st[p..][j] == x;
        assert st[p + j] == x && AboveAt(vs, d, lo, on, st, p, u, f, p + j);
        if on[w] {
          var k :| 0 <= k < |st| && st[k] == w;
          assert d[st[k]] >= lo[x] >= lo[u] == d[st[p]];
          assert st[p..][k - p] == w;
        }
      } else {
        assert Settled(d, on, x);
        assert Settled(d, on, w);
      }
    }
  }

  /** Every vertex from the root's position up reaches the root: its low
    * value is witnessed by a lower vertex that is still at or above u. */
  lemma {:induction false} ReachesRoot(vs: seq<Vertex>, d: seq<int>, lo: seq<int>, on: seq<bool>, st: seq<nat>,
                                       p: nat, u: nat, f: int, i: nat)
    requires StackOrdered(d, st) && Above(vs, d, lo, on, st, p, u, f) && lo[u] == d[u] && p <= i < |st|
    ensures Reaches(vs, st[i], u)
    decreases i
  {
    if i == p {
      ReachesRefl(vs, u);
    } else {
      assert AboveAt(vs, d, lo, on, st, p, u, f, i);
      var k :| 0 <= k <= i && st[k] < |d| && d[st[k]] == lo[st[i]] && Reaches(vs, st[i], st[k]);
      assert d[st[p]] <= d[st[k]] < d[st[i]];
      ReachesRoot(vs, d, lo, on, st, p, u, f, k);
      ReachesTrans(vs, st[i], st[k], u);
    }
  }

  /** A vertex mutually reachable with a popped vertex is popped with it:
    * were it settled earlier, the popped vertex would be too; it is settled
    * afterwards because the popped one is. */
  lemma PopTakesCycle(vs: seq<Vertex>, d: seq<int>, on: seq<bool>, on': seq<bool>, x: nat, y: nat)
    requires SettledClosed(vs, d, on) && SettledClosed(vs, d, on') && |on'| == |on| == |d|
    requires x < |on| && d[x] != -1 && on[x] && !on'[x] && MutuallyReachable(vs, x, y)
    ensures y < |on| && on[y] && !on'[y]
  {
    if Settled(d, on, y) {
      SettledReach(vs, d, on, y, x);
    }
    SettledReach(vs, d, on', x, y);
  }

  lemma PoppedList(st: seq<nat>, p: nat, sub: seq<nat>)
    requires p <= |st| && |sub| == |st| - p && forall i :: 0 <= i < |sub| ==> sub[i] == st[|st| - 1 - i]
    ensures forall x :: x in sub <==> x in st[p..]
  {
    forall x | x in sub
      ensures x in st[p..]
    {
      var i :| 0 <= i < |sub| && sub[i] == x;
      assert st[p..][|st| - 1 - i - p] == x;
    }
    forall x | x in st[p..]
      ensures x in sub
    {
      var j :| 0 <= j < |st| - p && st[p..][j] == x;
      assert sub[|st| - 1 - p - j] == x;
    }
  }

  /** The popped list is strongly connected, through u. */
  lemma PopConnected(vs: seq<Vertex>, st: seq<nat>, p: nat, u: nat, sub: seq<nat>)
    requires p <= |st| && forall i :: p <= i < |st| ==> Reaches(vs, st[i], u) && Reaches(vs, u, st[i])
    requires |sub| == |st| - p && forall i :: 0 <= i < |sub| ==> sub[i] == st[|st| - 1 - i]
    ensures ComponentsConnected(vs, [sub])
  {
    forall i, j, k | 0 <= i < 1 && 0 <= j < |sub| && 0 <= k < |sub|
      ensures MutuallyReachable(vs, [sub][i][j], [sub][i][k])
    {
      var a, b := |st| - 1 - j, |st| - 1 - k;
      ReachesTrans(vs, st[a], u, st[b]);
      ReachesTrans(vs, st[b], u, st[a]);
    }
  }

  /** The list popped at a root, once recorded, keeps the components
    * disjoint, strongly connected, maximal and settled. */
  lemma PopComponentFacts(vs: seq<Vertex>, d: seq<int>, on: seq<bool>, on': seq<bool>,
                          sccs: seq<seq<nat>>, sub: seq<nat>)
    requires ComponentsOver(sccs, |vs|) && ComponentsDisjoint(sccs)
    requires ComponentsConnected(vs, sccs) && ComponentsMaximal(vs, sccs)
    requires forall i, j :: 0 <= i < |sccs| && 0 <= j < |sccs[i]| ==> Settled(d, on, sccs[i][j])
    requires |on'| == |on| && forall x :: 0 <= x < |on| && on'[x] ==> on[x]
    requires |sub| > 1 && Distinct(sub) && ComponentsConnected(vs, [sub])
    requires forall j :: 0 <= j < |sub| ==> sub[j] < |vs| && sub[j] < |on| && on[sub[j]] && Settled(d, on', sub[j])
    requires forall j, y: nat :: 0 <= j < |sub| && MutuallyReachable(vs, sub[j], y) ==> y in sub
    ensures ComponentsOver(sccs + [sub], |vs|) && ComponentsDisjoint(sccs + [sub])
    ensures ComponentsConnected(vs, sccs + [sub]) && ComponentsMaximal(vs, sccs + [sub])
    ensures forall i, j :: 0 <= i < |sccs + [sub]| && 0 <= j < |(sccs + [sub])[i]| ==>
      Settled(d, on', (sccs + [sub])[i][j])
  {
    var s2 := sccs + [sub];
    var n := |sccs|;
    assert s2[n] == sub == [sub][0];
    forall i, j, k | 0 <= i < |s2| && 0 <= j < |s2[i]| && 0 <= k < |s2[i]|
      ensures MutuallyReachable(vs, s2[i][j], s2[i][k])
    {
      if i < n {
        assert s2[i] == sccs[i];
      }
    }
    forall i, j, y: nat | 0 <= i < |s2| && 0 <= j < |s2[i]| && MutuallyReachable(vs, s2[i][j], y)
      ensures y in s2[i]
    {
      if i < n {
        assert s2[i] == sccs[i];
      }
    }
    forall i, j, k, l | 0 <= i < |s2| && 0 <= j < |s2[i]| && 0 <= k < |s2| && 0 <= l < |s2[k]| && s2[i][j] == s2[k][l]
      ensures i == k && j == l
    {
      if i < n {
        assert s2[i] == sccs[i] && Settled(d, on, sccs[i][j]);
      }
      if k < n {
        assert s2[k] == sccs[k] && Settled(d, on, sccs[k][l]);
      }
    }
    forall i, j | 0 <= i < |s2| && 0 <= j < |s2[i]|
      ensures Settled(d, on', s2[i][j])
    {
      if i < n {
        assert s2[i] == sccs[i] && Settled(d, on, sccs[i][j]);
      }
    }
  }

  /** Every settled vertex on a cycle stays listed: one popped now has a
    * partner on its cycle popped with it, so the popped list is recorded. */
  lemma PopCovers(vs: seq<Vertex>, d: seq<int>, on: seq<bool>, on': seq<bool>,
                  sccs: seq<seq<nat>>, sub: seq<nat>, sccs': seq<seq<nat>>)
    requires SettledClosed(vs, d, on) && SettledClosed(vs, d, on') && |on'| == |on| == |d|
    requires forall x :: 0 <= x < |on| && on'[x] ==> on[x]
    requires forall x :: 0 <= x < |on| && on[x] ==> d[x] != -1
    requires forall x :: 0 <= x < |on| && on[x] && !on'[x] ==> x in sub
    requires forall x: nat :: Settled(d, on, x) && OnCycle(vs, x) ==> InSome(sccs, x)
    requires sccs' == if |sub| > 1 then sccs + [sub] else sccs
    ensures forall x: nat :: Settled(d, on', x) && OnCycle(vs, x) ==> InSome(sccs', x)
  {
    forall x: nat | Settled(d, on', x) && OnCycle(vs, x)
      ensures InSome(sccs', x)
    {
      if on[x] {
        var y: nat :| y != x && MutuallyReachable(vs, x, y);
        PopTakesCycle(vs, d, on, on', x, y);
        var a :| 0 <= a < |sub| && sub[a] == x;
        var b :| 0 <= b < |sub| && sub[b] == y;
        assert |sub| > 1 && sccs'[|sccs|] == sub;
      } else {
        var i :| 0 <= i < |sccs| && x in sccs[i];
        assert sccs'[i] == sccs[i];
      }
    }
  }

  /** What is left of the stack below the root keeps its order and is what
    * the on-stack flags now mark. */
  lemma PopKeepsStack(d: seq<int>, on: seq<bool>, st: seq<nat>, p: nat, on': seq<bool>)
    requires StackOrdered(d, st) && p <= |st| && forall x :: 0 <= x < |on| ==> (on[x] <==> x in st)
    requires Unflagged(on, on', st, p)
    ensures StackOrdered(d, st[..p])
    ensures forall x :: 0 <= x < |on'| ==> (on'[x] <==> x in st[..p])
    ensures forall x :: 0 <= x < |on| && on'[x] ==> on[x]
  {
    OrderedDistinct(d, st);
    SplitStack(st, p);
  }

  /** The popped list, when it has more than one vertex, joins the
    * components as a disjoint, strongly connected, maximal, settled one. */
  lemma PopRecords(vs: seq<Vertex>, d: seq<int>, lo: seq<int>, on: seq<bool>, st: seq<nat>,
                   sccs: seq<seq<nat>>, p: nat, u: nat, f: int, on': seq<bool>, sub: seq<nat>)
    requires StackOrdered(d, st) && Above(vs, d, lo, on, st, p, u, f) && lo[u] == d[u]
    requires SettledClosed(vs, d, on) && SettledClosed(vs, d, on') && |on'| == |on| == |d|
    requires forall x :: 0 <= x < |on| && on'[x] ==> on[x]
    requires |sub| == |st| - p && forall i :: 0 <= i < |sub| ==> sub[i] == st[|st| - 1 - i]
    requires forall x :: x in sub ==> x < |on| && on[x] && d[x] != -1 && !on'[x]
    requires forall x :: 0 <= x < |on| && on[x] && !on'[x] ==> x in sub
    requires ComponentsOver(sccs, |vs|) && ComponentsDisjoint(sccs)
    requires ComponentsConnected(vs, sccs) && ComponentsMaximal(vs, sccs)
    requires forall i, j :: 0 <= i < |sccs| && 0 <= j < |sccs[i]| ==> Settled(d, on, sccs[i][j])
    requires |sub| > 1
    ensures ComponentsOver(sccs + [sub], |vs|) && ComponentsDisjoint(sccs + [sub])
    ensures ComponentsConnected(vs, sccs + [sub]) && ComponentsMaximal(vs, sccs + [sub])
    ensures forall i, j :: 0 <= i < |sccs + [sub]| && 0 <= j < |(sccs + [sub])[i]| ==>
      Settled(d, on', (sccs + [sub])[i][j])
  {
    forall i | p <= i < |st|
      ensures Reaches(vs, st[i], u) && Reaches(vs, u, st[i])
    {
      assert AboveAt(vs, d, lo, on, st, p, u, f, i);
      ReachesRoot(vs, d, lo, on, st, p, u, f, i);
    }
    PopConnected(vs, st, p, u, sub);
    OrderedDistinct(d, st);
    forall i, j | 0 <= i < j < |sub|
      ensures sub[i] != sub[j]
    {
      assert sub[i] == st[|st| - 1 - i] && sub[j] == st[|st| - 1 - j];
    }
    forall j, y: nat | 0 <= j < |sub| && MutuallyReachable(vs, sub[j], y)
      ensures y in sub
    {
      PopTakesCycle(vs, d, on, on', sub[j], y);
    }
    PopComponentFacts(vs, d, on, on', sccs, sub);
  }

  /** Popping at a root keeps the whole state, the popped list being recorded
    * when it has more than one vertex. */
  lemma PopKeepsState(vs: seq<Vertex>, d: seq<int>, lo: seq<int>, on: seq<bool>, st: seq<nat>,
                      sccs: seq<seq<nat>>, time: int, p: nat, u: nat, f: int,
                      on': seq<bool>, sub: seq<nat>, sccs': seq<seq<nat>>)
    requires TarjanState(vs, d, on, st, sccs, time)
    requires Above(vs, d, lo, on, st, p, u, f) && Finished(vs, d, lo, on, u) && lo[u] == d[u]
    requires Unflagged(on, on', st, p)
    requires |sub| == |st| - p && forall i :: 0 <= i < |sub| ==> sub[i] == st[|st| - 1 - i]
    requires sccs' == if |sub| > 1 then sccs + [sub] else sccs
    ensures TarjanState(vs, d, on', st[..p], sccs', time)
  {
    PopKeepsStack(d, on, st, p, on');
    PoppedList(st, p, sub);
    PopKeepsClosed(vs, d, lo, on, st, p, u, f, on');
    PoppedSettled(d, on, st, p, on', sub);
    PopCovers(vs, d, on, on', sccs, sub, sccs');
    if |sub| > 1 {
      PopRecords(vs, d, lo, on, st, sccs, p, u, f, on', sub);
    }
  }

  lemma PoppedSettled(d: seq<int>, on: seq<bool>, st: seq<nat>, p: nat, on': seq<bool>, sub: seq<nat>)
    requires p <= |st| && |on| == |d| && forall i :: 0 <= i < |st| ==> st[i] < |d| && d[st[i]] != -1
    requires forall x :: 0 <= x < |on| ==> (on[x] <==> x in st)
    requires Unflagged(on, on', st, p)
    requires forall x :: x in sub <==> x in st[p..]
    ensures forall x :: x in sub ==> x < |on| && on[x] && d[x] != -1 && !on'[x]
    ensures forall x :: 0 <= x < |on| && on[x] && !on'[x] ==> x in sub
  {
    forall x | x in sub
      ensures x < |on| && on[x] && d[x] != -1 && !on'[x]
    {
      var j :| 0 <= j < |st| - p && st[p..][j] == x;
      assert st[p + j] == x;
    }
  }

  /** After a call that only pushes undiscovered vertices above the old
    * stack, a vertex discovered before the call is on the stack only if it
    * was before. */
  lemma StackGrew(d0: seq<int>, on0: seq<bool>, st0: seq<nat>, on1: seq<bool>, st1: seq<nat>)
    requires |on0| == |on1| == |d0| && forall x :: 0 <= x < |on0| ==> (on0[x] <==> x in st0)
    requires forall x :: 0 <= x < |on1| ==> (on1[x] <==> x in st1)
    requires |st1| >= |st0| && st1[..|st0|] == st0
    requires forall i :: |st0| <= i < |st1| ==> st1[i] < |d0| && d0[st1[i]] == -1
    ensures forall w :: 0 <= w < |on1| && on1[w] && d0[w] != -1 ==> on0[w]
  {
    forall w | 0 <= w < |on1| && on1[w] && d0[w] != -1
      ensures on0[w]
    {
      var i :| 0 <= i < |st1| && st1[i] == w;
      assert i < |st0| && st1[..|st0|][i] == w;
    }
  }

  /** Explored edges stay explored when discovery times of discovered
    * vertices are kept, nothing discovered joins the stack and low[z] does
    * not grow. */
  lemma ExploredFrame(vs: seq<Vertex>, d0: seq<int>, lo0: seq<int>, on0: seq<bool>,
                      d1: seq<int>, lo1: seq<int>, on1: seq<bool>, z: nat, ws: set<nat>)
    requires Explored(vs, d0, lo0, on0, z, ws) && |d1| == |d0| && |on1| == |on0| == |d0| && z < |lo1|
    requires forall x :: 0 <= x < |d0| && d0[x] != -1 ==> d1[x] == d0[x]
    requires forall w :: 0 <= w < |on1| && on1[w] && d0[w] != -1 ==> on0[w]
    requires lo1[z] <= lo0[z]
    ensures Explored(vs, d1, lo1, on1, z, ws)
  {
  }

  /** low of position i stays witnessed when the stack only grows above the
    * witness and the times involved are kept. */
  lemma WitnessFrame(vs: seq<Vertex>, d0: seq<int>, lo0: seq<int>, st0: seq<nat>,
                     d1: seq<int>, lo1: seq<int>, st1: seq<nat>, i: nat)
    requires LowWitnessed(vs, d0, lo0, st0, i) && |st1| >= |st0| && st1[..|st0|] == st0
    requires |d1| == |d0| && st0[i] < |lo1| && lo1[st0[i]] == lo0[st0[i]]
    requires forall x :: 0 <= x < |d0| && d0[x] != -1 ==> d1[x] == d0[x]
    requires forall k :: 0 <= k < |st0| ==> st0[k] < |d0| && d0[st0[k]] != -1
    ensures LowWitnessed(vs, d1, lo1, st1, i)
  {
    var k :| 0 <= k <= i && st0[k] < |d0| && d0[st0[k]] == lo0[st0[i]] && Reaches(vs, st0[i], st0[k]);
    assert st1[k] == st0[k] && st1[i] == st0[i];
  }

  /** The tree-edge case of the loop: after the call for v, low[u] takes the
    * smaller of itself and low[v]. */
  lemma AfterChild(vs: seq<Vertex>, d0: seq<int>, lo0: seq<int>, on0: seq<bool>, st0: seq<nat>,
                   d1: seq<int>, lo1: seq<int>, on1: seq<bool>, st1: seq<nat>,
                   p: nat, u: nat, v: nat, f: int, ws: set<nat>)
    requires StackOrdered(d0, st0) && StackOrdered(d1, st1)
    requires forall i :: 0 <= i < |st0| ==> d0[st0[i]] != -1
    requires Above(vs, d0, lo0, on0, st0, p, u, f) && Explored(vs, d0, lo0, on0, u, ws)
    requires |d1| == |vs| && |lo1| == |vs| && |on1| == |vs| && forall i :: 0 <= i < |st1| ==> st1[i] < |vs|
    requires forall w :: 0 <= w < |on1| && on1[w] && d0[w] != -1 ==> on0[w]
    requires v < |vs| && v in vs[u].dsEdge && d0[v] == -1 && d1[v] != -1
    requires on1[v] ==> |st1| > |st0|
    requires |st1| >= |st0| && st1[..|st0|] == st0
    requires forall i :: |st0| <= i < |st1| ==> d0[st1[i]] == -1
    requires forall x :: 0 <= x < |d0| && d0[x] != -1 ==> d1[x] == d0[x] && lo1[x] == lo0[x]
    requires |st1| > |st0| ==>
      st1[|st0|] == v && lo1[v] < d1[v] && Above(vs, d1, lo1, on1, st1, |st0|, v, f) && Finished(vs, d1, lo1, on1, v)
    requires |st1| == |st0| ==> lo0[u] <= lo1[v]
    ensures Above(vs, d1, lo1[u := Min(lo1[u], lo1[v])], on1, st1, p, u, f)
    ensures Explored(vs, d1, lo1[u := Min(lo1[u], lo1[v])], on1, u, ws + {v})
  {
    var lo2 := lo1[u := Min(lo1[u], lo1[v])];
    var q := |st0|;
    ExploredFrame(vs, d0, lo0, on0, d1, lo2, on1, u, ws);
    ReachesEdge(vs, u, v);
    assert AboveAt(vs, d0, lo0, on0, st0, p, u, f, p) && st1[p] == u;
    if |st1| > q {
      assert AboveAt(vs, d1, lo1, on1, st1, q, v, f, q);
    }
    ChildKeepsRoot(vs, d0, lo0, on0, st0, d1, lo1, on1, st1, p, u, v, f);
    ChildKeepsOld(vs, d0, lo0, on0, st0, d1, lo2, on1, st1, p, u, f);
    if |st1| > q {
      ChildKeepsNew(vs, d1, lo1, on1, st1, q, v, lo2, p, u, f);
    }
  }

  /** The vertices above u that were there before the call for v keep
    * their place in Above. */
  lemma ChildKeepsOld(vs: seq<Vertex>, d0: seq<int>, lo0: seq<int>, on0: seq<bool>, st0: seq<nat>,
                      d1: seq<int>, lo2: seq<int>, on1: seq<bool>, st1: seq<nat>,
                      p: nat, u: nat, f: int)
    requires Above(vs, d0, lo0, on0, st0, p, u, f) && StackOrdered(d0, st0)
    requires |st1| >= |st0| && st1[..|st0|] == st0
    requires |d1| == |d0| && |on1| == |on0| && |lo2| == |lo0|
    requires forall x :: 0 <= x < |d0| && d0[x] != -1 ==> d1[x] == d0[x]
    requires forall w :: 0 <= w < |on1| && on1[w] && d0[w] != -1 ==> on0[w]
    requires forall k :: 0 <= k < |st0| ==> d0[st0[k]] != -1
    requires forall k :: 0 <= k < |st0| && st0[k] != u ==> st0[k] < |lo2| && lo2[st0[k]] == lo0[st0[k]]
    requires lo2[u] <= lo0[u]
    ensures forall i :: p < i < |st0| ==> AboveAt(vs, d1, lo2, on1, st1, p, u, f, i)
  {
    forall i | p < i < |st0|
      ensures AboveAt(vs, d1, lo2, on1, st1, p, u, f, i)
    {
      assert AboveAt(vs, d0, lo0, on0, st0, p, u, f, i);
      assert d0[st0[p]] < d0[st0[i]];
      ChildKeepsOldAt(vs, d0, lo0, on0, st0, d1, lo2, on1, st1, p, u, f, i);
    }
  }

  /** The vertices the call for v left on the stack join u's part of Above. */
  lemma ChildKeepsNew(vs: seq<Vertex>, d1: seq<int>, lo1: seq<int>, on1: seq<bool>, st1: seq<nat>,
                      q: nat, v: nat, lo2: seq<int>, p: nat, u: nat, f: int)
    requires p < q && Above(vs, d1, lo1, on1, st1, q, v, f) && StackOrdered(d1, st1) && st1[p] == u
    requires u < |vs| && v in vs[u].dsEdge && Finished(vs, d1, lo1, on1, v) && lo1[v] < d1[v]
    requires lo2 == lo1[u := Min(lo1[u], lo1[v])]
    ensures forall i :: q <= i < |st1| ==> AboveAt(vs, d1, lo2, on1, st1, p, u, f, i)
  {
    forall i | q <= i < |st1|
      ensures AboveAt(vs, d1, lo2, on1, st1, p, u, f, i)
    {
      assert AboveAt(vs, d1, lo1, on1, st1, q, v, f, i);
      assert d1[st1[p]] < d1[st1[i]];
      ChildKeepsNewAt(vs, d1, lo1, on1, st1, q, v, lo2, p, u, f, i);
    }
  }

  /** u itself keeps its place: its new low is witnessed either as before or
    * through v. */
  lemma ChildKeepsRoot(vs: seq<Vertex>, d0: seq<int>, lo0: seq<int>, on0: seq<bool>, st0: seq<nat>,
                       d1: seq<int>, lo1: seq<int>, on1: seq<bool>, st1: seq<nat>,
                       p: nat, u: nat, v: nat, f: int)
    requires AboveAt(vs, d0, lo0, on0, st0, p, u, f, p) && st0[p] == u && StackOrdered(d1, st1)
    requires |st1| >= |st0| && st1[..|st0|] == st0
    requires |d1| == |d0| && |lo1| == |lo0| && u < |vs| && v < |vs| && v in vs[u].dsEdge
    requires forall x :: 0 <= x < |d0| && d0[x] != -1 ==> d1[x] == d0[x]
    requires forall k :: 0 <= k < |st0| ==> st0[k] < |d0| && d0[st0[k]] != -1
    requires lo1[u] == lo0[u] && v < |lo1|
    requires |st1| > |st0| ==> st1[|st0|] == v && AboveAt(vs, d1, lo1, on1, st1, |st0|, v, f, |st0|)
    requires |st1| == |st0| ==> lo0[u] <= lo1[v]
    ensures AboveAt(vs, d1, lo1[u := Min(lo1[u], lo1[v])], on1, st1, p, u, f, p)
  {
    var lo2 := lo1[u := Min(lo1[u], lo1[v])];
    var q := |st0|;
    assert st1[p] == u;
    ReachesRefl(vs, u);
    if lo1[v] < lo0[u] {
      var k :| 0 <= k <= q && st1[k] < |d1| && d1[st1[k]] == lo1[st1[q]] && Reaches(vs, st1[q], st1[k]);
      assert d1[st1[k]] < d1[st1[p]];
      ReachesEdge(vs, u, v);
      ReachesTrans(vs, u, v, st1[k]);
    } else {
      WitnessFrame(vs, d0, lo0, st0, d1, lo2, st1, p);
    }
  }

  /** A vertex that sat above u before the call for v keeps its place in Above. */
  lemma ChildKeepsOldAt(vs: seq<Vertex>, d0: seq<int>, lo0: seq<int>, on0: seq<bool>, st0: seq<nat>,
                      d1: seq<int>, lo2: seq<int>, on1: seq<bool>, st1: seq<nat>,
                      p: nat, u: nat, f: int, i: nat)
    requires p < i && AboveAt(vs, d0, lo0, on0, st0, p, u, f, i) && st0[i] != u
    requires |st1| >= |st0| && st1[..|st0|] == st0
    requires |d1| == |d0| && |on1| == |on0| == |d0| && |lo2| == |lo0|
    requires forall x :: 0 <= x < |d0| && d0[x] != -1 ==> d1[x] == d0[x]
    requires forall w :: 0 <= w < |on1| && on1[w] && d0[w] != -1 ==> on0[w]
    requires forall k :: 0 <= k < |st0| ==> st0[k] < |d0| && d0[st0[k]] != -1
    requires lo2[st0[i]] == lo0[st0[i]] && lo2[u] <= lo0[u]
    ensures AboveAt(vs, d1, lo2, on1, st1, p, u, f, i)
  {
    var z := st0[i];
    assert st1[i] == z;
    ExploredFrame(vs, d0, lo0, on0, d1, lo2, on1, z, vs[z].dsEdge);
    WitnessFrame(vs, d0, lo0, st0, d1, lo2, st1, i);
  }

  /** A vertex the call for v left on the stack joins u's part of Above. */
  lemma ChildKeepsNewAt(vs: seq<Vertex>, d1: seq<int>, lo1: seq<int>, on1: seq<bool>, st1: seq<nat>,
                      q: nat, v: nat, lo2: seq<int>, p: nat, u: nat, f: int, i: nat)
    requires |d1| == |vs| && |lo1| == |vs|
    requires p < q <= i && AboveAt(vs, d1, lo1, on1, st1, q, v, f, i) && st1[q] == v && st1[i] != u
    requires u < |vs| && v in vs[u].dsEdge && Finished(vs, d1, lo1, on1, v) && lo1[v] < d1[v]
    requires lo2 == lo1[u := Min(lo1[u], lo1[v])]
    ensures AboveAt(vs, d1, lo2, on1, st1, p, u, f, i)
  {
    var z := st1[i];
    ReachesEdge(vs, u, v);
    ReachesTrans(vs, u, v, z);
    var k :| 0 <= k <= i && st1[k] < |d1| && d1[st1[k]] == lo1[st1[i]] && Reaches(vs, st1[i], st1[k]);
  }

  /** The back-edge case of the loop: v is on the stack, so low[u] takes the
    * smaller of itself and disc[v]. */
  lemma AfterOnStack(vs: seq<Vertex>, d: seq<int>, lo: seq<int>, on: seq<bool>, st: seq<nat>,
                     p: nat, u: nat, v: nat, f: int, ws: set<nat>)
    requires StackOrdered(d, st) && forall x :: 0 <= x < |on| ==> (on[x] <==> x in st)
    requires forall i :: 0 <= i < |st| ==> f <= d[st[i]]
    requires Above(vs, d, lo, on, st, p, u, f) && Explored(vs, d, lo, on, u, ws)
    requires v < |vs| && v in vs[u].dsEdge && d[v] != -1 && on[v]
    ensures Above(vs, d, lo[u := Min(lo[u], d[v])], on, st, p, u, f)
    ensures Explored(vs, d, lo[u := Min(lo[u], d[v])], on, u, ws + {v})
  {
    var lo2 := lo[u := Min(lo[u], d[v])];
    OrderedDistinct(d, st);
    var k :| 0 <= k < |st| && st[k] == v;
    ReachesEdge(vs, u, v);
    assert AboveAt(vs, d, lo, on, st, p, u, f, p);
    assert LowWitnessed(vs, d, lo2, st, p) by {
      if d[v] < lo[u] {
        assert d[st[k]] < d[st[p]];
      }
    }
    assert AboveAt(vs, d, lo2, on, st, p, u, f, p);
    forall i | p < i < |st|
      ensures AboveAt(vs, d, lo2, on, st, p, u, f, i)
    {
      var z := st[i];
      assert AboveAt(vs, d, lo, on, st, p, u, f, i);
      assert z != u && lo2[z] == lo[z];
      var k :| 0 <= k <= i && st[k] < |d| && d[st[k]] == lo[st[i]] && Reaches(vs, st[i], st[k]);
    }
  }

  /** Discovering u (time advanced by one, pushed, flagged on the stack)
    * keeps the state: the settled vertices are the same as before. */
  lemma DiscoverKeepsState(vs: seq<Vertex>, d: seq<int>, on: seq<bool>, st: seq<nat>,
                           sccs: seq<seq<nat>>, time: int, u: nat)
    requires TarjanState(vs, d, on, st, sccs, time) && time >= 0 && u < |vs| && d[u] == -1
    ensures TarjanState(vs, d[u := time + 1], on[u := true], st + [u], sccs, time + 1)
  {
    var d', on' := d[u := time + 1], on[u := true];
    forall x: nat
      ensures Settled(d', on', x) == Settled(d, on, x)
    {
    }
    forall x | 0 <= x < |on'|
      ensures on'[x] <==> x in st + [u]
    {
      assert x in st + [u] <==> x in st || x == u;
    }
  }

  /** Right after u is discovered, with low[u] its discovery time, u is the
    * top of its own part of the stack and none of its edges is explored. */
  lemma DiscoverAbove(vs: seq<Vertex>, d: seq<int>, lo: seq<int>, on: seq<bool>, st: seq<nat>,
                      u: nat, f: int)
    requires |d| == |vs| && |lo| == |vs| && |on| == |vs| && forall i :: 0 <= i < |st| ==> st[i] < |vs|
    requires |st| > 0 && st[|st| - 1] == u && d[u] == lo[u] && f <= lo[u]
    ensures Above(vs, d, lo, on, st, |st| - 1, u, f) && Explored(vs, d, lo, on, u, {})
  {
    ReachesRefl(vs, u);
    assert LowWitnessed(vs, d, lo, st, |st| - 1);
    assert AboveAt(vs, d, lo, on, st, |st| - 1, u, f, |st| - 1);
  }

  /** A vertex undiscovered before a call that only pushes above the old
    * stack is on the stack afterwards only above the old part. */
  lemma CallLeftOnStack(d0: seq<int>, st0: seq<nat>, on1: seq<bool>, st1: seq<nat>, v: nat)
    requires forall i :: 0 <= i < |st0| ==> st0[i] < |d0| && d0[st0[i]] != -1
    requires |st1| >= |st0| && st1[..|st0|] == st0 && v < |d0| && d0[v] == -1
    requires forall x :: 0 <= x < |on1| ==> (on1[x] <==> x in st1)
    ensures v < |on1| && on1[v] ==> |st1| > |st0|
  {
    forall i | 0 <= i < |st0|
      ensures st1[i] != v
    {
      assert st1[i] == st0[i];
    }
  }

  /** Every stack entry indexes d and was discovered no earlier than f. */
  ghost predicate FloorBelow(d: seq<int>, st: seq<nat>, f: int)
  {
    forall i :: 0 <= i < |st| ==> st[i] < |d| && f <= d[st[i]]
  }

  /** What one call of SCCAlgorithm for u does, taking discovery times d0,
    * low values lo0, stack st0, components sccs0 and time t0 to d1, lo1,
    * on1, st1, sccs1 and t1: u is discovered at t0 + 1 and time advances;
    * the stack and the component list only grow, by vertices undiscovered
    * before the call; discovery times and low values of vertices discovered
    * before stay as they were. Either u was a root and the stack is back to
    * st0, or u stays on the stack, not a root, with everything pushed above
    * it reached from it and finished. */
  ghost predicate VisitSpec(vs: seq<Vertex>, d0: seq<int>, lo0: seq<int>, st0: seq<nat>, sccs0: seq<seq<nat>>, t0: int,
                            d1: seq<int>, lo1: seq<int>, on1: seq<bool>, st1: seq<nat>, sccs1: seq<seq<nat>>, t1: int,
                            u: nat, f: int)
  {
    |d0| == |vs| && |lo0| == |vs| && |d1| == |vs| && |lo1| == |vs| && |on1| == |vs| && u < |vs|
    && t1 > t0 && d1[u] == t0 + 1
    && |st1| >= |st0| && st1[..|st0|] == st0
    && (forall i :: |st0| <= i < |st1| ==> st1[i] < |vs| && d0[st1[i]] == -1)
    && FloorBelow(d1, st1, f)
    && |sccs1| >= |sccs0| && sccs1[..|sccs0|] == sccs0
    && (forall x :: 0 <= x < |vs| && d0[x] != -1 ==> d1[x] == d0[x] && lo1[x] == lo0[x])
    && (|st1| == |st0| ==> lo1[u] == d1[u])
    && (|st1| > |st0| ==> st1[|st0|] == u && f <= lo1[u] < d1[u])
    && (|st1| > |st0| ==> Above(vs, d1, lo1, on1, st1, |st0|, u, f) && Finished(vs, d1, lo1, on1, u))
  }

  /** What handling one more edge of u (at stack position p) does: as
    * VisitSpec for the stack, the components and the vertices discovered
    * before, except that low[u] may drop; u keeps its place in Above and
    * the edges in ws are explored. */
  ghost predicate StepSpec(vs: seq<Vertex>, d0: seq<int>, lo0: seq<int>, st0: seq<nat>, sccs0: seq<seq<nat>>, t0: int,
                           d1: seq<int>, lo1: seq<int>, on1: seq<bool>, st1: seq<nat>, sccs1: seq<seq<nat>>, t1: int,
                           u: nat, p: nat, f: int, ws: set<nat>)
  {
    |d0| == |vs| && |lo0| == |vs| && |d1| == |vs| && |lo1| == |vs| && |on1| == |vs| && u < |vs|
    && t1 >= t0 && d1[u] == d0[u]
    && |st1| >= |st0| && st1[..|st0|] == st0
    && (forall i :: |st0| <= i < |st1| ==> st1[i] < |vs| && d0[st1[i]] == -1)
    && FloorBelow(d1, st1, f)
    && |sccs1| >= |sccs0| && sccs1[..|sccs0|] == sccs0
    && (forall x :: 0 <= x < |vs| && d0[x] != -1 && x != u ==> d1[x] == d0[x] && lo1[x] == lo0[x])
    && Above(vs, d1, lo1, on1, st1, p, u, f) && Explored(vs, d1, lo1, on1, u, ws)
  }

  /** The invariant of SCCAlgorithm's loop over the edges of u, relative to
    * the state d0, lo0, st0, sccs0, t0 at the start of the call, with the
    * edges in ws explored. */
  ghost predicate Exploring(vs: seq<Vertex>, d0: seq<int>, lo0: seq<int>, st0: seq<nat>, sccs0: seq<seq<nat>>, t0: int,
                            d: seq<int>, lo: seq<int>, on: seq<bool>, st: seq<nat>, sccs: seq<seq<nat>>, t: int,
                            u: nat, f: int, ws: set<nat>)
  {
    |d0| == |vs| && |lo0| == |vs| && |d| == |vs| && |lo| == |vs| && |on| == |vs| && u < |vs|
    && d0[u] == -1 && t > t0 && d[u] == t0 + 1 && f <= t0 + 1
    && |st| > |st0| && st[..|st0|] == st0 && st[|st0|] == u
    && (forall i :: |st0| <= i < |st| ==> st[i] < |vs| && d0[st[i]] == -1)
    && FloorBelow(d, st, f)
    && |sccs| >= |sccs0| && sccs[..|sccs0|] == sccs0
    && (forall x :: 0 <= x < |vs| && d0[x] != -1 ==> d[x] == d0[x] && lo[x] == lo0[x])
    && Above(vs, d, lo, on, st, |st0|, u, f) && Explored(vs, d, lo, on, u, ws)
  }

  /** Discovering u starts the loop over its edges. */
  lemma ExploringStart(vs: seq<Vertex>, d0: seq<int>, lo0: seq<int>, on0: seq<bool>, st0: seq<nat>,
                       sccs0: seq<seq<nat>>, t0: int, u: nat, f: int)
    requires TarjanState(vs, d0, on0, st0, sccs0, t0) && |lo0| == |vs| && t0 >= 0
    requires u < |vs| && d0[u] == -1 && f <= t0 + 1 && FloorBelow(d0, st0, f)
    ensures TarjanState(vs, d0[u := t0 + 1], on0[u := true], st0 + [u], sccs0, t0 + 1)
    ensures Exploring(vs, d0, lo0, st0, sccs0, t0, d0[u := t0 + 1], lo0[u := t0 + 1], on0[u := true],
                      st0 + [u], sccs0, t0 + 1, u, f, {})
  {
    var d, lo, on, st := d0[u := t0 + 1], lo0[u := t0 + 1], on0[u := true], st0 + [u];
    DiscoverKeepsState(vs, d0, on0, st0, sccs0, t0, u);
    DiscoverAbove(vs, d, lo, on, st, u, f);
    assert st[..|st0|] == st0;
    forall i | 0 <= i < |st|
      ensures st[i] < |d| && f <= d[st[i]]
    {
      if i < |st0| {
        assert st[i] == st0[i] && d0[st0[i]] != -1;
      }
    }
  }

  /** One more edge handled keeps the loop invariant. */
  lemma ExploringStep(vs: seq<Vertex>, d0: seq<int>, lo0: seq<int>, st0: seq<nat>, sccs0: seq<seq<nat>>, t0: int,
                      d: seq<int>, lo: seq<int>, on: seq<bool>, st: seq<nat>, sccs: seq<seq<nat>>, t: int,
                      d': seq<int>, lo': seq<int>, on': seq<bool>, st': seq<nat>, sccs': seq<seq<nat>>, t': int,
                      u: nat, f: int, remaining: set<nat>, v: nat)
    requires u < |vs| && v in remaining && remaining <= vs[u].dsEdge
    requires Exploring(vs, d0, lo0, st0, sccs0, t0, d, lo, on, st, sccs, t, u, f, vs[u].dsEdge - remaining)
    requires StepSpec(vs, d, lo, st, sccs, t, d', lo', on', st', sccs', t', u, |st0|, f, (vs[u].dsEdge - remaining) + {v})
    ensures Exploring(vs, d0, lo0, st0, sccs0, t0, d', lo', on', st', sccs', t', u, f, vs[u].dsEdge - (remaining - {v}))
  {
    assert vs[u].dsEdge - (remaining - {v}) == (vs[u].dsEdge - remaining) + {v};
    assert st'[..|st0|] == st[..|st0|] && st'[|st0|] == st[|st0|];
    assert sccs'[..|sccs0|] == sccs[..|sccs0|];
    forall i | |st0| <= i < |st'|
      ensures st'[i] < |vs| && d0[st'[i]] == -1
    {
      if i < |st| {
        assert st'[i] == st[i];
      }
    }
  }

  /** The tree-edge case of the loop as a step: the call for an undiscovered
    * v, then low[u] takes the smaller of itself and low[v]. */
  lemma ChildStep(vs: seq<Vertex>, d0: seq<int>, lo0: seq<int>, on0: seq<bool>, st0: seq<nat>, sccs0: seq<seq<nat>>, t0: int,
                  d1: seq<int>, lo1: seq<int>, on1: seq<bool>, st1: seq<nat>, sccs1: seq<seq<nat>>, t1: int,
                  p: nat, u: nat, v: nat, f: int, ws: set<nat>)
    requires TarjanState(vs, d0, on0, st0, sccs0, t0) && TarjanState(vs, d1, on1, st1, sccs1, t1)
    requires Above(vs, d0, lo0, on0, st0, p, u, f) && Explored(vs, d0, lo0, on0, u, ws) && FloorBelow(d0, st0, f)
    requires u < |vs| && v < |vs| && v in vs[u].dsEdge && d0[v] == -1
    requires VisitSpec(vs, d0, lo0, st0, sccs0, t0, d1, lo1, on1, st1, sccs1, t1, v, f)
    ensures StepSpec(vs, d0, lo0, st0, sccs0, t0, d1, lo1[u := Min(lo1[u], lo1[v])], on1, st1, sccs1, t1, u, p, f, ws + {v})
    ensures |Undiscovered(d1)| <= |Undiscovered(d0)|
  {
    StackGrew(d0, on0, st0, on1, st1);
    CallLeftOnStack(d0, st0, on1, st1, v);
    assert AboveAt(vs, d0, lo0, on0, st0, p, u, f, p);
    assert lo0[u] <= d0[u] <= t0;
    AfterChild(vs, d0, lo0, on0, st0, d1, lo1, on1, st1, p, u, v, f, ws);
    UndiscoveredMonotone(d0, d1);
  }

  /** The back-edge case of the loop as a step. */
  lemma OnStackStep(vs: seq<Vertex>, d: seq<int>, lo: seq<int>, on: seq<bool>, st: seq<nat>, sccs: seq<seq<nat>>, t: int,
                    p: nat, u: nat, v: nat, f: int, ws: set<nat>)
    requires TarjanState(vs, d, on, st, sccs, t) && |lo| == |vs|
    requires Above(vs, d, lo, on, st, p, u, f) && Explored(vs, d, lo, on, u, ws) && FloorBelow(d, st, f)
    requires u < |vs| && v < |vs| && v in vs[u].dsEdge && d[v] != -1 && on[v]
    ensures StepSpec(vs, d, lo, st, sccs, t, d, lo[u := Min(lo[u], d[v])], on, st, sccs, t, u, p, f, ws + {v})
  {
    AfterOnStack(vs, d, lo, on, st, p, u, v, f, ws);
    assert st[..|st|] == st && sccs[..|sccs|] == sccs;
  }

  /** An edge to a vertex already settled changes nothing. */
  lemma SettledStep(vs: seq<Vertex>, d: seq<int>, lo: seq<int>, on: seq<bool>, st: seq<nat>, sccs: seq<seq<nat>>, t: int,
                    p: nat, u: nat, v: nat, f: int, ws: set<nat>)
    requires TarjanState(vs, d, on, st, sccs, t) && |lo| == |vs|
    requires Above(vs, d, lo, on, st, p, u, f) && Explored(vs, d, lo, on, u, ws) && FloorBelow(d, st, f)
    requires u < |vs| && v < |vs| && d[v] != -1 && !on[v]
    ensures StepSpec(vs, d, lo, st, sccs, t, d, lo, on, st, sccs, t, u, p, f, ws + {v})
  {
    assert st[..|st|] == st && sccs[..|sccs|] == sccs;
  }

  /** Popping at the root u, once every edge of u is explored, completes the
    * call: the state is kept and the stack is back to what it was. */
  lemma RootStep(vs: seq<Vertex>, d0: seq<int>, lo0: seq<int>, st0: seq<nat>, sccs0: seq<seq<nat>>, t0: int,
                 d: seq<int>, lo: seq<int>, on: seq<bool>, st: seq<nat>, sccs: seq<seq<nat>>, t: int,
                 u: nat, f: int, on': seq<bool>, sub: seq<nat>, sccs': seq<seq<nat>>)
    requires TarjanState(vs, d, on, st, sccs, t)
    requires u < |vs| && Exploring(vs, d0, lo0, st0, sccs0, t0, d, lo, on, st, sccs, t, u, f, vs[u].dsEdge) && lo[u] == d[u]
    requires Unflagged(on, on', st, |st0|)
    requires |sub| == |st| - |st0| && forall i :: 0 <= i < |sub| ==> sub[i] == st[|st| - 1 - i]
    requires sccs' == if |sub| > 1 then sccs + [sub] else sccs
    ensures TarjanState(vs, d, on', st0, sccs', t)
    ensures VisitSpec(vs, d0, lo0, st0, sccs0, t0, d, lo, on', st0, sccs', t, u, f)
  {
    PopKeepsState(vs, d, lo, on, st, sccs, t, |st0|, u, f, on', sub, sccs');
    assert st[..|st0|] == st0;
    assert sccs'[..|sccs0|] == sccs[..|sccs0|];
    forall i | 0 <= i < |st0|
      ensures st0[i] < |d| && f <= d[st0[i]]
    {
      assert st0[i] == st[i];
    }
  }

  /** A vertex that is not a root, once every edge is explored, completes the
    * call staying on the stack. */
  lemma NonRootStep(vs: seq<Vertex>, d0: seq<int>, lo0: seq<int>, st0: seq<nat>, sccs0: seq<seq<nat>>, t0: int,
                    d: seq<int>, lo: seq<int>, on: seq<bool>, st: seq<nat>, sccs: seq<seq<nat>>, t: int,
                    u: nat, f: int)
    requires u < |vs| && Exploring(vs, d0, lo0, st0, sccs0, t0, d, lo, on, st, sccs, t, u, f, vs[u].dsEdge) && lo[u] != d[u]
    ensures VisitSpec(vs, d0, lo0, st0, sccs0, t0, d, lo, on, st, sccs, t, u, f)
  {
    assert AboveAt(vs, d, lo, on, st, |st0|, u, f, |st0|);
  }

  /** No vertex above position p on an ordered stack is the one at p. */
  lemma AboveDistinct(d: seq<int>, st: seq<nat>, p: nat)
    requires StackOrdered(d, st) && p < |st|
    ensures forall i :: p < i < |st| ==> st[i] != st[p]
  {
    forall i | p < i < |st|
      ensures st[i] != st[p]
    {
      assert d[st[p]] < d[st[i]];
    }
  }

  /** The state of FindStronglyConnectedComponents' loop before vertex v:
    * the stack is empty and every vertex below v is discovered. */
  ghost predicate Scanned(vs: seq<Vertex>, d: seq<int>, on: seq<bool>, sccs: seq<seq<nat>>, t: int, v: nat)
  {
    TarjanState(vs, d, on, [], sccs, t) && t >= 0 && forall x :: 0 <= x < v && x < |d| ==> d[x] != -1
  }

  lemma ScanStart(vs: seq<Vertex>)
    ensures Scanned(vs, seq(|vs|, _ => -1), seq(|vs|, _ => false), [], 0, 0)
  {
  }

  /** A call of SCCAlgorithm from an undiscovered v with the floor at the
    * next discovery time leaves the stack empty and v discovered. */
  lemma ScanStep(vs: seq<Vertex>, d0: seq<int>, lo0: seq<int>, on0: seq<bool>, sccs0: seq<seq<nat>>, t0: int, v: nat,
                 d1: seq<int>, lo1: seq<int>, on1: seq<bool>, st1: seq<nat>, sccs1: seq<seq<nat>>, t1: int)
    requires Scanned(vs, d0, on0, sccs0, t0, v) && v < |d0| && d0[v] == -1
    requires TarjanState(vs, d1, on1, st1, sccs1, t1)
    requires VisitSpec(vs, d0, lo0, [], sccs0, t0, d1, lo1, on1, st1, sccs1, t1, v, t0 + 1)
    ensures st1 == [] && Scanned(vs, d1, on1, sccs1, t1, v + 1)
  {
  }

  /** Once every vertex is discovered and the stack is empty, every vertex is
    * settled: the components are exactly the vertices on cycles. */
  lemma ScanEnd(vs: seq<Vertex>, d: seq<int>, on: seq<bool>, sccs: seq<seq<nat>>, t: int)
    requires Scanned(vs, d, on, sccs, t, |vs|)
    ensures ComponentsOver(sccs, |vs|) && ComponentsDisjoint(sccs)
    ensures ComponentsConnected(vs, sccs) && ComponentsMaximal(vs, sccs)
    ensures forall x :: 0 <= x < |vs| ==> (InSome(sccs, x) <==> OnCycle(vs, x))
  {
    forall x | 0 <= x < |vs|
      ensures InSome(sccs, x) <==> OnCycle(vs, x)
    {
      if InSome(sccs, x) {
        ComponentMembersOnCycle(vs, sccs, x);
      }
      assert Settled(d, on, x);
    }
  }

  class DirectedGraph {
    var vertices: seq<Vertex>
    var validFlags: seq<bool>

    ghost predicate Valid()
      reads this
    {
      |validFlags| == |vertices| && EdgesInRange(vertices) && UsEdgesInRange(vertices)
    }

    constructor ()
      ensures Valid() && vertices == [] && validFlags == []
    {
      vertices := [];
      validFlags := [];
    }

    /** AddVertex(id, context): appends a valid vertex with the given id. */
    method AddVertexWithId(id: nat)
      requires Valid()
      modifies this
      ensures Valid()
      ensures vertices == old(vertices) + [NewVertex(id)]
      ensures validFlags == old(validFlags) + [true]
    {
      vertices := vertices + [NewVertex(id)];
      validFlags := validFlags + [true];
    }

    /** AddVertex(context): the new vertex's id is the previous vertex count. */
    method AddVertex()
      requires Valid()
      modifies this
      ensures Valid()
      ensures vertices == old(vertices) + [NewVertex(|old(vertices)|)]
      ensures validFlags == old(validFlags) + [true]
    {
      AddVertexWithId(|vertices|);
    }

    /** RemoveVertex(v): a logic error when v is not below the vertex count
      * (v is a size_t, so a negative argument is a huge one); otherwise v is
      * erased from both edge sets of every adjacent vertex and flagged
      * invalid. */
    method RemoveVertex(v: int) returns (r: Result<()>)
      requires Valid()
      modifies this
      ensures Valid()
      ensures r.Failure? <==> !(0 <= v < |old(vertices)|)
      ensures r.Failure? ==>
        (r.error == LogicError && vertices == old(vertices) && validFlags == old(validFlags))
      ensures r.Success? ==>
        (vertices == Detached(old(vertices), v) && validFlags == old(validFlags)[v := false])
    {
      if !(0 <= v < |vertices|) {
        return Failure(LogicError);
      }
      ghost var vs := vertices;
      var adj := vertices[v].usEdge + vertices[v].dsEdge;
      var remaining := adj;
      while remaining != {}
        invariant remaining <= adj
        invariant vertices == PartlyDetached(vs, v, adj - remaining)
        invariant validFlags == old(validFlags)
        decreases |remaining|
      {
        var u :| u in remaining;
        assert u < |vertices|;
        vertices := vertices[u := vertices[u].(usEdge := vertices[u].usEdge - {v},
                                               dsEdge := vertices[u].dsEdge - {v})];
        remaining := remaining - {u};
      }
      validFlags := validFlags[v := false];
      assert vertices == Detached(vs, v);
      return Success(());
    }

    /** AddEdge(from, to, weight): both endpoints must exist (the accessor
      * does not range-check); always returns true. */
    method AddEdge(from: nat, to: nat, w: real) returns (r: bool)
      requires Valid() && from < |vertices| && to < |vertices|
      modifies this
      ensures Valid() && r
      ensures vertices == WithEdge(old(vertices), from, to, w)
      ensures validFlags == old(validFlags)
    {
      vertices := vertices[from := vertices[from].(dsEdge := vertices[from].dsEdge + {to},
                                                   dsWeights := vertices[from].dsWeights[to := w])];
      vertices := vertices[to := vertices[to].(usEdge := vertices[to].usEdge + {from},
                                               usWeights := vertices[to].usWeights[from := w])];
      return true;
    }

    /** RemoveEdge(from, to): erases the edge on both endpoints. */
    method RemoveEdge(from: nat, to: nat)
      requires Valid() && from < |vertices| && to < |vertices|
      modifies this
      ensures Valid()
      ensures vertices == WithoutEdge(old(vertices), from, to)
      ensures validFlags == old(validFlags)
    {
      vertices := vertices[from := vertices[from].(dsEdge := vertices[from].dsEdge - {to})];
      vertices := vertices[to := vertices[to].(usEdge := vertices[to].usEdge - {from})];
    }

    /** DFSAlgorithm: appends cur, marks it visited, then recurses into each
      * unvisited downstream neighbour in ascending order. The appended part
      * lists cur and then only vertices that were unvisited, without
      * repetition; exactly those become visited; and every appended vertex
      * has all its downstream neighbours visited (DfsPost). */
    method DFSAlgorithm(traversal: seq<nat>, visited: array<bool>, cur: nat) returns (t: seq<nat>)
      requires Valid() && visited.Length == |vertices| && cur < |vertices|
      modifies visited
      ensures DfsPost(vertices, traversal, cur, old(visited[..]), t, visited[..])
      decreases |Unvisited(visited[..])| + (if visited[cur] then 1 else 0)
    {
      ghost var before := visited[..];
      t := traversal + [cur];
      visited[cur] := true;
      DfsStart(vertices, traversal, cur, before, visited[..]);
      var remaining := vertices[cur].dsEdge;
      while remaining != {}
        invariant DfsInv(vertices, traversal, cur, before, t, visited[..], remaining)
        decreases |remaining|
      {
        var v := SetMin(remaining);
        if !visited[v] {
          ghost var mid := visited[..];
          ghost var tMid := t;
          UnvisitedMonotone(before, mid);
          if !before[cur] {
            UnvisitedShrinks(before, mid, cur);
          }
          t := DFSAlgorithm(t, visited, v);
          DfsStep(vertices, traversal, cur, before, tMid, mid, remaining, v, t, visited[..]);
        } else {
          DfsSkip(vertices, traversal, cur, before, t, visited[..], remaining, v);
        }
        remaining := remaining - {v};
      }
      DfsDone(vertices, traversal, cur, before, t, visited[..]);
    }

    /** The pop loop of SCCAlgorithm for a root u: pops the stack down to and
      * including u (which sits at position |below|), returning the popped
      * vertices in pop order and clearing their on-stack flags. */
    method PopComponent(u: nat, below: seq<nat>, stack: seq<nat>, onStack: array<bool>)
      returns (rest: seq<nat>, sub: seq<nat>)
      requires |stack| > |below| && stack[..|below|] == below && stack[|below|] == u
      requires forall i :: 0 <= i < |stack| ==> stack[i] < onStack.Length
      requires forall i :: |below| < i < |stack| ==> stack[i] != u
      modifies onStack
      ensures rest == below
      ensures |sub| == |stack| - |below| && sub[|sub| - 1] == u
      ensures forall i :: 0 <= i < |sub| ==> sub[i] == stack[|stack| - 1 - i]
      ensures Unflagged(old(onStack[..]), onStack[..], stack, |below|)
    {
      var st := stack;
      sub := [];
      while st[|st| - 1] != u
        invariant |st| > |below| && st[..|below|] == below && st[|below|] == u
        invariant st == stack[..|st|] && |sub| == |stack| - |st|
        invariant forall i :: 0 <= i < |sub| ==> sub[i] == stack[|stack| - 1 - i]
        invariant Unflagged(old(onStack[..]), onStack[..], stack, |st|)
        decreases |st|
      {
        var w := st[|st| - 1];
        assert stack[|st| - 1..] == [w] + stack[|st|..];
        sub := sub + [w];
        onStack[w] := false;
        st := st[..|st| - 1];
      }
      var w := st[|st| - 1];
      assert stack[|st| - 1..] == [w] + stack[|st|..];
      sub := sub + [w];
      onStack[w] := false;
      rest := st[..|st| - 1];
    }

    /** SCCAlgorithm (Tarjan): discovers u, explores its downstream
      * neighbours in ascending order, and when u is the root of a component
      * (low equal to discovery time) pops it off the stack, recording it only
      * when it has more than one vertex. The call keeps TarjanState (the
      * recorded components stay disjoint, strongly connected and maximal, and
      * every settled vertex on a cycle is in one of them) and does what
      * VisitSpec says. `floor` is a ghost lower bound on the discovery times
      * on the stack, which keeps every low value at or above it. */
    method SCCAlgorithm(u: nat, ghost floor: int, time: int, disc: array<int>, low: array<int>,
                        onStack: array<bool>, stack: seq<nat>, sccs: seq<seq<nat>>)
      returns (time': int, stack': seq<nat>, sccs': seq<seq<nat>>)
      requires Valid() && u < |vertices| && time >= 0
      requires disc.Length == |vertices| && low.Length == |vertices| && onStack.Length == |vertices|
      requires disc != low && disc[u] == -1
      requires TarjanState(vertices, disc[..], onStack[..], stack, sccs, time)
      requires floor <= time + 1 && FloorBelow(disc[..], stack, floor)
      modifies disc, low, onStack
      ensures TarjanState(vertices, disc[..], onStack[..], stack', sccs', time')
      ensures VisitSpec(vertices, old(disc[..]), old(low[..]), stack, sccs, time,
                        disc[..], low[..], onStack[..], stack', sccs', time', u, floor)
      ensures |Undiscovered(disc[..])| < old(|Undiscovered(disc[..])|)
      decreases |Undiscovered(disc[..])|, 0
    {
      ghost var d0, lo0, on0 := disc[..], low[..], onStack[..];
      time' := time + 1;
      disc[u] := time';
      low[u] := time';
      stack' := stack + [u];
      onStack[u] := true;
      sccs' := sccs;
      assert disc[..] == d0[u := time'] && low[..] == lo0[u := time'] && onStack[..] == on0[u := true];
      ExploringStart(vertices, d0, lo0, on0, stack, sccs, time, u, floor);
      UndiscoveredShrinks(d0, disc[..], u);
      time', stack', sccs' := ExploreEdges(u, floor, d0, lo0, stack, sccs, time, time', disc, low, onStack, stack', sccs');
      ghost var dE, loE, onE, stE, sccsE := disc[..], low[..], onStack[..], stack', sccs';
      if low[u] == disc[u] {
        AboveDistinct(dE, stE, |stack|);
        var sub;
        stack', sub := PopComponent(u, stack, stack', onStack);
        if |sub| > 1 {
          sccs' := sccs' + [sub];
        }
        assert disc[..] == dE && low[..] == loE;
        RootStep(vertices, d0, lo0, stack, sccs, time, dE, loE, onE, stE, sccsE, time', u, floor, onStack[..], sub, sccs');
      } else {
        NonRootStep(vertices, d0, lo0, stack, sccs, time, dE, loE, onE, stE, sccsE, time', u, floor);
      }
    }

    /** SCCAlgorithm's loop over the downstream neighbours of u, in
      * ascending order: afterwards every edge out of u is explored. */
    method ExploreEdges(u: nat, ghost floor: int, ghost d0: seq<int>, ghost lo0: seq<int>, ghost st0: seq<nat>,
                        ghost sccs0: seq<seq<nat>>, ghost t0: int, time: int,
                        disc: array<int>, low: array<int>, onStack: array<bool>,
                        stack: seq<nat>, sccs: seq<seq<nat>>)
      returns (time': int, stack': seq<nat>, sccs': seq<seq<nat>>)
      requires Valid() && u < |vertices|
      requires disc.Length == |vertices| && low.Length == |vertices| && onStack.Length == |vertices|
      requires disc != low
      requires TarjanState(vertices, disc[..], onStack[..], stack, sccs, time)
      requires Exploring(vertices, d0, lo0, st0, sccs0, t0, disc[..], low[..], onStack[..], stack, sccs, time, u, floor, {})
      requires |Undiscovered(disc[..])| < |Undiscovered(d0)|
      modifies disc, low, onStack
      ensures TarjanState(vertices, disc[..], onStack[..], stack', sccs', time')
      ensures Exploring(vertices, d0, lo0, st0, sccs0, t0, disc[..], low[..], onStack[..], stack', sccs', time',
                        u, floor, vertices[u].dsEdge)
      ensures |Undiscovered(disc[..])| < |Undiscovered(d0)|
      decreases |Undiscovered(disc[..])|, 2
    {
      time', stack', sccs' := time, stack, sccs;
      var remaining := vertices[u].dsEdge;
      assert vertices[u].dsEdge - remaining == {};
      while remaining != {}
        invariant remaining <= vertices[u].dsEdge
        invariant TarjanState(vertices, disc[..], onStack[..], stack', sccs', time')
        invariant Exploring(vertices, d0, lo0, st0, sccs0, t0, disc[..], low[..], onStack[..], stack', sccs', time',
                            u, floor, vertices[u].dsEdge - remaining)
        invariant |Undiscovered(disc[..])| <= old(|Undiscovered(disc[..])|)
        decreases |remaining|
      {
        var v := SetMin(remaining);
        ghost var ws := vertices[u].dsEdge - remaining;
        ghost var dA, loA, onA, stA, sccsA, timeA := disc[..], low[..], onStack[..], stack', sccs', time';
        time', stack', sccs' := ExploreEdge(u, v, |st0|, floor, time', disc, low, onStack, stack', sccs', ws);
        ExploringStep(vertices, d0, lo0, st0, sccs0, t0, dA, loA, onA, stA, sccsA, timeA,
                      disc[..], low[..], onStack[..], stack', sccs', time', u, floor, remaining, v);
        remaining := remaining - {v};
      }
      assert vertices[u].dsEdge - remaining == vertices[u].dsEdge;
    }

    /** One pass of SCCAlgorithm's loop over the downstream neighbours of
      * u, for the edge to v: an undiscovered v is visited and low[u] takes
      * the smaller of itself and low[v]; a v still on the stack lowers low[u]
      * to at most its discovery time; any other v changes nothing. */
    method ExploreEdge(u: nat, v: nat, ghost p: nat, ghost floor: int, time: int,
                       disc: array<int>, low: array<int>, onStack: array<bool>,
                       stack: seq<nat>, sccs: seq<seq<nat>>, ghost ws: set<nat>)
      returns (time': int, stack': seq<nat>, sccs': seq<seq<nat>>)
      requires Valid() && u < |vertices| && v in vertices[u].dsEdge && time >= 0
      requires disc.Length == |vertices| && low.Length == |vertices| && onStack.Length == |vertices|
      requires disc != low
      requires TarjanState(vertices, disc[..], onStack[..], stack, sccs, time)
      requires Above(vertices, disc[..], low[..], onStack[..], stack, p, u, floor)
      requires Explored(vertices, disc[..], low[..], onStack[..], u, ws)
      requires floor <= time + 1 && FloorBelow(disc[..], stack, floor)
      modifies disc, low, onStack
      ensures TarjanState(vertices, disc[..], onStack[..], stack', sccs', time')
      ensures StepSpec(vertices, old(disc[..]), old(low[..]), stack, sccs, time,
                       disc[..], low[..], onStack[..], stack', sccs', time', u, p, floor, ws + {v})
      ensures |Undiscovered(disc[..])| <= old(|Undiscovered(disc[..])|)
      decreases |Undiscovered(disc[..])|, 1
    {
      ghost var d0, lo0, on0 := disc[..], low[..], onStack[..];
      time', stack', sccs' := time, stack, sccs;
      if disc[v] == -1 {
        time', stack', sccs' := SCCAlgorithm(v, floor, time, disc, low, onStack, stack, sccs);
        ghost var d1, lo1, on1 := disc[..], low[..], onStack[..];
        ChildStep(vertices, d0, lo0, on0, stack, sccs, time, d1, lo1, on1, stack', sccs', time', p, u, v, floor, ws);
        low[u] := Min(low[u], low[v]);
        assert disc[..] == d1 && onStack[..] == on1 && low[..] == lo1[u := Min(lo1[u], lo1[v])];
      } else if onStack[v] {
        OnStackStep(vertices, d0, lo0, on0, stack, sccs, time, p, u, v, floor, ws);
        low[u] := Min(low[u], disc[v]);
        assert disc[..] == d0 && onStack[..] == on0 && low[..] == lo0[u := Min(lo0[u], d0[v])];
      } else {
        SettledStep(vertices, d0, lo0, on0, stack, sccs, time, p, u, v, floor, ws);
      }
    }

    /** FindStronglyConnectedComponents: runs SCCAlgorithm from every vertex
      * not yet discovered, in index order, and returns the components found,
      * singletons excluded. The components are disjoint, each strongly
      * connected and maximal, and a vertex is listed exactly when it lies on
      * a cycle through another vertex. The graph itself is not changed. */
    method FindStronglyConnectedComponents() returns (sccs: seq<seq<nat>>)
      requires Valid()
      ensures ComponentsOver(sccs, |vertices|) && ComponentsDisjoint(sccs)
      ensures ComponentsConnected(vertices, sccs) && ComponentsMaximal(vertices, sccs)
      ensures forall x :: 0 <= x < |vertices| ==> (InSome(sccs, x) <==> OnCycle(vertices, x))
    {
      var n := |vertices|;
      var disc := new int[n](_ => -1);
      var low := new int[n](_ => -1);
      var onStack := new bool[n](_ => false);
      var stack: seq<nat> := [];
      sccs := [];
      var time := 0;
      assert disc[..] == seq(n, _ => -1) && onStack[..] == seq(n, _ => false);
      ScanStart(vertices);
      for v := 0 to n
        invariant stack == [] && Scanned(vertices, disc[..], onStack[..], sccs, time, v)
      {
        if disc[v] == -1 {
          ghost var d0, lo0, on0, sccs0, time0 := disc[..], low[..], onStack[..], sccs, time;
          time, stack, sccs := SCCAlgorithm(v, time + 1, time, disc, low, onStack, stack, sccs);
          ScanStep(vertices, d0, lo0, on0, sccs0, time0, v, disc[..], low[..], onStack[..], stack, sccs, time);
        }
      }
      ScanEnd(vertices, disc[..], onStack[..], sccs, time);
    }

    /** GenerateTopologicalSort (Kahn): works on a copy of the vertices, so
      * the graph is unchanged. Returns the empty list when no vertex is free
      * of incoming edges or when the output does not cover every vertex;
      * otherwise the ids of the vertices in the order produced (`order`
      * holds their indices). On a linked graph whose vertices are all valid
      * and whose ids are their indices, a non-empty result lists every vertex
      * once, each after all of its upstream neighbours. */
    method GenerateTopologicalSort() returns (r: seq<nat>, ghost order: seq<nat>)
      requires Valid()
      ensures r == [] || |r| == |vertices|
      ensures r != [] ==> (forall i :: 0 <= i < |order| ==> order[i] < |vertices|) && r == Ids(vertices, order)
      ensures r != [] && AllValid(validFlags) && Linked(vertices, validFlags) && IdsAreIndices(vertices) ==>
        Distinct(order) && EdgesForward(vertices, order)
    {
      ghost var sym := AllValid(validFlags) && Linked(vertices, validFlags) && IdsAreIndices(vertices);
      if sym {
        LinkedAllValidSymmetric(vertices, validFlags);
      }
      var cur := vertices;
      var S: seq<nat> := [];
      var L: seq<nat> := [];
      order := [];
      var n := |vertices|;
      for i := 0 to n
        invariant forall k :: 0 <= k < |S| ==> S[k] < i && cur[S[k]].usEdge == {}
        invariant forall k, j :: 0 <= k < j < |S| ==> S[k] < S[j]
      {
        if validFlags[i] && cur[i].usEdge == {} {
          S := S + [i];
        }
      }
      if S == [] {
        return [], order;
      }
      KahnInit(vertices, S, sym);
      while S != []
        invariant KahnInv(vertices, cur, S, order, {}, sym)
        invariant L == Ids(vertices, order)
        decreases DsTotal(cur) + |S|
      {
        var node := S[|S| - 1];
        KahnPop(vertices, cur, S, order, sym);
        S := S[..|S| - 1];
        order := order + [node];
        L := L + [cur[node].id];
        assert L == Ids(vertices, order);
        cur, S := ReleaseDownstream(vertices, cur, S, order, node, sym);
      }
      if |L| != |vertices| {
        return [], order;
      }
      r := L;
      if sym {
        KahnDone(vertices, order);
      }
    }

    /** The first valid sink in index order, if any (the sink search of
      * FindApproxMinimumFAS). */
    method FirstSink() returns (u: Option<nat>)
      requires Valid()
      ensures u.Some? ==> u.value < |vertices| && validFlags[u.value] && vertices[u.value].dsEdge == {}
      ensures u.Some? ==> forall j :: 0 <= j < u.value && validFlags[j] ==> vertices[j].dsEdge != {}
      ensures u.None? ==> NoSinks(vertices, validFlags)
    {
      for i := 0 to |vertices|
        invariant forall j :: 0 <= j < i && validFlags[j] ==> vertices[j].dsEdge != {}
      {
        if validFlags[i] && vertices[i].dsEdge == {} {
          return Some(i);
        }
      }
      return None;
    }

    /** The first valid source in index order, if any. */
    method FirstSource() returns (u: Option<nat>)
      requires Valid()
      ensures u.Some? ==> u.value < |vertices| && validFlags[u.value] && vertices[u.value].usEdge == {}
      ensures u.Some? ==> forall j :: 0 <= j < u.value && validFlags[j] ==> vertices[j].usEdge != {}
      ensures u.None? ==> forall j :: 0 <= j < |vertices| && validFlags[j] ==> vertices[j].usEdge != {}
    {
      for i := 0 to |vertices|
        invariant forall j :: 0 <= j < i && validFlags[j] ==> vertices[j].usEdge != {}
      {
        if validFlags[i] && vertices[i].usEdge == {} {
          return Some(i);
        }
      }
      return None;
    }

    /** GetVertexDelta: the weights of the outgoing edges minus those of the
      * incoming edges, each set visited in ascending order. */
    static method VertexDelta(v: Vertex) returns (delta: real)
      ensures delta == Delta(v)
    {
      delta := 0.0;
      var rest := v.dsEdge;
      while rest != {}
        invariant delta + WeightSum(v.dsWeights, rest) == WeightSum(v.dsWeights, v.dsEdge)
        decreases |rest|
      {
        var x := SetMin(rest);
        delta := delta + 1.0 * WeightOf(v.dsWeights, x);
        rest := rest - {x};
      }
      rest := v.usEdge;
      while rest != {}
        invariant delta - WeightSum(v.usWeights, rest) == Delta(v)
        decreases |rest|
      {
        var x := SetMin(rest);
        delta := delta - 1.0 * WeightOf(v.usWeights, x);
        rest := rest - {x};
      }
    }

    /** The max-delta search as written: starts from (-1, -100.0) and keeps
      * the first valid vertex whose delta beats the best so far. */
    method MaxDeltaAsWritten() returns (id: int)
      requires Valid()
      ensures id == -1 <==> forall j :: 0 <= j < |vertices| && validFlags[j] ==> Delta(vertices[j]) <= -100.0
      ensures id != -1 ==>
        (0 <= id < |vertices| && validFlags[id] && Delta(vertices[id]) > -100.0
         && (forall j :: 0 <= j < |vertices| && validFlags[j] ==> Delta(vertices[j]) <= Delta(vertices[id]))
         && (forall j :: 0 <= j < id && validFlags[j] ==> Delta(vertices[j]) < Delta(vertices[id])))
    {
      id := -1;
      var best := -100.0;
      for i := 0 to |vertices|
        invariant id == -1 ==> best == -100.0
        invariant id != -1 ==> 0 <= id < i && validFlags[id] && best == Delta(vertices[id]) && best > -100.0
        invariant forall j :: 0 <= j < i && validFlags[j] ==> Delta(vertices[j]) <= best
        invariant id != -1 ==> forall j :: 0 <= j < id && validFlags[j] ==> Delta(vertices[j]) < best
      {
        if validFlags[i] {
          var delta := VertexDelta(vertices[i]);
          if delta > best {
            id, best := i, delta;
          }
        }
      }
    }

    /** The max-delta search as intended: the first valid vertex of largest
      * delta, and nothing only when no vertex is valid. */
    method MaxDelta() returns (best: Option<nat>)
      requires Valid()
      ensures best.None? <==> forall j :: 0 <= j < |vertices| ==> !validFlags[j]
      ensures best.Some? ==>
        (best.value < |vertices| && validFlags[best.value]
         && (forall j :: 0 <= j < |vertices| && validFlags[j] ==> Delta(vertices[j]) <= Delta(vertices[best.value]))
         && (forall j :: 0 <= j < best.value && validFlags[j] ==> Delta(vertices[j]) < Delta(vertices[best.value])))
    {
      best := None;
      var bestDelta := 0.0;
      for i := 0 to |vertices|
        invariant best.None? <==> forall j :: 0 <= j < i ==> !validFlags[j]
        invariant best.Some? ==> best.value < i && validFlags[best.value] && bestDelta == Delta(vertices[best.value])
        invariant best.Some? ==> forall j :: 0 <= j < i && validFlags[j] ==> Delta(vertices[j]) <= bestDelta
        invariant best.Some? ==> forall j :: 0 <= j < best.value && validFlags[j] ==> Delta(vertices[j]) < bestDelta
      {
        if validFlags[i] {
          var delta := VertexDelta(vertices[i]);
          if best.None? || delta > bestDelta {
            best, bestDelta := Some(i), delta;
          }
        }
      }
    }

    /** FindApproxMinimumFAS as intended (Eades, Lin and Smyth): repeatedly
      * remove sinks (collected in s2), then sources (appended to s1), then
      * the vertex of largest delta (appended to s1) while any vertex is
      * left, and return s1 followed by s2. Every vertex of the graph is
      * removed, and the result lists each vertex that was valid exactly
      * once. */
    method FindApproxMinimumFAS() returns (s: seq<nat>)
      requires Valid() && IdsAreIndices(vertices) && Linked(vertices, validFlags)
      modifies this
      ensures Valid() && IdsAreIndices(vertices) && |vertices| == |old(vertices)|
      ensures forall v :: 0 <= v < |validFlags| ==> !validFlags[v]
      ensures Distinct(s) && forall v: nat :: v in s <==> (v < |vertices| && old(validFlags)[v])
    {
      ghost var flags0 := validFlags;
      var s1: seq<nat>, s2: seq<nat> := [], [];
      while CountTrue(validFlags) > 0
        invariant Valid() && IdsAreIndices(vertices) && Linked(vertices, validFlags)
        invariant FasInv(flags0, validFlags, s1, s2)
        decreases CountTrue(validFlags)
      {
        ghost var count0 := CountTrue(validFlags);
        while true
          invariant Valid() && IdsAreIndices(vertices) && Linked(vertices, validFlags)
          invariant FasInv(flags0, validFlags, s1, s2) && CountTrue(validFlags) <= count0
          decreases CountTrue(validFlags)
        {
          var u := FirstSink();
          if u.None? {
            break;
          }
          s2 := RemoveForFas(u.value, s1, s2, false, flags0);
        }
        while true
          invariant Valid() && IdsAreIndices(vertices) && Linked(vertices, validFlags)
          invariant FasInv(flags0, validFlags, s1, s2) && CountTrue(validFlags) <= count0
          decreases CountTrue(validFlags)
        {
          var u := FirstSource();
          if u.None? {
            break;
          }
          s1 := RemoveForFas(u.value, s1, s2, true, flags0);
        }
        var best := MaxDelta();
        if best.Some? {
          s1 := RemoveForFas(best.value, s1, s2, true, flags0);
        } else {
          CountTrueZero(validFlags);
        }
      }
      CountTrueZero(validFlags);
      DistinctAppend(s1, s2);
      s := s1 + s2;
    }

    /** One removal of FindApproxMinimumFAS: RemoveVertex(u.id), then u is
      * appended to s1 (front) or to s2. Returns the extended sequence. */
    method RemoveForFas(u: nat, s1: seq<nat>, s2: seq<nat>, front: bool, ghost flags0: seq<bool>)
      returns (s': seq<nat>)
      requires Valid() && IdsAreIndices(vertices) && Linked(vertices, validFlags)
      requires u < |vertices| && validFlags[u] && FasInv(flags0, validFlags, s1, s2)
      modifies this
      ensures Valid() && IdsAreIndices(vertices) && Linked(vertices, validFlags)
      ensures vertices == Detached(old(vertices), u) && validFlags == old(validFlags)[u := false]
      ensures CountTrue(validFlags) + 1 == CountTrue(old(validFlags))
      ensures front ==> s' == s1 + [u] && FasInv(flags0, validFlags, s', s2)
      ensures !front ==> s' == s2 + [u] && FasInv(flags0, validFlags, s1, s')
    {
      DetachedKeepsLinked(vertices, validFlags, u);
      CountTrueClear(validFlags, u);
      if front {
        FasRemoveFront(flags0, validFlags, s1, s2, u);
      } else {
        FasRemoveBack(flags0, validFlags, s1, s2, u);
      }
      var r := RemoveVertex(vertices[u].id);
      s' := if front then s1 + [u] else s2 + [u];
    }

    /** FindApproxMinimumFAS as written: the max-delta step runs even when
      * the sink and source phases have emptied the graph, and then calls
      * RemoveVertex(-1), whose range check raises a logic error. On a linked
      * graph without self-loops the last vertex is always removed by the
      * sink or source phase, so every call on a non-empty such graph fails. */
    method FindApproxMinimumFASAsWritten() returns (r: Result<seq<nat>>)
      requires Valid() && IdsAreIndices(vertices) && Linked(vertices, validFlags)
      modifies this
      ensures Valid() && |vertices| == |old(vertices)|
      ensures r.Success? ==>
        (Distinct(r.value) && forall v: nat :: v in r.value <==> (v < |vertices| && old(validFlags)[v]))
      ensures r.Failure? ==> r.error == LogicError
      ensures old(NoSelfLoops(vertices)) && old(CountTrue(validFlags)) > 0 ==> r == Failure(LogicError)
    {
      ghost var flags0 := validFlags;
      ghost var doomed := NoSelfLoops(vertices) && CountTrue(validFlags) > 0;
      var s1: seq<nat>, s2: seq<nat> := [], [];
      while CountTrue(validFlags) > 0
        invariant Valid() && IdsAreIndices(vertices) && Linked(vertices, validFlags)
        invariant FasInv(flags0, validFlags, s1, s2) && |vertices| == |flags0|
        invariant doomed ==> NoSelfLoops(vertices) && CountTrue(validFlags) > 0
        decreases CountTrue(validFlags)
      {
        ghost var count0 := CountTrue(validFlags);
        while true
          invariant Valid() && IdsAreIndices(vertices) && Linked(vertices, validFlags)
          invariant FasInv(flags0, validFlags, s1, s2) && CountTrue(validFlags) <= count0
          invariant doomed ==> NoSelfLoops(vertices)
          decreases CountTrue(validFlags)
        {
          var u := FirstSink();
          if u.None? {
            break;
          }
          if doomed {
            DetachedNoSelfLoops(vertices, u.value);
          }
          s2 := RemoveForFas(u.value, s1, s2, false, flags0);
        }
        while true
          invariant Valid() && IdsAreIndices(vertices) && Linked(vertices, validFlags)
          invariant FasInv(flags0, validFlags, s1, s2) && CountTrue(validFlags) <= count0
          invariant doomed ==> NoSelfLoops(vertices) && NoSinks(vertices, validFlags)
          decreases CountTrue(validFlags)
        {
          var u := FirstSource();
          if u.None? {
            break;
          }
          if doomed {
            DetachedNoSelfLoops(vertices, u.value);
            SourceRemovalKeepsNoSinks(vertices, validFlags, u.value);
          }
          s1 := RemoveForFas(u.value, s1, s2, true, flags0);
        }
        var id := MaxDeltaAsWritten();
        if id == -1 {
          var res := RemoveVertex(id);
          assert res.Failure?;
          return Failure(res.error);
        }
        if doomed {
          DetachedNoSelfLoops(vertices, id);
          NonSinkRemovalLeavesValid(vertices, validFlags, id);
        }
        s1 := RemoveForFas(id, s1, s2, true, flags0);
      }
      CountTrueZero(validFlags);
      DistinctAppend(s1, s2);
      return Success(s1 + s2);
    }

    /** Whether some valid vertex is a strict sink (GetNumSinks() > 0 under
      * the strict reading). */
    method HasStrictSink() returns (b: bool)
      requires Valid()
      ensures b <==> exists i :: 0 <= i < |vertices| && StrictSink(vertices, validFlags, i)
    {
      for i := 0 to |vertices|
        invariant forall j :: 0 <= j < i ==> !StrictSink(vertices, validFlags, j)
      {
        if validFlags[i] && vertices[i].dsEdge == {} && vertices[i].usEdge != {} {
          assert StrictSink(vertices, validFlags, i);
          return true;
        }
      }
      return false;
    }

    /** Whether some valid vertex is a strict source. */
    method HasStrictSource() returns (b: bool)
      requires Valid()
      ensures b <==> exists i :: 0 <= i < |vertices| && StrictSource(vertices, validFlags, i)
    {
      for i := 0 to |vertices|
        invariant forall j :: 0 <= j < i ==> !StrictSource(vertices, validFlags, j)
      {
        if validFlags[i] && vertices[i].usEdge == {} && vertices[i].dsEdge != {} {
          assert StrictSource(vertices, validFlags, i);
          return true;
        }
      }
      return false;
    }

    /** The sink and source phases of one round of FindApproxMinimumFAS as
      * written, under the strict reading of the header's counts: the loop
      * runs while a strict sink (source) is counted, and each pass removes
      * the first valid vertex without downstream (upstream) edges, which may
      * be a vertex without edges. Under this reading the phases never remove
      * the last vertex, so the max-delta step that follows always has a
      * vertex to look at. */
    method FasPhasesStrictCount(s1: seq<nat>, s2: seq<nat>, ghost flags0: seq<bool>)
      returns (s1': seq<nat>, s2': seq<nat>)
      requires Valid() && IdsAreIndices(vertices) && Linked(vertices, validFlags)
      requires FasInv(flags0, validFlags, s1, s2) && CountTrue(validFlags) > 0
      modifies this
      ensures Valid() && IdsAreIndices(vertices) && Linked(vertices, validFlags)
      ensures FasInv(flags0, validFlags, s1', s2')
      ensures CountTrue(validFlags) > 0
      ensures forall i :: 0 <= i < |vertices| ==> !StrictSource(vertices, validFlags, i)
    {
      s1', s2' := s1, s2;
      while true
        invariant Valid() && IdsAreIndices(vertices) && Linked(vertices, validFlags)
        invariant FasInv(flags0, validFlags, s1', s2') && CountTrue(validFlags) > 0
        decreases CountTrue(validFlags)
      {
        var counted := HasStrictSink();
        if !counted {
          break;
        }
        var u := FirstSink();
        ghost var b :| 0 <= b < |vertices| && StrictSink(vertices, validFlags, b);
        StrictSinkRemovalLeavesValid(vertices, validFlags, b, u.value);
        s2' := RemoveForFas(u.value, s1', s2', false, flags0);
      }
      while true
        invariant Valid() && IdsAreIndices(vertices) && Linked(vertices, validFlags)
        invariant FasInv(flags0, validFlags, s1', s2') && CountTrue(validFlags) > 0
        decreases CountTrue(validFlags)
      {
        var counted := HasStrictSource();
        if !counted {
          break;
        }
        var u := FirstSource();
        ghost var b :| 0 <= b < |vertices| && StrictSource(vertices, validFlags, b);
        StrictSourceRemovalLeavesValid(vertices, validFlags, b, u.value);
        s1' := RemoveForFas(u.value, s1', s2', true, flags0);
      }
    }

    /** RemoveCyclicDependencies: while strongly connected components
      * remain, break each of them (see BreakComponent) and search again.
      * Returns the removed edges; the graph afterwards is the graph before
      * with exactly those edges erased. The logic error raised by the
      * feedback-arc-set step of a large component ends the call, leaving the
      * edges removed until then erased. A round that removes no edge stops
      * the loop (the ghost `stalled` is then set); otherwise a successful
      * call leaves no vertex on a cycle through another vertex. */
    method RemoveCyclicDependencies() returns (r: Result<seq<(nat, nat)>>, ghost stalled: bool)
      requires Valid()
      modifies this
      ensures Valid() && validFlags == old(validFlags)
      ensures r.Failure? ==> r.error == LogicError
      ensures r.Success? ==> EdgesRemoved(old(vertices), vertices, r.value)
      ensures r.Success? ==> (stalled <==> exists x :: 0 <= x < |vertices| && OnCycle(vertices, x))
    {
      var removed := [];
      stalled := false;
      var sccs := FindStronglyConnectedComponents();
      while sccs != []
        invariant Valid() && validFlags == old(validFlags)
        invariant EdgesRemoved(old(vertices), vertices, removed)
        invariant ComponentsOver(sccs, |vertices|)
        invariant forall x :: 0 <= x < |vertices| ==> (InSome(sccs, x) <==> OnCycle(vertices, x))
        invariant !stalled
        decreases DsTotal(vertices)
      {
        var total := DsTotal(vertices);
        for c := 0 to |sccs|
          invariant Valid() && validFlags == old(validFlags)
          invariant EdgesRemoved(old(vertices), vertices, removed)
          invariant ComponentsOver(sccs, |vertices|)
        {
          var broken := BreakComponent(sccs[c], old(vertices), removed);
          if broken.Failure? {
            return Failure(broken.error), false;
          }
          removed := broken.value;
        }
        sccs := FindStronglyConnectedComponents();
        if sccs == [] {
          break;
        }
        if DsTotal(vertices) >= total {
          stalled := true;
          break;
        }
      }
      if stalled {
        assert |sccs[0]| > 1 && sccs[0][0] < |vertices|;
        assert InSome(sccs, sccs[0][0]);
      } else {
        forall x | 0 <= x < |vertices|
          ensures !OnCycle(vertices, x)
        {
          assert !InSome(sccs, x);
        }
      }
      return Success(removed), stalled;
    }

    /** The treatment of one component: with two vertices the edge from the
      * first to the second is removed; with three, the first edge (in
      * component order, then ascending target) between two of its vertices;
      * with more, every edge that points backwards in the feedback-arc-set
      * sequence of the component, once that sequence is found. The
      * feedback-arc-set step as written fails on every component without
      * self-loops, and then nothing is removed. */
    method BreakComponent(subDG: seq<nat>, ghost orig: seq<Vertex>, removed: seq<(nat, nat)>)
      returns (r: Result<seq<(nat, nat)>>)
      requires Valid() && |subDG| > 1 && forall j :: 0 <= j < |subDG| ==> subDG[j] < |vertices|
      requires EdgesRemoved(orig, vertices, removed)
      modifies this
      ensures Valid() && validFlags == old(validFlags)
      ensures r.Success? ==> EdgesRemoved(orig, vertices, r.value)
      ensures r.Failure? ==> r.error == LogicError && |subDG| > 3 && vertices == old(vertices)
      ensures |subDG| > 3 && (forall j :: 0 <= j < |subDG| ==> subDG[j] !in old(vertices)[subDG[j]].dsEdge) ==>
        r.Failure?
    {
      var removed' := removed;
      if |subDG| == 2 {
        EdgesRemovedStep(orig, vertices, removed, subDG[0], subDG[1]);
        RemoveEdge(subDG[0], subDG[1]);
        removed' := removed + [(subDG[0], subDG[1])];
      } else if |subDG| == 3 {
        for i := 0 to 3
          invariant Valid() && validFlags == old(validFlags)
          invariant EdgesRemoved(orig, vertices, removed')
        {
          var v := FirstTargetIn(subDG[i], subDG);
          if v.Some? {
            EdgesRemovedStep(orig, vertices, removed', subDG[i], v.value);
            RemoveEdge(subDG[i], v.value);
            removed' := removed' + [(subDG[i], v.value)];
            break;
          }
        }
      } else {
        var fas := FasBackEdges(subDG);
        if fas.Failure? {
          return Failure(fas.error);
        }
        var pairs := fas.value.0;
        for e := 0 to |pairs|
          invariant Valid() && validFlags == old(validFlags)
          invariant EdgesRemoved(orig, vertices, removed')
        {
          var u, v := subDG[pairs[e].0], subDG[pairs[e].1];
          EdgesRemovedStep(orig, vertices, removed', u, v);
          RemoveEdge(u, v);
          removed' := removed' + [(u, v)];
        }
      }
      return Success(removed');
    }

    /** The first downstream neighbour of u, in ascending order, that lies in
      * the list (the IsInList search of the three-vertex case). */
    method FirstTargetIn(u: nat, list: seq<nat>) returns (v: Option<nat>)
      requires Valid() && u < |vertices|
      ensures v.Some? ==> v.value in vertices[u].dsEdge && v.value in list
      ensures v.Some? ==> forall w :: w in vertices[u].dsEdge && w < v.value ==> w !in list
      ensures v.None? ==> forall w :: w in vertices[u].dsEdge ==> w !in list
    {
      var rest := vertices[u].dsEdge;
      while rest != {}
        invariant rest <= vertices[u].dsEdge
        invariant forall w :: w in vertices[u].dsEdge && w !in rest ==> w !in list
        invariant forall w, x :: w in vertices[u].dsEdge && w !in rest && x in rest ==> w < x
        decreases |rest|
      {
        var x := SetMin(rest);
        if x in list {
          return Some(x);
        }
        rest := rest - {x};
      }
      return None;
    }

    /** The many-vertex case: build a temporary graph whose vertex j stands
      * for subDG[j] and whose edges are the component's internal edges, find
      * its feedback-arc-set sequence s with FindApproxMinimumFAS as written,
      * and list, as local index pairs, the edges of the temporary graph that
      * point from a later to an earlier vertex of s. The logic error of the
      * feedback-arc-set step, certain when the component has no self-loop,
      * is passed on. */
    method FasBackEdges(subDG: seq<nat>) returns (r: Result<(seq<(nat, nat)>, seq<nat>)>)
      requires Valid() && forall j :: 0 <= j < |subDG| ==> subDG[j] < |vertices|
      ensures r.Failure? ==> r.error == LogicError
      ensures |subDG| > 0 && (forall j :: 0 <= j < |subDG| ==> subDG[j] !in vertices[subDG[j]].dsEdge) ==> r.Failure?
      ensures r.Success? ==>
        var (pairs, s) := r.value;
        |s| == |subDG| && Distinct(s) && (forall v: nat :: v in s <==> v < |subDG|) &&
        forall e :: e in pairs ==>
          (e.0 < |subDG| && e.1 < |subDG| && subDG[e.1] in vertices[subDG[e.0]].dsEdge
           && Find(s, e.1) < Find(s, e.0))
      ensures r.Success? ==>
        var (pairs, s) := r.value;
        forall i, v ::
          (0 <= i < |subDG| && v in vertices[subDG[i]].dsEdge && Find(subDG, v) < |subDG|
           && Find(s, Find(subDG, v)) < Find(s, i)) ==> (i, Find(subDG, v)) in pairs
    {
      var k := |subDG|;
      var tg := ComponentGraph(subDG);
      var vertsCopy := tg.vertices;
      if k > 0 && forall j :: 0 <= j < k ==> subDG[j] !in vertices[subDG[j]].dsEdge {
        TgInducedNoSelfLoops(tg.vertices, subDG, vertices);
        CountTrueZero(tg.validFlags);
        assert tg.validFlags[0];
      }
      var fas := tg.FindApproxMinimumFASAsWritten();
      if fas.Failure? {
        return Failure(fas.error);
      }
      var s := fas.value;
      DistinctLength(s, k);
      var smap := SequenceMap(s, k);
      var pairs := BackEdges(vertsCopy, smap, subDG, s);
      return Success((pairs, s));
    }

    /** The temporary graph of a component: one vertex per entry of subDG,
      * added with AddVertex(), and an edge j -> l, with the original weight,
      * for every edge from subDG[j] to a vertex first listed at l. */
    method ComponentGraph(subDG: seq<nat>) returns (tg: DirectedGraph)
      requires Valid() && forall j :: 0 <= j < |subDG| ==> subDG[j] < |vertices|
      ensures fresh(tg) && tg.Valid() && |tg.vertices| == |subDG| && IdsAreIndices(tg.vertices)
      ensures AllValid(tg.validFlags) && Linked(tg.vertices, tg.validFlags)
      ensures TgInduced(tg.vertices, subDG, vertices) && TgCovers(tg.vertices, subDG, vertices, |subDG|)
    {
      var k := |subDG|;
      tg := EmptyGraph(k);
      for mu := 0 to k
        modifies tg
        invariant tg.Valid() && |tg.vertices| == k && IdsAreIndices(tg.vertices)
        invariant AllValid(tg.validFlags) && Linked(tg.vertices, tg.validFlags)
        invariant TgInduced(tg.vertices, subDG, vertices) && TgCovers(tg.vertices, subDG, vertices, mu)
      {
        tg.AddInducedEdges(vertices, subDG, mu);
      }
    }

    /** A graph of k vertices added with AddVertex(), without edges. */
    static method EmptyGraph(k: nat) returns (tg: DirectedGraph)
      ensures fresh(tg) && tg.Valid() && |tg.vertices| == k && IdsAreIndices(tg.vertices)
      ensures AllValid(tg.validFlags) && Linked(tg.vertices, tg.validFlags)
      ensures forall j :: 0 <= j < k ==> tg.vertices[j].dsEdge == {} && tg.vertices[j].usEdge == {}
    {
      tg := new DirectedGraph();
      for i := 0 to k
        modifies tg
        invariant tg.Valid() && |tg.vertices| == i && IdsAreIndices(tg.vertices)
        invariant AllValid(tg.validFlags) && Linked(tg.vertices, tg.validFlags)
        invariant forall j :: 0 <= j < i ==> tg.vertices[j].dsEdge == {} && tg.vertices[j].usEdge == {}
      {
        tg.AddVertex();
      }
    }

    /** Adds to this temporary graph, for vertex mu of the component, an
      * edge to the local index of each of its downstream neighbours that
      * lies in the component, in ascending order. */
    method AddInducedEdges(vs: seq<Vertex>, subDG: seq<nat>, mu: nat)
      requires Valid() && |vertices| == |subDG| && IdsAreIndices(vertices)
      requires AllValid(validFlags) && Linked(vertices, validFlags)
      requires mu < |subDG| && forall j :: 0 <= j < |subDG| ==> subDG[j] < |vs|
      requires TgInduced(vertices, subDG, vs) && TgCovers(vertices, subDG, vs, mu)
      modifies this
      ensures Valid() && |vertices| == |subDG| && IdsAreIndices(vertices)
      ensures AllValid(validFlags) && Linked(vertices, validFlags)
      ensures TgInduced(vertices, subDG, vs) && TgCovers(vertices, subDG, vs, mu + 1)
    {
      var u := subDG[mu];
      var rest := vs[u].dsEdge;
      while rest != {}
        invariant Valid() && |vertices| == |subDG| && IdsAreIndices(vertices)
        invariant AllValid(validFlags) && Linked(vertices, validFlags)
        invariant TgInduced(vertices, subDG, vs) && rest <= vs[u].dsEdge
        invariant TgCovers(vertices, subDG, vs, mu) && CoversRow(vertices, subDG, mu, vs[u].dsEdge - rest)
        decreases |rest|
      {
        var v := SetMin(rest);
        AddInducedEdge(vs, subDG, mu, v, vs[u].dsEdge - rest);
        assert vs[u].dsEdge - (rest - {v}) == (vs[u].dsEdge - rest) + {v};
        rest := rest - {v};
      }
      CoversNext(vertices, subDG, vs, mu);
    }

    /** One step of AddInducedEdges: the edge from mu to the local index of
      * v, when v lies in the component. */
    method AddInducedEdge(vs: seq<Vertex>, subDG: seq<nat>, mu: nat, v: nat, ghost done: set<nat>)
      requires Valid() && |vertices| == |subDG| && IdsAreIndices(vertices)
      requires AllValid(validFlags) && Linked(vertices, validFlags)
      requires mu < |subDG| && forall j :: 0 <= j < |subDG| ==> subDG[j] < |vs|
      requires v in vs[subDG[mu]].dsEdge
      requires TgInduced(vertices, subDG, vs) && TgCovers(vertices, subDG, vs, mu) && CoversRow(vertices, subDG, mu, done)
      modifies this
      ensures Valid() && |vertices| == |subDG| && IdsAreIndices(vertices)
      ensures AllValid(validFlags) && Linked(vertices, validFlags)
      ensures TgInduced(vertices, subDG, vs) && TgCovers(vertices, subDG, vs, mu)
      ensures CoversRow(vertices, subDG, mu, done + {v})
    {
      var mapv := Find(subDG, v);
      if mapv < |subDG| {
        var w := WeightOf(vs[subDG[mu]].dsWeights, v);
        AddEdgeKeepsLinked(vertices, validFlags, mu, mapv, w);
        TgInducedAdd(vertices, subDG, vs, mu, mapv, w);
        CoversAdd(vertices, subDG, vs, mu, v, w, done);
        var _ := AddEdge(mu, mapv, w);
      }
    }

    /** smap: the position of each vertex in the sequence s. */
    static method SequenceMap(s: seq<nat>, k: nat) returns (smap: seq<int>)
      requires |s| == k && Distinct(s) && forall v: nat :: v in s <==> v < k
      ensures |smap| == k && forall x :: 0 <= x < k ==> smap[x] == Find(s, x)
    {
      smap := seq(k, _ => -1);
      for count := 0 to |s|
        invariant |smap| == k
        invariant forall x :: 0 <= x < k ==> smap[x] == (if Find(s, x) < count then Find(s, x) else -1)
      {
        FindDistinct(s, count);
        smap := smap[s[count] := count];
      }
    }

    /** The edges of the temporary graph that point backwards in s. */
    static method BackEdges(tg: seq<Vertex>, smap: seq<int>, ghost subDG: seq<nat>, ghost s: seq<nat>)
      returns (pairs: seq<(nat, nat)>)
      requires |tg| == |subDG| == |smap| && IdsAreIndices(tg) && EdgesInRange(tg)
      requires forall x :: 0 <= x < |smap| ==> smap[x] == Find(s, x)
      ensures forall e :: e in pairs ==>
        (e.0 < |tg| && e.1 < |tg| && e.1 in tg[e.0].dsEdge && Find(s, e.1) < Find(s, e.0))
      ensures forall i, v :: 0 <= i < |tg| && v in tg[i].dsEdge && Find(s, v) < Find(s, i) ==> (i, v) in pairs
    {
      pairs := [];
      for i := 0 to |tg|
        invariant forall e :: e in pairs ==>
          (e.0 < i && e.1 < |tg| && e.1 in tg[e.0].dsEdge && Find(s, e.1) < Find(s, e.0))
        invariant forall j, v :: 0 <= j < i && v in tg[j].dsEdge && Find(s, v) < Find(s, j) ==> (j, v) in pairs
      {
        var found := VertexBackEdges(tg, smap, s, i);
        pairs := pairs + found;
      }
    }

    /** The backward edges leaving vertex i of the temporary graph. */
    static method VertexBackEdges(tg: seq<Vertex>, smap: seq<int>, ghost s: seq<nat>, i: nat)
      returns (found: seq<(nat, nat)>)
      requires i < |tg| == |smap| && IdsAreIndices(tg) && EdgesInRange(tg)
      requires forall x :: 0 <= x < |smap| ==> smap[x] == Find(s, x)
      ensures forall e :: e in found ==>
        (e.0 == i && e.1 < |tg| && e.1 in tg[i].dsEdge && Find(s, e.1) < Find(s, i))
      ensures forall v :: v in tg[i].dsEdge && Find(s, v) < Find(s, i) ==> (i, v) in found
    {
      found := [];
      var u := tg[i];
      var curMap := smap[u.id];
      var rest := u.dsEdge;
      while rest != {}
        invariant rest <= u.dsEdge
        invariant forall e :: e in found ==>
          (e.0 == i && e.1 < |tg| && e.1 in u.dsEdge && Find(s, e.1) < Find(s, i))
        invariant forall v :: v in u.dsEdge && v !in rest && Find(s, v) < Find(s, i) ==> (i, v) in found
        decreases |rest|
      {
        var v := SetMin(rest);
        var adjMap := smap[v];
        if adjMap < curMap {
          found := found + [(u.id, v)];
        }
        rest := rest - {v};
      }
    }
  }
}
