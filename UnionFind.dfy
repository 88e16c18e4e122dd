/**
 * The disjoint-set forest of the TIP type checker
 * (`examples/tip/constraint/UnionFind.kt`): nodes linked to a parent, a rank
 * per node, union by rank and path compression in `root`.
 *
 * `Node` is an inner class of `UnionFind`; its `outer` field is the
 * enclosing forest. Each node's `parent` and `rank` are kept by that forest,
 * in the maps of its `state`; a node itself holds its `value`. The forest
 * also records, as ghost state, the nodes it has handed out, the root each
 * node leads to, and a bound on the ranks, which is what makes `root`
 * terminate.
 */
module UnionFind {

  /**
   * Every node's parent (`null` for a root) and rank; as ghost parts, the
   * nodes of the forest, the root each one leads to, and a bound on the ranks.
   */
  datatype State<T> = State(parent: map<Node<T>, Node?<T>>, rank: map<Node<T>, int>,
                            ghost nodes: set<Node<T>>, ghost rootOf: map<Node<T>, Node<T>>, ghost bound: int)

  class UnionFind<T> {
    var state: State<T>

    /** The links form a well-ranked forest over the nodes, and the nodes belong to this forest. */
    ghost predicate Valid()
      reads this
    {
      Forest(state.nodes, state.parent, state.rank, state.rootOf, state.bound) &&
      forall n :: n in state.nodes ==> n.outer == this
    }

    constructor()
      ensures Valid() && state.nodes == {}
    {
      state := State(map[], map[], {}, map[], 0);
    }

    /** `single`: a new node, alone in its own set, with no parent and rank 0. */
    method Single(value: T) returns (n: Node<T>)
      requires Valid()
      modifies this
      ensures Valid()
      ensures fresh(n) && n.value == value && n.outer == this
      ensures state == State(old(state.parent)[n := null], old(state.rank)[n := 0],
                             old(state.nodes) + {n}, old(state.rootOf)[n := n], old(state.bound))
    {
      n := new Node(value, this);
      AddKeepsForest(state.nodes, state.parent, state.rank, state.rootOf, state.bound, n);
      state := State(state.parent[n := null], state.rank[n := 0], state.nodes + {n}, state.rootOf[n := n], state.bound);
    }

    /** `unite(lhv, rhv)`: `lhv unite rhv`. */
    method Unite(lhv: Node<T>, rhv: Node<T>) returns (r: Node<T>)
      requires Valid() && lhv in state.nodes && rhv in state.nodes
      modifies this
      ensures Valid() && state.nodes == old(state.nodes)
      ensures state.rootOf[lhv] == r && state.rootOf[rhv] == r
      ensures Merged(old(state.rootOf), state.rootOf, old(state.rootOf[lhv]), old(state.rootOf[rhv]), r)
    {
      r := lhv.Unite(rhv);
    }

    /**
     * The `when` of `unite` on the two roots `lhv` and `rhv`: the root of
     * lower rank is linked under the other, which is returned; on equal
     * ranks `rhv` is linked under `lhv`, whose rank goes up by one. When
     * the two are the same root, it becomes its own parent.
     */
    method LinkRoots(lhv: Node<T>, rhv: Node<T>) returns (r: Node<T>)
      requires Valid() && lhv in state.nodes && rhv in state.nodes
      requires state.parent[lhv] == null && state.parent[rhv] == null
      modifies this
      ensures state.nodes == old(state.nodes)
      ensures r == if old(state.rank[lhv]) < old(state.rank[rhv]) then rhv else lhv
      ensures lhv == rhv ==> r in state.parent && state.parent[r] == r
      ensures lhv != rhv ==> Valid() && Merged(old(state.rootOf), state.rootOf, lhv, rhv, r)
      ensures r in state.rank && state.rank[r] == old(state.rank[r]) + (if old(state.rank[lhv]) < old(state.rank[rhv]) then 0 else 1)
      ensures forall n :: n in old(state.rank) && n != r ==> n in state.rank && state.rank[n] == old(state.rank[n])
      ensures var linked := if r == lhv then rhv else lhv;
        linked in state.parent && state.parent[linked] == r
    {
      if state.rank[lhv] < state.rank[rhv] {
        Link(lhv, rhv);
        r := rhv;
      } else if state.rank[rhv] > state.rank[lhv] {
        // Unreachable: the second branch of the Kotlin `when` repeats the first condition.
        assert false;
      } else {
        LinkRaising(rhv, lhv);
        r := lhv;
      }
    }

    /**
     * The first branch of `unite`'s `when`: the root `child` gets the root
     * `top`, of larger rank, as its parent.
     */
    method Link(child: Node<T>, top: Node<T>)
      requires Valid() && child in state.nodes && top in state.nodes
      requires state.parent[child] == null && state.parent[top] == null && state.rank[top] > state.rank[child]
      modifies this
      ensures Valid() && Merged(old(state.rootOf), state.rootOf, child, top, top)
      ensures state == old(state).(parent := old(state.parent)[child := top], rootOf := Relinked(old(state.rootOf), child, top))
    {
      ghost var s := state;
      var parent: map<Node<T>, Node?<T>>, rank: map<Node<T>, int> := state.parent, state.rank;
      state := state.(parent := parent[child := top], rootOf := Relinked(s.rootOf, child, top));
      LinkKeepsForest(s.nodes, parent, rank, s.rootOf, s.bound, child, top, state.parent, state.rootOf);
    }

    /**
     * The last branch of `unite`'s `when`: the root `child` gets the root
     * `top` as its parent and `top`'s rank goes up by one. When the two are
     * the same root, it becomes its own parent and the result is no forest.
     */
    method LinkRaising(child: Node<T>, top: Node<T>)
      requires Valid() && child in state.nodes && top in state.nodes
      requires state.parent[child] == null && state.parent[top] == null && state.rank[top] >= state.rank[child]
      modifies this
      ensures state == old(state).(parent := old(state.parent)[child := top],
                                   rank := old(state.rank)[top := old(state.rank[top]) + 1],
                                   rootOf := if child == top then old(state.rootOf) else Relinked(old(state.rootOf), child, top),
                                   bound := if child != top && old(state.bound) <= old(state.rank[top])
                                            then old(state.rank[top]) + 1 else old(state.bound))
      ensures child != top ==> Valid() && Merged(old(state.rootOf), state.rootOf, child, top, top)
    {
      ghost var s := state;
      var parent: map<Node<T>, Node?<T>>, rank: map<Node<T>, int> := state.parent, state.rank;
      var newRank := rank[top] + 1;
      state := state.(parent := parent[child := top], rank := rank[top := newRank],
                      rootOf := if child == top then s.rootOf else Relinked(s.rootOf, child, top),
                      bound := if child != top && s.bound <= rank[top] then newRank else s.bound);
      if child != top {
        LinkRaisingKeepsForest(s.nodes, parent, rank, s.rootOf, s.bound, child, top,
                               state.parent, state.rank, state.rootOf, state.bound);
      }
    }
  }

  class Node<T> {
    var value: T
    const outer: UnionFind<T>

    constructor(value: T, outer: UnionFind<T>)
      ensures this.value == value && this.outer == outer
    {
      this.value := value;
      this.outer := outer;
    }

    /**
     * `root`: follows the parent links to the node without a parent and
     * re-points every node passed on the way at that root. Only parent links
     * change, and each one that changes now leads straight to its root, so
     * no node's root changes.
     */
    method Root() returns (r: Node<T>)
      requires outer.Valid() && this in outer.state.nodes
      modifies outer
      ensures outer.Valid() && outer.state == old(outer.state).(parent := outer.state.parent)
      ensures r == outer.state.rootOf[this] && outer.state.parent[r] == null
      ensures Compressed(old(outer.state.parent), outer.state.parent, outer.state.rootOf)
      decreases outer.state.bound - outer.state.rank[this]
    {
      var p := outer.state.parent[this];
      if p == null {
        r := this;
      } else {
        r := p.Root();
        ghost var s := outer.state;
        CompressKeepsForest(s.nodes, outer.state.parent, outer.state.rank, s.rootOf, s.bound, this);
        CompressedStep(old(outer.state.parent), outer.state.parent, s.rootOf, this);
        outer.state := outer.state.(parent := outer.state.parent[this := r]);
      }
    }

    /**
     * `unite` as written: links the lower-ranked root under the other one and
     * returns the surviving root; on equal ranks, and whenever the left rank
     * is the larger, the left root's rank goes up by one. When both nodes
     * already have the same root, the last branch makes that root its own
     * parent, which no forest allows.
     */
    method UniteAsWritten(that: Node<T>) returns (r: Node<T>)
      requires outer.Valid() && this in outer.state.nodes && that in outer.state.nodes
      modifies outer
      ensures outer.state.nodes == old(outer.state.nodes)
      ensures old(outer.state.rootOf[this]) == old(outer.state.rootOf[that]) ==>
        r == old(outer.state.rootOf[this]) && r in outer.state.parent && outer.state.parent[r] == r
      ensures old(outer.state.rootOf[this]) != old(outer.state.rootOf[that]) ==>
        outer.Valid() &&
        Merged(old(outer.state.rootOf), outer.state.rootOf, old(outer.state.rootOf[this]), old(outer.state.rootOf[that]), r)
      ensures r == if old(outer.state.rank[outer.state.rootOf[this]]) < old(outer.state.rank[outer.state.rootOf[that]])
                   then old(outer.state.rootOf[that]) else old(outer.state.rootOf[this])
      ensures r in outer.state.rank &&
        outer.state.rank[r] == old(outer.state.rank[r]) +
          (if old(outer.state.rank[outer.state.rootOf[this]]) < old(outer.state.rank[outer.state.rootOf[that]]) then 0 else 1)
      ensures forall n :: n in old(outer.state.rank) && n != r ==> n in outer.state.rank && outer.state.rank[n] == old(outer.state.rank[n])
      ensures var linked := if r == old(outer.state.rootOf[this]) then old(outer.state.rootOf[that]) else old(outer.state.rootOf[this]);
        linked in outer.state.parent && outer.state.parent[linked] == r
    {
      var lhv := Root();
      var rhv := that.Root();
      r := outer.LinkRoots(lhv, rhv);
    }

    /**
     * `unite` with the evidently intended guard: when both nodes already share
     * a root, that root is returned and nothing is linked. Afterwards both
     * nodes have the returned root, which is one of their former roots, and
     * every other set is untouched; the returned root's rank is at least
     * the former rank of either root.
     */
    method Unite(that: Node<T>) returns (r: Node<T>)
      requires outer.Valid() && this in outer.state.nodes && that in outer.state.nodes
      modifies outer
      ensures outer.Valid() && outer.state.nodes == old(outer.state.nodes)
      ensures outer.state.rootOf[this] == r && outer.state.rootOf[that] == r
      ensures Merged(old(outer.state.rootOf), outer.state.rootOf, old(outer.state.rootOf[this]), old(outer.state.rootOf[that]), r)
      ensures r in outer.state.rank && outer.state.rank[r] >= old(outer.state.rank[outer.state.rootOf[this]]) &&
        outer.state.rank[r] >= old(outer.state.rank[outer.state.rootOf[that]])
      ensures forall n :: n in old(outer.state.rank) && n != r ==> n in outer.state.rank && outer.state.rank[n] == old(outer.state.rank[n])
    {
      var lhv := Root();
      var rhv := that.Root();
      if lhv == rhv {
        r := lhv;
      } else {
        r := UniteAsWritten(that);
      }
    }

    /**
     * `equals`: two nodes are equal exactly when they have the same root
     * (`null`, standing for any non-node, is equal to nothing).
     */
    method Equals(other: Node?<T>) returns (b: bool)
      requires outer.Valid() && this in outer.state.nodes
      requires other != null ==> other in outer.state.nodes
      modifies outer
      ensures outer.Valid() && outer.state == old(outer.state).(parent := outer.state.parent)
      ensures b <==> other != null && outer.state.rootOf[other] == outer.state.rootOf[this]
    {
      if other == null {
        return false;
      }
      var o := other.Root();
      var t := Root();
      b := o == t;
    }

    /** `swap`: exchanges the values of two nodes; nothing else is touched. */
    method Swap(that: Node<T>)
      modifies this, that
      ensures value == old(that.value) && that.value == old(value)
    {
      var tmp := that.value;
      that.value := value;
      value := tmp;
    }
  }

  // ------------------------------------------------------------ the forest invariant

  /**
   * A well-ranked forest over `nodes`: a parent always has a larger rank
   * than its child, so following parents ends, within `bound` steps, at the
   * node's root, which has no parent and the largest rank in its tree.
   */
  ghost predicate Forest<T>(nodes: set<Node<T>>, parentOf: map<Node<T>, Node?<T>>, rankOf: map<Node<T>, int>,
                            rootOf: map<Node<T>, Node<T>>, bound: int)
  {
    0 <= bound &&
    (forall n {:trigger n in parentOf} :: n in parentOf ==> n in nodes) &&
    (forall n {:trigger n in parentOf} :: n in nodes ==> n in parentOf) &&
    (forall n {:trigger n in rankOf} :: n in rankOf ==> n in nodes) &&
    (forall n {:trigger n in rankOf} :: n in nodes ==> n in rankOf) &&
    (forall n {:trigger n in rootOf} :: n in rootOf ==> n in nodes) &&
    (forall n {:trigger n in rootOf} :: n in nodes ==> n in rootOf) &&
    (forall n {:trigger rankOf[n]} :: n in nodes ==> 0 <= rankOf[n] <= bound) &&
    (forall n {:trigger rootOf[n]} :: n in nodes ==>
       rootOf[n] in nodes && rootOf[rootOf[n]] == rootOf[n] && (rootOf[n] != n ==> rankOf[rootOf[n]] > rankOf[n])) &&
    (forall n {:trigger parentOf[n]} :: n in nodes ==>
       (parentOf[n] == null <==> rootOf[n] == n) &&
       (parentOf[n] != null ==> parentOf[n] in nodes && rankOf[parentOf[n]] > rankOf[n] && rootOf[parentOf[n]] == rootOf[n]))
  }

  lemma AddKeepsForest<T>(nodes: set<Node<T>>, parentOf: map<Node<T>, Node?<T>>, rankOf: map<Node<T>, int>,
                          rootOf: map<Node<T>, Node<T>>, bound: int, x: Node<T>)
    requires Forest(nodes, parentOf, rankOf, rootOf, bound)
    requires x !in nodes
    ensures Forest(nodes + {x}, parentOf[x := null], rankOf[x := 0], rootOf[x := x], bound)
  {
  }

  /** Path compression keeps the forest and every root. */
  lemma CompressKeepsForest<T>(nodes: set<Node<T>>, parentOf: map<Node<T>, Node?<T>>, rankOf: map<Node<T>, int>,
                               rootOf: map<Node<T>, Node<T>>, bound: int, x: Node<T>)
    requires Forest(nodes, parentOf, rankOf, rootOf, bound)
    requires x in nodes && parentOf[x] != null
    ensures Forest(nodes, parentOf[x := rootOf[x]], rankOf, rootOf, bound)
  {
    var root := rootOf[x];
    assert rootOf[root] == root;
    assert root != x;
  }

  /** The roots after the tree of root `child` is hung under root `top`. */
  function Relinked<T>(rootOf: map<Node<T>, Node<T>>, child: Node<T>, top: Node<T>): (r: map<Node<T>, Node<T>>)
    ensures r.Keys == rootOf.Keys
    ensures Merged(rootOf, r, child, top, top) && Merged(rootOf, r, top, child, top)
  {
    map n | n in rootOf :: if rootOf[n] == child then top else rootOf[n]
  }

  /**
   * Linking: hanging the tree of one root under another root of larger rank
   * keeps the forest, with the first tree's nodes now rooted at the second
   * root. The links and roots after the step are parameters, so that callers
   * can pass them as they read them from the updated state.
   */
  lemma LinkKeepsForest<T>(nodes: set<Node<T>>, parentOf: map<Node<T>, Node?<T>>, rankOf: map<Node<T>, int>,
                           rootOf: map<Node<T>, Node<T>>, bound: int, child: Node<T>, top: Node<T>,
                           parentOf': map<Node<T>, Node?<T>>, rootOf': map<Node<T>, Node<T>>)
    requires Forest(nodes, parentOf, rankOf, rootOf, bound)
    requires child in nodes && top in nodes
    requires parentOf[child] == null && parentOf[top] == null && rankOf[top] > rankOf[child]
    requires parentOf' == parentOf[child := top] && rootOf' == Relinked(rootOf, child, top)
    ensures Forest(nodes, parentOf', rankOf, rootOf', bound) && Merged(rootOf, rootOf', child, top, top)
  {
    LinkedForest(nodes, parentOf, rankOf, rootOf, bound, child, top);
  }

  /** The proof of `LinkKeepsForest`, on the updated maps as expressions. */
  lemma LinkedForest<T>(nodes: set<Node<T>>, parentOf: map<Node<T>, Node?<T>>, rankOf: map<Node<T>, int>,
                        rootOf: map<Node<T>, Node<T>>, bound: int, child: Node<T>, top: Node<T>)
    requires Forest(nodes, parentOf, rankOf, rootOf, bound)
    requires child in nodes && top in nodes
    requires parentOf[child] == null && parentOf[top] == null && rankOf[top] > rankOf[child]
    ensures Forest(nodes, parentOf[child := top], rankOf, Relinked(rootOf, child, top), bound)
  {
    RelinkedRootsRanked(nodes, parentOf, rankOf, rootOf, bound, child, top);
    RelinkedParents(nodes, parentOf, rankOf, rootOf, bound, child, top);
  }

  /** After linking, every node's root still outranks the node. */
  lemma RelinkedRootsRanked<T>(nodes: set<Node<T>>, parentOf: map<Node<T>, Node?<T>>, rankOf: map<Node<T>, int>,
                               rootOf: map<Node<T>, Node<T>>, bound: int, child: Node<T>, top: Node<T>)
    requires Forest(nodes, parentOf, rankOf, rootOf, bound)
    requires child in nodes && top in nodes
    requires parentOf[child] == null && parentOf[top] == null && rankOf[top] > rankOf[child]
    ensures forall n :: n in nodes && Relinked(rootOf, child, top)[n] != n ==> rankOf[Relinked(rootOf, child, top)[n]] > rankOf[n]
  {
    var rootOf' := Relinked(rootOf, child, top);
    forall n | n in nodes && rootOf'[n] != n
      ensures rankOf[rootOf'[n]] > rankOf[n]
    {
      if rootOf[n] == child {
        assert n == child || rankOf[child] > rankOf[n];
      }
    }
  }

  /** After linking, every parent link still goes up in rank and stays in its tree. */
  lemma RelinkedParents<T>(nodes: set<Node<T>>, parentOf: map<Node<T>, Node?<T>>, rankOf: map<Node<T>, int>,
                           rootOf: map<Node<T>, Node<T>>, bound: int, child: Node<T>, top: Node<T>)
    requires Forest(nodes, parentOf, rankOf, rootOf, bound)
    requires child in nodes && top in nodes
    requires parentOf[child] == null && parentOf[top] == null && rankOf[top] > rankOf[child]
    ensures forall n {:trigger parentOf[child := top][n]} :: n in nodes && parentOf[child := top][n] != null ==>
      parentOf[child := top][n] in nodes && rankOf[parentOf[child := top][n]] > rankOf[n] &&
      Relinked(rootOf, child, top)[n] == Relinked(rootOf, child, top)[parentOf[child := top][n]]
  {
    var rootOf' := Relinked(rootOf, child, top);
    var parentOf' := parentOf[child := top];
    forall n | n in nodes && parentOf'[n] != null
      ensures parentOf'[n] in nodes && rankOf[parentOf'[n]] > rankOf[n] && rootOf'[n] == rootOf'[parentOf'[n]]
    {
      if n != child {
        assert rootOf[n] == rootOf[parentOf[n]];
      }
    }
  }

  /**
   * Linking under a root whose rank goes up by one keeps the forest, with
   * the bound raised to match.
   */
  lemma LinkRaisingKeepsForest<T>(nodes: set<Node<T>>, parentOf: map<Node<T>, Node?<T>>, rankOf: map<Node<T>, int>,
                                  rootOf: map<Node<T>, Node<T>>, bound: int, child: Node<T>, top: Node<T>,
                                  parentOf': map<Node<T>, Node?<T>>, rankOf': map<Node<T>, int>,
                                  rootOf': map<Node<T>, Node<T>>, bound': int)
    requires Forest(nodes, parentOf, rankOf, rootOf, bound)
    requires child in nodes && top in nodes && child != top
    requires parentOf[child] == null && parentOf[top] == null && rankOf[top] >= rankOf[child]
    requires parentOf' == parentOf[child := top] && rankOf' == rankOf[top := rankOf[top] + 1]
    requires rootOf' == Relinked(rootOf, child, top) && bound' == (if bound <= rankOf[top] then rankOf[top] + 1 else bound)
    ensures Forest(nodes, parentOf', rankOf', rootOf', bound') && Merged(rootOf, rootOf', child, top, top)
  {
    assert Forest(nodes, parentOf, rankOf', rootOf, bound');
    LinkKeepsForest(nodes, parentOf, rankOf', rootOf, bound', child, top, parentOf', rootOf');
  }

  /**
   * `after` is path compression applied to `before`: every parent link is
   * either unchanged or now points straight at the node's root.
   */
  ghost predicate Compressed<T>(before: map<Node<T>, Node?<T>>, after: map<Node<T>, Node?<T>>, rootOf: map<Node<T>, Node<T>>)
  {
    after.Keys == before.Keys &&
    forall n :: n in before ==> after[n] == before[n] || (before[n] != null && n in rootOf && after[n] == rootOf[n])
  }

  /** One more compression step on top of earlier ones is still compression. */
  lemma CompressedStep<T>(before: map<Node<T>, Node?<T>>, mid: map<Node<T>, Node?<T>>, rootOf: map<Node<T>, Node<T>>, x: Node<T>)
    requires Compressed(before, mid, rootOf)
    requires x in before && before[x] != null && x in rootOf
    ensures Compressed(before, mid[x := rootOf[x]], rootOf)
  {
  }

  /**
   * `after` is `before` with the two sets whose roots are `a` and `b` merged
   * under `r`, one of those two roots: every other node keeps its root.
   */
  ghost predicate Merged<T>(before: map<Node<T>, Node<T>>, after: map<Node<T>, Node<T>>, a: Node<T>, b: Node<T>, r: Node<T>)
  {
    (r == a || r == b) &&
    after.Keys == before.Keys &&
    forall n :: n in before ==> after[n] == (if before[n] == a || before[n] == b then r else before[n])
  }
}
