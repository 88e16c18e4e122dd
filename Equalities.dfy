/**
 * The unification solver of the TIP type checker
 * (`examples/tip/constraint/Equalities.kt`): type terms, the occurs check,
 * and a Martelli–Montanari solver that works through a queue of equations
 * while it builds a substitution.
 *
 * A `Var` is identified by its id, so the substitution and the set of
 * unsolved variables are keyed by ids. An exception of the solver is the
 * verdict `Failed(eq)` of a rule, or the outcome `Unsolvable(eq)` of `Solve`.
 */
module Equalities {
  import opened Results

  /** A type term: a variable, or a named constructor applied to arguments. */
  datatype Node = Var(id: string) | Fun(name: string, arguments: seq<Node>)

  /** One equation `lhv = rhv`. */
  datatype Equality = Equality(lhv: Node, rhv: Node)

  // ------------------------------------------------------------ terms

  /** The number of variables and constructors in a term. */
  function Size(n: Node): nat
  {
    match n
    case Var(_) => 1
    case Fun(_, args) => 1 + SizeAll(args)
  }

  function SizeAll(args: seq<Node>): nat
  {
    if args == [] then 0 else Size(args[0]) + SizeAll(args[1..])
  }

  /**
   * `contains`, the occurs check: `v` is `n` itself, or (for a `Fun`) is
   * contained in one of its arguments.
   */
  function Contains(n: Node, v: Node): (b: bool)
    ensures v == n ==> b
  {
    match n
    case Var(_) => v == n
    case Fun(_, args) => v == n || exists i :: 0 <= i < |args| && Contains(args[i], v)
  }

  /** An argument is smaller than its whole argument list. */
  lemma {:induction false} ArgumentSmaller(args: seq<Node>, i: int)
    requires 0 <= i < |args|
    ensures Size(args[i]) <= SizeAll(args)
    decreases i
  {
    if i > 0 {
      ArgumentSmaller(args[1..], i - 1);
    }
  }

  /**
   * What the occurs check guards against: a term strictly contains only
   * smaller terms, so no finite term equals a term that strictly contains it.
   */
  lemma {:induction false} ContainsSmaller(n: Node, v: Node)
    requires Contains(n, v) && v != n
    ensures Size(v) < Size(n)
  {
    var i :| 0 <= i < |n.arguments| && Contains(n.arguments[i], v);
    ArgumentSmaller(n.arguments, i);
    if v != n.arguments[i] {
      ContainsSmaller(n.arguments[i], v);
    }
  }

  /** Containment is transitive: whatever occurs in a subterm occurs in the term. */
  lemma {:induction false} ContainsTransitive(a: Node, b: Node, c: Node)
    requires Contains(a, b) && Contains(b, c)
    ensures Contains(a, c)
  {
    if a != b {
      var i :| 0 <= i < |a.arguments| && Contains(a.arguments[i], b);
      ContainsTransitive(a.arguments[i], b, c);
    }
  }

  /**
   * `collectVariables(n, set)`: `acc` together with the id of every
   * variable the term contains.
   */
  function CollectVariables(n: Node, acc: set<string>): (r: set<string>)
    ensures forall x :: x in r <==> x in acc || Contains(n, Var(x))
    decreases n
  {
    match n
    case Var(id) => acc + {id}
    case Fun(_, args) => CollectArguments(args, acc)
  }

  /** `forEach { collectVariables(it, set) }` over a list of arguments. */
  function CollectArguments(args: seq<Node>, acc: set<string>): (r: set<string>)
    ensures forall x :: x in r <==> x in acc || exists i :: 0 <= i < |args| && Contains(args[i], Var(x))
    decreases args
  {
    if args == [] then acc
    else
      var r := CollectArguments(args[1..], CollectVariables(args[0], acc));
      assert forall i :: 1 <= i < |args| ==> args[i] == args[1..][i - 1];
      r
  }

  /** The variable with id `x` occurs on one side of `eq`. */
  predicate Mentions(eq: Equality, x: string)
  {
    Contains(eq.lhv, Var(x)) || Contains(eq.rhv, Var(x))
  }

  /** `collectVariables(eq, set)`: `acc` together with the variables of both sides. */
  function CollectEquality(eq: Equality, acc: set<string>): (r: set<string>)
    ensures forall x :: x in r <==> x in acc || Mentions(eq, x)
  {
    CollectVariables(eq.rhv, CollectVariables(eq.lhv, acc))
  }

  // ------------------------------------------------------------ substitutions

  /** `n` is a variable the substitution binds. */
  predicate Bound(subst: map<string, Node>, n: Node)
  {
    n.Var? && n.id in subst
  }

  /** Following the bindings from `n` reaches an unbound node within `k` steps. */
  ghost predicate Ends(subst: map<string, Node>, n: Node, k: nat)
    decreases k
  {
    !Bound(subst, n) || (k > 0 && Ends(subst, subst[n.id], k - 1))
  }

  /** Every chain of bindings ends within `k` steps: no variable is bound, through variables, to itself. */
  ghost predicate ChainsEnd(subst: map<string, Node>, k: nat)
  {
    forall n :: Ends(subst, n, k)
  }

  /**
   * `substitute`: follows the bindings from `n` until it reaches a variable
   * the substitution does not bind, or a `Fun`. `k` bounds the number of
   * steps, which is what makes the chase finish.
   */
  function Substitute(subst: map<string, Node>, n: Node, ghost k: nat): (r: Node)
    requires Ends(subst, n, k)
    ensures !Bound(subst, r)
    ensures !Bound(subst, n) ==> r == n
    decreases k
  {
    if Bound(subst, n) then Substitute(subst, subst[n.id], k - 1) else n
  }

  /** Taking more steps than needed does not matter: a chain that ends within `k` steps ends within more. */
  lemma {:induction false} EndsLater(subst: map<string, Node>, n: Node, k: nat, j: nat)
    requires Ends(subst, n, k) && k <= j
    ensures Ends(subst, n, j)
    decreases k
  {
    if Bound(subst, n) {
      EndsLater(subst, subst[n.id], k - 1, j - 1);
    }
  }

  /** The node `substitute` reaches does not depend on the step bound. */
  lemma {:induction false} SubstituteStable(subst: map<string, Node>, n: Node, k: nat, j: nat)
    requires Ends(subst, n, k) && Ends(subst, n, j)
    ensures Substitute(subst, n, k) == Substitute(subst, n, j)
    decreases k
  {
    if Bound(subst, n) {
      SubstituteStable(subst, subst[n.id], k - 1, j - 1);
    }
  }

  /** Substituting a bound variable is substituting what it is bound to. */
  lemma SubstituteFollows(subst: map<string, Node>, n: Node, k: nat)
    requires Ends(subst, n, k) && Bound(subst, n)
    ensures Ends(subst, subst[n.id], k)
    ensures Substitute(subst, n, k) == Substitute(subst, subst[n.id], k)
  {
    EndsLater(subst, subst[n.id], k - 1, k);
    SubstituteStable(subst, subst[n.id], k - 1, k);
  }

  /**
   * Binding an unbound variable `x` to a node `t` that stays unbound: every
   * chain still ends, one step later at most, and exactly the chains that
   * ended at `x` now end at `t`.
   */
  lemma {:induction false} SubstituteAfterBind(subst: map<string, Node>, n: Node, k: nat, x: string, t: Node)
    requires Ends(subst, n, k) && x !in subst
    requires !Bound(subst, t) && t != Var(x)
    ensures Ends(subst[x := t], n, k + 1)
    ensures Substitute(subst[x := t], n, k + 1) ==
      if Substitute(subst, n, k) == Var(x) then t else Substitute(subst, n, k)
    decreases k
  {
    if Bound(subst, n) {
      SubstituteAfterBind(subst, subst[n.id], k - 1, x, t);
    }
  }

  /** Binding an unbound variable to a node that stays unbound keeps every chain finite. */
  lemma BindKeepsChains(subst: map<string, Node>, k: nat, x: string, t: Node)
    requires ChainsEnd(subst, k) && x !in subst
    requires !Bound(subst, t) && t != Var(x)
    ensures ChainsEnd(subst[x := t], k + 1)
  {
    var bound, steps := subst[x := t], k + 1;
    forall n
      ensures Ends(bound, n, steps)
    {
      SubstituteAfterBind(subst, n, k, x, t);
    }
  }

  /**
   * The equations `decompose` enqueues for two `Fun`s of the same arity:
   * the arguments at each position, both substituted, left to right.
   */
  function Paired(subst: map<string, Node>, ghost k: nat, ls: seq<Node>, rs: seq<Node>): (r: seq<Equality>)
    requires |ls| == |rs| && ChainsEnd(subst, k)
    ensures |r| == |ls|
    ensures forall i :: 0 <= i < |r| ==> r[i] == Equality(Substitute(subst, ls[i], k), Substitute(subst, rs[i], k))
    decreases |ls|
  {
    if ls == [] then []
    else Paired(subst, k, ls[..|ls| - 1], rs[..|rs| - 1]) +
         [Equality(Substitute(subst, ls[|ls| - 1], k), Substitute(subst, rs[|rs| - 1], k))]
  }

  /** The equations of one more argument position are those of the shorter prefixes and one more. */
  lemma PairedGrows(subst: map<string, Node>, k: nat, ls: seq<Node>, rs: seq<Node>, i: nat)
    requires |ls| == |rs| && i < |ls| && ChainsEnd(subst, k)
    ensures Paired(subst, k, ls[..i + 1], rs[..i + 1]) ==
            Paired(subst, k, ls[..i], rs[..i]) + [Equality(Substitute(subst, ls[i], k), Substitute(subst, rs[i], k))]
  {
    assert ls[..i + 1][..i] == ls[..i];
    assert rs[..i + 1][..i] == rs[..i];
  }

  // ------------------------------------------------------------ solutions

  /**
   * An assignment `sigma` applied to a term: each variable it assigns is
   * replaced, once, by its term; everything else is kept.
   */
  function Apply(sigma: map<string, Node>, n: Node): Node
    decreases n
  {
    match n
    case Var(x) => if x in sigma then sigma[x] else n
    case Fun(name, args) => Fun(name, seq(|args|, i requires 0 <= i < |args| => Apply(sigma, args[i])))
  }

  /** `sigma` gives both sides of every equation of `eqs` the same term. */
  predicate Solves(sigma: map<string, Node>, eqs: seq<Equality>)
  {
    forall e :: e in eqs ==> Apply(sigma, e.lhv) == Apply(sigma, e.rhv)
  }

  /** `sigma` gives every bound variable the same term as what it is bound to. */
  predicate Agrees(sigma: map<string, Node>, subst: map<string, Node>)
  {
    forall x :: x in subst ==> Apply(sigma, Var(x)) == Apply(sigma, subst[x])
  }

  /** The equations `q` with the bindings `s` have exactly the solutions of `q'` with `s'`. */
  ghost predicate SameSolutions(q: seq<Equality>, s: map<string, Node>, q': seq<Equality>, s': map<string, Node>)
  {
    forall sigma :: Solves(sigma, q) && Agrees(sigma, s) <==> Solves(sigma, q') && Agrees(sigma, s')
  }

  /** No assignment solves `eqs` and agrees with the bindings `subst`. */
  ghost predicate NoSolution(eqs: seq<Equality>, subst: map<string, Node>)
  {
    forall sigma :: !(Solves(sigma, eqs) && Agrees(sigma, subst))
  }

  /** No binding of `m` mentions its own variable, that is, none is a recursive type. */
  predicate SelfFree(m: map<string, Node>)
  {
    forall x :: x in m ==> !Contains(m[x], Var(x))
  }

  /** Under an assignment that agrees with the bindings, `substitute` does not change a term's value. */
  lemma {:induction false} SubstitutePreserves(sigma: map<string, Node>, subst: map<string, Node>, n: Node, k: nat)
    requires Ends(subst, n, k) && Agrees(sigma, subst)
    ensures Apply(sigma, Substitute(subst, n, k)) == Apply(sigma, n)
    decreases k
  {
    if Bound(subst, n) {
      SubstitutePreserves(sigma, subst, subst[n.id], k - 1);
      assert n == Var(n.id);
    }
  }

  /** Both sides of an equation keep their values when substituted, under an assignment that agrees with the bindings. */
  lemma SubstitutedSides(sigma: map<string, Node>, subst: map<string, Node>, k: nat, eq: Equality)
    requires ChainsEnd(subst, k) && Agrees(sigma, subst)
    ensures Apply(sigma, Substitute(subst, eq.lhv, k)) == Apply(sigma, eq.lhv)
    ensures Apply(sigma, Substitute(subst, eq.rhv, k)) == Apply(sigma, eq.rhv)
  {
    SubstitutePreserves(sigma, subst, eq.lhv, k);
    SubstitutePreserves(sigma, subst, eq.rhv, k);
  }

  /**
   * The equations `decompose` enqueues hold under an assignment that agrees
   * with the bindings exactly when the two `Fun`s are the same term under it.
   */
  lemma {:induction false} PairedSolves(sigma: map<string, Node>, subst: map<string, Node>, k: nat,
                                       name: string, ls: seq<Node>, rs: seq<Node>)
    requires |ls| == |rs| && ChainsEnd(subst, k) && Agrees(sigma, subst)
    ensures Solves(sigma, Paired(subst, k, ls, rs)) <==> Apply(sigma, Fun(name, ls)) == Apply(sigma, Fun(name, rs))
  {
    var ps := Paired(subst, k, ls, rs);
    var al, ar := Apply(sigma, Fun(name, ls)), Apply(sigma, Fun(name, rs));
    forall i | 0 <= i < |ls|
      ensures Apply(sigma, ps[i].lhv) == al.arguments[i] && Apply(sigma, ps[i].rhv) == ar.arguments[i]
    {
      SubstitutePreserves(sigma, subst, ls[i], k);
      SubstitutePreserves(sigma, subst, rs[i], k);
    }
    if Solves(sigma, ps) {
      forall i | 0 <= i < |ls|
        ensures al.arguments[i] == ar.arguments[i]
      {
        assert ps[i] in ps;
      }
      assert al.arguments == ar.arguments;
    }
  }

  /** A `Fun` contains whatever one of its arguments contains. */
  lemma ArgumentContained(name: string, ts: seq<Node>, v: Node)
    ensures forall i :: 0 <= i < |ts| && Contains(ts[i], v) ==> Contains(Fun(name, ts), v)
  {
  }

  /** Applying an assignment keeps containment. */
  lemma {:induction false} ApplyKeepsContains(sigma: map<string, Node>, n: Node, v: Node)
    requires Contains(n, v)
    ensures Contains(Apply(sigma, n), Apply(sigma, v))
    decreases n
  {
    if n != v {
      var i :| 0 <= i < |n.arguments| && Contains(n.arguments[i], v);
      ApplyKeepsContains(sigma, n.arguments[i], v);
      ArgumentContained(n.name, Apply(sigma, n).arguments, Apply(sigma, v));
      assert Apply(sigma, n).arguments[i] == Apply(sigma, n.arguments[i]);
    }
  }

  /** A term contains no term larger than itself. */
  lemma ContainsNoLarger(n: Node, v: Node)
    requires Contains(n, v)
    ensures Size(v) <= Size(n)
  {
    if v != n {
      ContainsSmaller(n, v);
    }
  }

  /**
   * The occurs check is sound: no assignment gives a variable the same term
   * as a term that strictly contains it.
   */
  lemma OccursUnsolvable(sigma: map<string, Node>, x: string, r: Node)
    requires Contains(r, Var(x)) && r != Var(x)
    ensures Apply(sigma, Var(x)) != Apply(sigma, r)
  {
    var i :| 0 <= i < |r.arguments| && Contains(r.arguments[i], Var(x));
    var ar := Apply(sigma, r);
    ApplyKeepsContains(sigma, r.arguments[i], Var(x));
    ContainsNoLarger(Apply(sigma, r.arguments[i]), Apply(sigma, Var(x)));
    assert ar.arguments[i] == Apply(sigma, r.arguments[i]);
    ArgumentSmaller(ar.arguments, i);
  }

  /** `delete` is sound: an equation whose sides substitute to the same node can be dropped. */
  lemma DeleteSolutions(q: seq<Equality>, subst: map<string, Node>, k: nat, eq: Equality)
    requires ChainsEnd(subst, k) && Substitute(subst, eq.lhv, k) == Substitute(subst, eq.rhv, k)
    ensures SameSolutions(q + [eq], subst, q, subst)
  {
    forall sigma
      ensures Solves(sigma, q + [eq]) && Agrees(sigma, subst) <==> Solves(sigma, q) && Agrees(sigma, subst)
    {
      if Agrees(sigma, subst) {
        SubstitutedSides(sigma, subst, k, eq);
      }
    }
  }

  /** `decompose` is sound: two `Fun`s of the same name and arity can be replaced by their argument equations. */
  lemma DecomposeSolutions(q: seq<Equality>, subst: map<string, Node>, k: nat, eq: Equality)
    requires ChainsEnd(subst, k)
    requires var l, r := Substitute(subst, eq.lhv, k), Substitute(subst, eq.rhv, k);
      l.Fun? && r.Fun? && l.name == r.name && |l.arguments| == |r.arguments|
    ensures var l, r := Substitute(subst, eq.lhv, k), Substitute(subst, eq.rhv, k);
      SameSolutions(q + [eq], subst, q + Paired(subst, k, l.arguments, r.arguments), subst)
  {
    var l, r := Substitute(subst, eq.lhv, k), Substitute(subst, eq.rhv, k);
    var ps := Paired(subst, k, l.arguments, r.arguments);
    forall sigma
      ensures Solves(sigma, q + [eq]) && Agrees(sigma, subst) <==> Solves(sigma, q + ps) && Agrees(sigma, subst)
    {
      if Agrees(sigma, subst) {
        SubstitutedSides(sigma, subst, k, eq);
        PairedSolves(sigma, subst, k, l.name, l.arguments, r.arguments);
      }
    }
  }

  /** `decompose`'s exception is sound: `Fun`s differing in name or arity are never the same term. */
  lemma ClashNoSolution(subst: map<string, Node>, k: nat, eq: Equality)
    requires ChainsEnd(subst, k)
    requires var l, r := Substitute(subst, eq.lhv, k), Substitute(subst, eq.rhv, k);
      l.Fun? && r.Fun? && (l.name != r.name || |l.arguments| != |r.arguments|)
    ensures NoSolution([eq], subst)
  {
    forall sigma | Agrees(sigma, subst)
      ensures !Solves(sigma, [eq])
    {
      SubstitutedSides(sigma, subst, k, eq);
    }
  }

  /** `swap` is sound: an equation can be replaced by its substituted sides the other way round. */
  lemma SwapSolutions(q: seq<Equality>, subst: map<string, Node>, k: nat, eq: Equality)
    requires ChainsEnd(subst, k)
    ensures SameSolutions(q + [eq], subst, q + [Equality(Substitute(subst, eq.rhv, k), Substitute(subst, eq.lhv, k))], subst)
  {
    var swapped := Equality(Substitute(subst, eq.rhv, k), Substitute(subst, eq.lhv, k));
    forall sigma
      ensures Solves(sigma, q + [eq]) && Agrees(sigma, subst) <==> Solves(sigma, q + [swapped]) && Agrees(sigma, subst)
    {
      if Agrees(sigma, subst) {
        SubstitutedSides(sigma, subst, k, eq);
      }
    }
  }

  /**
   * `eliminate` is sound: an equation whose left side substitutes to a
   * variable can be replaced by binding that variable to the substituted
   * right side.
   */
  lemma EliminateSolutions(q: seq<Equality>, subst: map<string, Node>, k: nat, eq: Equality)
    requires ChainsEnd(subst, k) && Substitute(subst, eq.lhv, k).Var?
    ensures var l, r := Substitute(subst, eq.lhv, k), Substitute(subst, eq.rhv, k);
      SameSolutions(q + [eq], subst, q, subst[l.id := r])
  {
    var l, r := Substitute(subst, eq.lhv, k), Substitute(subst, eq.rhv, k);
    var bound := subst[l.id := r];
    forall sigma
      ensures Solves(sigma, q + [eq]) && Agrees(sigma, subst) <==> Solves(sigma, q) && Agrees(sigma, bound)
    {
      assert Agrees(sigma, bound) <==> Agrees(sigma, subst) && Apply(sigma, l) == Apply(sigma, r) by {
        assert l.id !in subst && l == Var(l.id);
      }
      if Agrees(sigma, subst) {
        SubstitutedSides(sigma, subst, k, eq);
      }
    }
  }

  /** `eliminate`'s exception is sound: a variable occurring strictly inside the other side has no solution. */
  lemma OccursNoSolution(subst: map<string, Node>, k: nat, eq: Equality)
    requires ChainsEnd(subst, k)
    requires var l, r := Substitute(subst, eq.lhv, k), Substitute(subst, eq.rhv, k);
      l.Var? && Contains(r, l) && l != r
    ensures NoSolution([eq], subst)
  {
    var l, r := Substitute(subst, eq.lhv, k), Substitute(subst, eq.rhv, k);
    forall sigma | Agrees(sigma, subst)
      ensures !Solves(sigma, [eq])
    {
      SubstitutedSides(sigma, subst, k, eq);
      OccursUnsolvable(sigma, l.id, r);
    }
  }

  /**
   * Polling the first equation and handling it keeps the solutions: what
   * is left of the queue plus the polled equation has the solutions of the
   * whole queue.
   */
  lemma PolledSolutions(q0: seq<Equality>, s0: map<string, Node>, q: seq<Equality>, s: map<string, Node>,
                        q': seq<Equality>, s': map<string, Node>)
    requires q != [] && SameSolutions(q0, s0, q, s) && SameSolutions(q[1..] + [q[0]], s, q', s')
    ensures SameSolutions(q0, s0, q', s')
  {
    forall sigma
      ensures Solves(sigma, q) <==> Solves(sigma, q[1..] + [q[0]])
    {
      assert forall e :: e in q <==> e in q[1..] + [q[0]] by {
        assert q == [q[0]] + q[1..];
      }
    }
  }

  /** An unsolvable first equation makes the whole queue, and what it came from, unsolvable. */
  lemma PolledNoSolution(q0: seq<Equality>, s0: map<string, Node>, q: seq<Equality>, s: map<string, Node>)
    requires q != [] && SameSolutions(q0, s0, q, s) && NoSolution([q[0]], s)
    ensures NoSolution(q0, s0)
  {
    forall sigma
      ensures Solves(sigma, q) ==> Solves(sigma, [q[0]])
    {
      assert q[0] in q;
    }
  }

  // ------------------------------------------------------------ the solver

  /** What a rule does with an equation: passes it on (`true`), applies (`false`), or throws. */
  datatype Verdict = Next | Applied | Failed(eq: Equality)

  /** How `Solve` ends: an empty queue, an unsolvable equation, or the step budget spent. */
  datatype Finish = Solved | Unsolvable(eq: Equality) | OutOfFuel

  /**
   * `Solver`: the queue of equations still to process, the substitution
   * found so far, and the variables not bound yet. As ghost state, a bound
   * on the length of every chain of bindings.
   */
  class Solver {
    var que: seq<Equality>
    var subst: map<string, Node>
    var unsolvedVariables: set<string>
    ghost var height: nat

    /** Every chain of bindings ends, and an unsolved variable is not bound. */
    ghost predicate Valid()
      reads this
    {
      ChainsEnd(subst, height) && forall x :: x in subst ==> x !in unsolvedVariables
    }

    /**
     * The solver for `input`: all of it queued, nothing bound, and every
     * variable of every equation unsolved.
     */
    constructor(input: seq<Equality>)
      ensures Valid() && que == input && subst == map[]
      ensures forall x :: x in unsolvedVariables <==> exists e :: e in input && Mentions(e, x)
    {
      var vars: set<string> := {};
      for i := 0 to |input|
        invariant forall x :: x in vars <==> exists j :: 0 <= j < i && Mentions(input[j], x)
      {
        vars := CollectEquality(input[i], vars);
      }
      que := input;
      subst := map[];
      unsolvedVariables := vars;
      height := 0;
    }

    /** `delete`: `false` (the equation is dropped) when both sides substitute to the same node. */
    function Delete(eq: Equality): bool
      reads this
      requires Valid()
    {
      Substitute(subst, eq.lhv, height) != Substitute(subst, eq.rhv, height)
    }

    /**
     * `decompose`: when both substituted sides are `Fun`s with the same name
     * and arity, enqueues the equations between their arguments; when they
     * differ in name or arity the equation is unsolvable; otherwise the rule
     * does not apply.
     */
    method Decompose(eq: Equality) returns (v: Verdict)
      requires Valid()
      modifies this
      ensures Valid() && subst == old(subst) && unsolvedVariables == old(unsolvedVariables) && height == old(height)
      ensures var l, r := Substitute(subst, eq.lhv, height), Substitute(subst, eq.rhv, height);
        if l.Fun? && r.Fun? && l.name == r.name && |l.arguments| == |r.arguments| then
          v == Applied && que == old(que) + Paired(subst, height, l.arguments, r.arguments)
        else if l.Fun? && r.Fun? then
          v == Failed(eq) && que == old(que)
        else
          v == Next && que == old(que)
      ensures v == Applied ==> SameSolutions(old(que) + [eq], subst, que, subst)
      ensures v.Failed? ==> NoSolution([eq], subst)
    {
      var l := Substitute(subst, eq.lhv, height);
      var r := Substitute(subst, eq.rhv, height);
      if l.Fun? && r.Fun? {
        if l.name == r.name && |l.arguments| == |r.arguments| {
          DecomposeSolutions(que, subst, height, eq);
          EnqueuePaired(l.arguments, r.arguments);
          return Applied;
        } else {
          ClashNoSolution(subst, height, eq);
          return Failed(eq);
        }
      }
      return Next;
    }

    /** The loop of `decompose`: one equation per argument position, left to right, at the end of the queue. */
    method EnqueuePaired(ls: seq<Node>, rs: seq<Node>)
      requires Valid() && |ls| == |rs|
      modifies this
      ensures Valid() && subst == old(subst) && unsolvedVariables == old(unsolvedVariables) && height == old(height)
      ensures que == old(que) + Paired(subst, height, ls, rs)
    {
      for i := 0 to |ls|
        invariant subst == old(subst) && unsolvedVariables == old(unsolvedVariables) && height == old(height)
        invariant que == old(que) + Paired(subst, height, ls[..i], rs[..i])
      {
        PairedGrows(subst, height, ls, rs, i);
        que := que + [Equality(Substitute(subst, ls[i], height), Substitute(subst, rs[i], height))];
      }
      assert ls[..|ls|] == ls;
      assert rs[..|rs|] == rs;
    }

    /** `swap`: a variable on the right facing a `Fun` on the left is turned around and enqueued. */
    method Swap(eq: Equality) returns (v: Verdict)
      requires Valid()
      modifies this
      ensures Valid() && subst == old(subst) && unsolvedVariables == old(unsolvedVariables) && height == old(height)
      ensures var l, r := Substitute(subst, eq.lhv, height), Substitute(subst, eq.rhv, height);
        if r.Var? && !l.Var? then v == Applied && que == old(que) + [Equality(r, l)]
        else v == Next && que == old(que)
      ensures v == Applied ==> SameSolutions(old(que) + [eq], subst, que, subst)
    {
      var l := Substitute(subst, eq.lhv, height);
      var r := Substitute(subst, eq.rhv, height);
      if r.Var? && !l.Var? {
        SwapSolutions(que, subst, height, eq);
        que := que + [Equality(r, l)];
        return Applied;
      }
      return Next;
    }

    /**
     * `eliminate`: a variable on the left is bound to the right side, and is
     * no longer unsolved, unless it occurs in the right side, which makes
     * the equation unsolvable. Every chain of bindings still ends.
     */
    method Eliminate(eq: Equality) returns (v: Verdict)
      requires Valid()
      modifies this
      ensures Valid() && que == old(que)
      ensures var l, r := old(Substitute(subst, eq.lhv, height)), old(Substitute(subst, eq.rhv, height));
        if l.Var? && Contains(r, l) then
          v == Failed(eq) && subst == old(subst) && unsolvedVariables == old(unsolvedVariables)
        else if l.Var? then
          v == Applied && subst == old(subst)[l.id := r] && unsolvedVariables == old(unsolvedVariables) - {l.id}
        else
          v == Next && subst == old(subst) && unsolvedVariables == old(unsolvedVariables)
      ensures v == Applied ==> SameSolutions(que + [eq], old(subst), que, subst)
      ensures v.Failed? && old(Delete(eq)) ==> NoSolution([eq], old(subst))
    {
      var l := Substitute(subst, eq.lhv, height);
      var r := Substitute(subst, eq.rhv, height);
      if l.Var? {
        if Contains(r, l) {
          if l != r {
            OccursNoSolution(subst, height, eq);
          }
          return Failed(eq);
        }
        EliminateSolutions(que, subst, height, eq);
        BindKeepsChains(subst, height, l.id, r);
        unsolvedVariables := unsolvedVariables - {l.id};
        subst := subst[l.id := r];
        height := height + 1;
        return Applied;
      }
      return Next;
    }

    /**
     * One round of `solve` on a polled equation: `delete`, `decompose`,
     * `swap` and `eliminate` in turn, up to the first that applies or
     * throws. One of them always does, so the equation is never put back.
     */
    method Step(eq: Equality) returns (v: Verdict)
      requires Valid()
      modifies this
      ensures Valid()
      ensures v != Next
      ensures v.Failed? ==> v.eq == eq
      ensures old(Substitute(subst, eq.lhv, height)) == old(Substitute(subst, eq.rhv, height)) ==>
        v == Applied && que == old(que) && subst == old(subst) && unsolvedVariables == old(unsolvedVariables)
      ensures v == Applied ==> SameSolutions(old(que) + [eq], old(subst), que, subst)
      ensures v.Failed? ==> NoSolution([eq], old(subst))
    {
      if !Delete(eq) {
        DeleteSolutions(que, subst, height, eq);
        return Applied;
      }
      v := Decompose(eq);
      if v != Next {
        return;
      }
      v := Swap(eq);
      if v != Next {
        return;
      }
      v := Eliminate(eq);
      if v != Next {
        return;
      }
      // Both sides are now known to be `Fun`s, which `decompose` handles.
      assert false;
    }

    /**
     * `solve`: polls equations off the front of the queue and applies the
     * rules until the queue is empty or an equation is unsolvable. At most
     * `fuel` equations are processed. The queue and the bindings keep the
     * solutions they started with: an `Unsolvable` outcome means there were
     * none, and otherwise the remaining queue with the new bindings has
     * exactly the solutions of the old queue with the old bindings.
     */
    method Solve(fuel: nat) returns (f: Finish)
      requires Valid()
      modifies this
      ensures Valid()
      ensures f.Solved? ==> que == []
      ensures f.OutOfFuel? ==> que != []
      ensures f.Unsolvable? ==> NoSolution(old(que), old(subst))
      ensures !f.Unsolvable? ==> SameSolutions(old(que), old(subst), que, subst)
    {
      ghost var que0, subst0 := que, subst;
      var steps := 0;
      while que != [] && steps < fuel
        invariant Valid()
        invariant SameSolutions(que0, subst0, que, subst)
        decreases fuel - steps
      {
        ghost var polled, before := que, subst;
        var eq := que[0];
        que := que[1..];
        var v := Step(eq);
        if v.Failed? {
          PolledNoSolution(que0, subst0, polled, before);
          return Unsolvable(v.eq);
        }
        PolledSolutions(que0, subst0, polled, before, que, subst);
        steps := steps + 1;
      }
      f := if que == [] then Solved else OutOfFuel;
    }

    /**
     * `expand(own, n)`: replaces every bound variable in `n` by its
     * expanded binding, keeping `own` and unsolved variables as they
     * are. A variable step costs one unit of `fuel`; `None` means the fuel
     * ran out.
     */
    function Expand(own: Node, n: Node, fuel: nat): (r: Option<Node>)
      reads this
      requires Valid() && own.Var?
      ensures r.Some? ==> forall x :: Contains(r.value, Var(x)) ==> Var(x) == own || x in unsolvedVariables
      decreases fuel, n
    {
      if n == own then Some(own)
      else if n.Var? && n.id in unsolvedVariables then Some(n)
      else if n.Var? then
        if fuel == 0 then None else Expand(own, Substitute(subst, n, height), fuel - 1)
      else
        match ExpandArguments(own, n.arguments, fuel)
        case None => None
        case Some(args) =>
          var r := Fun(n.name, args);
          assert forall x :: Contains(r, Var(x)) ==> exists i :: 0 <= i < |args| && Contains(args[i], Var(x));
          Some(r)
    }

    /** `arguments.map { expand(own, it) }`. */
    function ExpandArguments(own: Node, args: seq<Node>, fuel: nat): (r: Option<seq<Node>>)
      reads this
      requires Valid() && own.Var?
      ensures r.Some? ==> |r.value| == |args|
      ensures r.Some? ==> forall i :: 0 <= i < |args| ==> Expand(own, args[i], fuel) == Some(r.value[i])
      ensures r.Some? ==> forall i, x :: 0 <= i < |r.value| && Contains(r.value[i], Var(x)) ==>
        Var(x) == own || x in unsolvedVariables
      decreases fuel, args
    {
      if args == [] then Some([])
      else
        match Expand(own, args[0], fuel)
        case None => None
        case Some(a) =>
          match ExpandArguments(own, args[1..], fuel)
          case None => None
          case Some(rest) =>
            var r := [a] + rest;
            assert forall i :: 1 <= i < |r| ==> r[i] == rest[i - 1];
            Some(r)
    }

    /**
     * `result`: every binding, expanded with its own variable as the
     * own. Afterwards a binding mentions only its own variable and
     * unsolved ones. `None` means some expansion ran out of fuel.
     */
    function Result(fuel: nat): (r: Option<map<string, Node>>)
      reads this
      requires Valid()
      ensures r.Some? ==> r.value.Keys == subst.Keys
      ensures r.Some? ==> forall x, y :: x in r.value && Contains(r.value[x], Var(y)) ==>
        y == x || y in unsolvedVariables
    {
      var expanded := map x | x in subst :: Expand(Var(x), subst[x], fuel);
      if forall x :: x in expanded ==> expanded[x].Some? then
        Some(map x | x in expanded :: expanded[x].value)
      else None
    }

    /**
     * Expanding changes a term only along the bindings: an assignment that
     * agrees with the bindings gives the expansion the same term as `n`.
     */
    lemma {:induction false} ExpandInstance(sigma: map<string, Node>, own: Node, n: Node, fuel: nat)
      requires Valid() && own.Var? && Agrees(sigma, subst) && Expand(own, n, fuel).Some?
      ensures Apply(sigma, Expand(own, n, fuel).value) == Apply(sigma, n)
      decreases fuel, n
    {
      if n == own || (n.Var? && n.id in unsolvedVariables) {
      } else if n.Var? {
        ExpandInstance(sigma, own, Substitute(subst, n, height), fuel - 1);
        SubstitutePreserves(sigma, subst, n, height);
      } else {
        var ts := ExpandArguments(own, n.arguments, fuel).value;
        forall i | 0 <= i < |ts|
          ensures Apply(sigma, ts[i]) == Apply(sigma, n.arguments[i])
        {
          ExpandInstance(sigma, own, n.arguments[i], fuel);
        }
        assert Apply(sigma, Fun(n.name, ts)).arguments == Apply(sigma, n).arguments;
      }
    }

    /**
     * Two expansions of a term that do not meet their own variables are the
     * same term: which variable is the own one, and how much fuel is left,
     * do not matter then.
     */
    lemma {:induction false} ExpandOwnIrrelevant(a: Node, b: Node, n: Node, fa: nat, fb: nat)
      requires Valid() && a.Var? && b.Var?
      requires Expand(a, n, fa).Some? && !Contains(Expand(a, n, fa).value, a)
      requires Expand(b, n, fb).Some? && !Contains(Expand(b, n, fb).value, b)
      ensures Expand(a, n, fa) == Expand(b, n, fb)
      decreases fa, n
    {
      if n.Var? && n.id in unsolvedVariables {
      } else if n.Var? {
        ExpandOwnIrrelevant(a, b, Substitute(subst, n, height), fa - 1, fb - 1);
      } else {
        var ta, tb := ExpandArguments(a, n.arguments, fa).value, ExpandArguments(b, n.arguments, fb).value;
        ArgumentContained(n.name, ta, a);
        ArgumentContained(n.name, tb, b);
        forall i | 0 <= i < |ta|
          ensures ta[i] == tb[i]
        {
          ExpandOwnIrrelevant(a, b, n.arguments[i], fa, fb);
        }
        assert ta == tb;
      }
    }

    /**
     * Expanding what `y` is bound to, when that does not meet the own
     * variable, is expanding the node `y` substitutes to.
     */
    lemma ExpandFollows(w: Node, y: string, fuel: nat) returns (fuel': nat)
      requires Valid() && w.Var? && y in subst
      requires Expand(w, subst[y], fuel).Some? && !Contains(Expand(w, subst[y], fuel).value, w)
      ensures Expand(w, Substitute(subst, Var(y), height), fuel') == Expand(w, subst[y], fuel)
    {
      SubstituteFollows(subst, Var(y), height);
      fuel' := if Bound(subst, subst[y]) then fuel - 1 else fuel;
    }

    /**
     * When no binding of the result mentions its own variable, applying the
     * result to a term gives the term's expansion.
     */
    lemma {:induction false} ExpandApplies(resultFuel: nat, m: map<string, Node>, own: Node, n: Node, fuel: nat)
      requires Valid() && own.Var? && Result(resultFuel) == Some(m) && SelfFree(m)
      requires Expand(own, n, fuel).Some? && !Contains(Expand(own, n, fuel).value, own)
      ensures Apply(m, n) == Expand(own, n, fuel).value
      decreases fuel, n
    {
      if n.Var? && n.id in unsolvedVariables {
      } else if n.Var? && n.id in subst {
        var y := n.id;
        assert m[y] == Expand(Var(y), subst[y], resultFuel).value;
        var fuel' := ExpandFollows(Var(y), y, resultFuel);
        ExpandOwnIrrelevant(own, Var(y), Substitute(subst, n, height), fuel - 1, fuel');
      } else if n.Var? {
        ExpandApplies(resultFuel, m, own, n, fuel - 1);
      } else {
        var ts := ExpandArguments(own, n.arguments, fuel).value;
        ArgumentContained(n.name, ts, own);
        forall i | 0 <= i < |ts|
          ensures Apply(m, n.arguments[i]) == ts[i]
        {
          ExpandApplies(resultFuel, m, own, n.arguments[i], fuel);
        }
        assert Apply(m, n).arguments == ts;
      }
    }

    /**
     * `result` is sound: when none of its bindings mentions its own
     * variable, it gives every bound variable the same term as what the
     * variable is bound to.
     */
    lemma ResultAgrees(resultFuel: nat, m: map<string, Node>)
      requires Valid() && Result(resultFuel) == Some(m) && SelfFree(m)
      ensures Agrees(m, subst)
    {
      forall x | x in subst
        ensures Apply(m, Var(x)) == Apply(m, subst[x])
      {
        ExpandApplies(resultFuel, m, Var(x), subst[x], resultFuel);
      }
    }

    /**
     * `result` is most general: every assignment that agrees with the
     * bindings gives each variable of the result the term it gives that
     * variable's expanded binding.
     */
    lemma ResultInstance(sigma: map<string, Node>, resultFuel: nat, m: map<string, Node>)
      requires Valid() && Agrees(sigma, subst) && Result(resultFuel) == Some(m)
      ensures forall x :: x in m ==> Apply(sigma, m[x]) == Apply(sigma, Var(x))
    {
      forall x | x in m
        ensures Apply(sigma, m[x]) == Apply(sigma, Var(x))
      {
        ExpandInstance(sigma, Var(x), subst[x], resultFuel);
      }
    }
  }

  // ------------------------------------------------------------ solving a list of equations

  /**
   * `Solver(input)`, `solve()`, then `result()`. An unsolvable outcome
   * means no assignment solves the input. Every assignment that solves the
   * input is an instance of the result. And when no binding of the result
   * mentions its own variable, the result itself solves every input
   * equation. `None` means the steps or the expansions ran out of fuel.
   */
  method SolveAndExpand(input: seq<Equality>, fuel: nat, expandFuel: nat)
    returns (f: Finish, result: Option<map<string, Node>>)
    ensures f.Unsolvable? ==> forall sigma :: !Solves(sigma, input)
    ensures result.Some? ==> f.Solved?
    ensures result.Some? ==> forall sigma, x :: Solves(sigma, input) && x in result.value ==>
      Apply(sigma, result.value[x]) == Apply(sigma, Var(x))
    ensures result.Some? && SelfFree(result.value) ==> Solves(result.value, input)
  {
    var s := new Solver(input);
    f := s.Solve(fuel);
    if !f.Solved? {
      return f, None;
    }
    result := s.Result(expandFuel);
    if result.Some? {
      var m := result.value;
      forall sigma | Solves(sigma, input)
        ensures forall x :: x in m ==> Apply(sigma, m[x]) == Apply(sigma, Var(x))
      {
        s.ResultInstance(sigma, expandFuel, m);
      }
      if SelfFree(m) {
        s.ResultAgrees(expandFuel, m);
      }
    }
  }

  /** `Int`, `Ptr(t)` and `Fun(res, args...)` of the TIP types. */
  function IntType(): Node { Fun("Int", []) }
  function PtrType(t: Node): Node { Fun("Ptr", [t]) }

  /**
   * The equations of the `testSolver` case: the type constraints of a TIP
   * `swap` function and of the `main` that calls it.
   */
  function SwapEquations(): seq<Equality>
  {
    var x, y, tmp := Var("[[swap.x]]"), Var("[[swap.y]]"), Var("[[swap.tmp]]");
    [ Equality(x, PtrType(tmp)),
      Equality(x, PtrType(Var("[[*swap.y]]"))),
      Equality(y, PtrType(Var("[[*swap.y]]"))),
      Equality(y, PtrType(tmp)),
      Equality(Var("[[swap]]"), Fun("Fun", [x, x, y])),
      Equality(Var("[[main.x]]"), PtrType(Var("\\alpha"))),
      Equality(Var("[[main.x]]"), PtrType(IntType())),
      Equality(Var("[[main.y]]"), IntType()),
      Equality(Var("[[&main.y]]"), PtrType(Var("[[main.y]]"))),
      Equality(Var("[[swap]]"), Fun("Fun", [Var("[[swap(&y,x)]]"), Var("[[main.&y]]"), Var("[[main.x]]")])),
      Equality(Var("[[main.z]]"), Var("[[swap(&y,x)]]")),
      Equality(Var("[[main.y+5]]"), IntType()),
      Equality(Var("[[main.y]]"), IntType()) ]
  }

  /**
   * The types `testSolver` expects of `swap`'s and `main`'s variables, with
   * the types the remaining variables of the equations then have.
   */
  function SwapTypes(): map<string, Node>
  {
    var i, p := IntType(), PtrType(IntType());
    map[ "[[swap.x]]" := p, "[[swap.y]]" := p, "[[swap.tmp]]" := i,
         "[[swap]]" := Fun("Fun", [p, p, p]),
         "[[main.x]]" := p, "[[main.y]]" := i, "[[main.z]]" := p,
         "[[*swap.y]]" := i, "\\alpha" := i, "[[&main.y]]" := p,
         "[[swap(&y,x)]]" := p, "[[main.&y]]" := p, "[[main.y+5]]" := i ]
  }

  /** `Int` has no variables, so every assignment leaves it as it is. */
  lemma ApplyInt(sigma: map<string, Node>)
    ensures Apply(sigma, IntType()) == IntType()
  {
    assert Apply(sigma, IntType()).arguments == [];
  }

  /** Applying an assignment to `Ptr(t)` applies it to `t`. */
  lemma ApplyPtr(sigma: map<string, Node>, t: Node)
    ensures Apply(sigma, PtrType(t)) == PtrType(Apply(sigma, t))
  {
    assert Apply(sigma, PtrType(t)).arguments == [Apply(sigma, t)];
  }

  /** Applying an assignment to a function type with two parameters applies it to each part. */
  lemma ApplyFunType(sigma: map<string, Node>, res: Node, a: Node, b: Node)
    ensures Apply(sigma, Fun("Fun", [res, a, b])) == Fun("Fun", [Apply(sigma, res), Apply(sigma, a), Apply(sigma, b)])
  {
    assert Apply(sigma, Fun("Fun", [res, a, b])).arguments == [Apply(sigma, res), Apply(sigma, a), Apply(sigma, b)];
  }

  /** The expected types of `swap`'s variables. */
  lemma SwapTypesOfSwap()
    ensures Apply(SwapTypes(), Var("[[swap.x]]")) == PtrType(IntType())
    ensures Apply(SwapTypes(), Var("[[swap.y]]")) == PtrType(IntType())
    ensures Apply(SwapTypes(), Var("[[swap.tmp]]")) == IntType()
    ensures Apply(SwapTypes(), Var("[[*swap.y]]")) == IntType()
  {
  }

  /** The expected type of `swap` itself and of `main`'s call of it. */
  lemma SwapTypesOfCall()
    ensures Apply(SwapTypes(), Var("[[swap]]")) == Fun("Fun", [PtrType(IntType()), PtrType(IntType()), PtrType(IntType())])
    ensures Apply(SwapTypes(), Var("[[swap(&y,x)]]")) == PtrType(IntType())
    ensures Apply(SwapTypes(), Var("[[main.&y]]")) == PtrType(IntType())
  {
  }

  /** The expected types of `main`'s variables. */
  lemma SwapTypesOfMain()
    ensures Apply(SwapTypes(), Var("[[main.x]]")) == PtrType(IntType())
    ensures Apply(SwapTypes(), Var("[[main.y]]")) == IntType()
    ensures Apply(SwapTypes(), Var("[[main.z]]")) == PtrType(IntType())
  {
  }

  /** The expected types of the remaining variables of `main`. */
  lemma SwapTypesOfRest()
    ensures Apply(SwapTypes(), Var("\\alpha")) == IntType()
    ensures Apply(SwapTypes(), Var("[[&main.y]]")) == PtrType(IntType())
    ensures Apply(SwapTypes(), Var("[[main.y+5]]")) == IntType()
  {
  }

  /** The expected types solve every equation of `testSolver`. */
  lemma SwapTypesSolve()
    ensures Solves(SwapTypes(), SwapEquations())
  {
    var t, eqs := SwapTypes(), SwapEquations();
    SwapTypesOfSwap();
    SwapTypesOfCall();
    SwapTypesOfMain();
    SwapTypesOfRest();
    ApplyInt(t);
    ApplyPtr(t, IntType());
    ApplyPtr(t, Var("[[swap.tmp]]"));
    ApplyPtr(t, Var("[[*swap.y]]"));
    ApplyPtr(t, Var("\\alpha"));
    ApplyPtr(t, Var("[[main.y]]"));
    ApplyFunType(t, Var("[[swap.x]]"), Var("[[swap.x]]"), Var("[[swap.y]]"));
    ApplyFunType(t, Var("[[swap(&y,x)]]"), Var("[[main.&y]]"), Var("[[main.x]]"));
    forall k | 0 <= k < |eqs|
      ensures Apply(t, eqs[k].lhv) == Apply(t, eqs[k].rhv)
    {
    }
  }

  /**
   * `testSolver`: solving its equations never reports them unsolvable, and
   * every binding of the result has the expected type as an instance; a
   * binding without variables is exactly the expected type.
   */
  method TestSolver(fuel: nat, expandFuel: nat) returns (f: Finish, result: Option<map<string, Node>>)
    ensures !f.Unsolvable?
    ensures result.Some? ==> forall x :: x in result.value && x in SwapTypes() ==>
      Apply(SwapTypes(), result.value[x]) == SwapTypes()[x]
  {
    f, result := SolveAndExpand(SwapEquations(), fuel, expandFuel);
    SwapTypesSolve();
  }

  // ------------------------------------------------------------ one-level lookup, as written

  /** `rlhv`/`rrhv` as written: a single lookup in the substitution. */
  function LookupOnce(subst: map<string, Node>, n: Node): Node
  {
    if Bound(subst, n) then subst[n.id] else n
  }

  /**
   * The guards of `delete`, `decompose` and `swap` as written all pass on
   * `eq`, so `solve` hands it to `eliminate`.
   */
  predicate ReachesEliminateAsWritten(subst: map<string, Node>, eq: Equality)
  {
    var l, r := LookupOnce(subst, eq.lhv), LookupOnce(subst, eq.rhv);
    l != r && !(l.Fun? && r.Fun?) && !(r.Var? && !l.Var?)
  }

  /**
   * `eliminate` as written, on the substitution: binds the looked-up left
   * variable to the looked-up right side; `None` is the occurs-check
   * exception, and a left side that is not a variable leaves it alone.
   */
  function EliminateAsWritten(subst: map<string, Node>, eq: Equality): Option<map<string, Node>>
  {
    var l, r := LookupOnce(subst, eq.lhv), LookupOnce(subst, eq.rhv);
    if !l.Var? then Some(subst)
    else if Contains(r, l) then None
    else Some(subst[l.id := r])
  }

  /** `b` and `x` are bound to each other: the chase from `b` never ends. */
  lemma {:induction false} CycleNeverEnds(subst: map<string, Node>, k: nat)
    requires subst == map["a" := Var("b"), "b" := Var("x"), "x" := Var("b")]
    ensures !Ends(subst, Var("b"), k) && !Ends(subst, Var("x"), k)
    decreases k
  {
    if k > 0 {
      CycleNeverEnds(subst, k - 1);
    }
  }

  /**
   * With the one-level lookup, `solve` on `a = b, b = x, x = a` binds all
   * three variables, the last one to `b` (looked up from `a`) instead of to
   * `x`, so `b` and `x` end up bound to each other and `substitute(b)`, and
   * with it `result`, never returns.
   */
  lemma OneLevelLookupMakesCycle()
    ensures var e1, e2, e3 := Equality(Var("a"), Var("b")), Equality(Var("b"), Var("x")), Equality(Var("x"), Var("a"));
      var s1 := map["a" := Var("b")];
      var s2 := s1["b" := Var("x")];
      var s3 := s2["x" := Var("b")];
      ReachesEliminateAsWritten(map[], e1) && EliminateAsWritten(map[], e1) == Some(s1) &&
      ReachesEliminateAsWritten(s1, e2) && EliminateAsWritten(s1, e2) == Some(s2) &&
      ReachesEliminateAsWritten(s2, e3) && EliminateAsWritten(s2, e3) == Some(s3) &&
      forall k: nat :: !Ends(s3, Var("b"), k)
  {
    var s3 := map["a" := Var("b"), "b" := Var("x"), "x" := Var("b")];
    assert map["a" := Var("b")]["b" := Var("x")]["x" := Var("b")] == s3;
    forall k: nat
      ensures !Ends(s3, Var("b"), k)
    {
      CycleNeverEnds(s3, k);
    }
  }

  /**
   * With the full `substitute`, the same third equation `x = a` has both
   * sides substituting to `x` once `a = b` and `b = x` are bound, so
   * `delete` drops it and no cycle arises.
   */
  lemma FullLookupDeletes()
    ensures var s2 := map["a" := Var("b"), "b" := Var("x")];
      Ends(s2, Var("a"), 2) && Ends(s2, Var("x"), 2) &&
      Substitute(s2, Var("x"), 2) == Var("x") && Substitute(s2, Var("a"), 2) == Var("x")
  {
    var s2 := map["a" := Var("b"), "b" := Var("x")];
    assert Ends(s2, Var("x"), 0);
    assert Ends(s2, Var("b"), 1);
  }

  /**
   * With the one-level lookup, `solve` on `a = b, b = Int, a = Ptr(c)` binds
   * `a` to `b` and `b` to `Int`. The third equation then looks `a` up as `b`
   * only, passes `delete`, `decompose` and `swap`, and `eliminate`
   * overwrites the binding of `b` with `Ptr(c)`: the clash of `Int` with
   * `Ptr(c)` is lost and nothing is thrown.
   */
  lemma OneLevelLookupOverwrites()
    ensures var e1, e2, e3 := Equality(Var("a"), Var("b")), Equality(Var("b"), IntType()), Equality(Var("a"), PtrType(Var("c")));
      var s1 := map["a" := Var("b")];
      var s2 := s1["b" := IntType()];
      ReachesEliminateAsWritten(map[], e1) && EliminateAsWritten(map[], e1) == Some(s1) &&
      ReachesEliminateAsWritten(s1, e2) && EliminateAsWritten(s1, e2) == Some(s2) &&
      ReachesEliminateAsWritten(s2, e3) && EliminateAsWritten(s2, e3) == Some(s2["b" := PtrType(Var("c"))])
  {
  }

  /**
   * The same three equations have no solution. With the full `substitute`,
   * `a` reaches `Int` once the first two are bound, so the third equation
   * sets `Int` against `Ptr(c)` and `decompose` throws.
   */
  lemma OverwrittenEquationsUnsolvable()
    ensures var s2 := map["a" := Var("b"), "b" := IntType()];
      Ends(s2, Var("a"), 2) && Substitute(s2, Var("a"), 2) == IntType()
    ensures NoSolution([Equality(Var("a"), Var("b")), Equality(Var("b"), IntType()), Equality(Var("a"), PtrType(Var("c")))], map[])
  {
    var s2 := map["a" := Var("b"), "b" := IntType()];
    assert Ends(s2, Var("b"), 1);
    var eqs := [Equality(Var("a"), Var("b")), Equality(Var("b"), IntType()), Equality(Var("a"), PtrType(Var("c")))];
    forall sigma
      ensures !(Solves(sigma, eqs) && Agrees(sigma, map[]))
    {
      ApplyInt(sigma);
      ApplyPtr(sigma, Var("c"));
      assert eqs[0] in eqs && eqs[1] in eqs && eqs[2] in eqs;
    }
  }
}
