/**
 * The two generic tree walks over TIP syntax (`examples/tip/Transformer.kt`):
 *
 *  - `Transformer`, whose default methods rebuild every node from its
 *    transformed children (a statement may become several statements, and a
 *    function several functions, which `flatMap` splices back in order);
 *  - `Visitor<T>`, a fold that gives `default()` at the leaves and
 *    `combine(...)` at every inner node.
 *
 * Kotlin interfaces with overridable defaults become plain functions here:
 * the Transformer's defaults are modelled as written, and a Visitor is
 * given by its two abstract members, `default` and `combine`, passed as
 * parameters.
 */
module Transformer {
  import opened Results
  import opened Ast

  // ------------------------------------------------------------ Transformer

  /** `transformExpr`: with the defaults, every expression is rebuilt as itself. */
  function TransformExpr(e: Expr): (r: Expr)
    ensures r == e
  {
    match e
    case Constant(_) => e
    case Variable(_) => e
    case Binary(l, op, rv) => Binary(TransformExpr(l), op, TransformExpr(rv))
    case Input => Input
    case Alloc => Alloc
    case Null => Null
    case Load(p) => Load(TransformExpr(p))
    case TakePtr(_) => e
    case Call(f, args) => Call(f, TransformArgs(args))
    case InCall(g, args) => InCall(g, TransformArgs(args))
  }

  /** `args.map(::transformExpr)`. */
  function TransformArgs(args: seq<Expr>): (r: seq<Expr>)
    ensures r == args
  {
    if |args| == 0 then [] else [TransformExpr(args[0])] + TransformArgs(args[1..])
  }

  /** `transformStmt`: every statement becomes the one-element list of itself. */
  function TransformStmt(s: Stmt): (r: seq<Stmt>)
    ensures r == [s]
  {
    match s
    case Assignment(name, v) => [Assignment(name, TransformExpr(v))]
    case Output(e) => [Output(TransformExpr(e))]
    case Store(name, v) => [Store(name, TransformExpr(v))]
    case If(c, t, f) =>
      [If(TransformExpr(c), TransformBlock(t), if f.Some? then Some(TransformBlock(f.value)) else None)]
    case While(c, body) => [While(TransformExpr(c), TransformBlock(body))]
  }

  /** `statements.flatMap { transformStmt(it) }`. */
  function TransformStmts(ss: seq<Stmt>): (r: seq<Stmt>)
    ensures r == ss
  {
    if |ss| == 0 then [] else TransformStmt(ss[0]) + TransformStmts(ss[1..])
  }

  /** `transformBlock`: a block keeps its statements, in order and in number. */
  function TransformBlock(b: Block): (r: Block)
    ensures r == b
    ensures |r.statements| == |b.statements|
  {
    Block(TransformStmts(b.statements))
  }

  /** `transformFunction`: the one-element list of the function itself. */
  function TransformFunction(f: Function): (r: seq<Function>)
    ensures r == [f]
  {
    [f.(body := TransformBlock(f.body), ret := TransformExpr(f.ret))]
  }

  /** `functions.flatMap { transformFunction(it) }`. */
  function TransformFunctions(fs: seq<Function>): (r: seq<Function>)
    ensures r == fs
  {
    if |fs| == 0 then [] else TransformFunction(fs[0]) + TransformFunctions(fs[1..])
  }

  /** `trasformProgram`: a program keeps its functions, in order. */
  function TransformProgram(p: Program): (r: Program)
    ensures r == p
  {
    p.(functions := TransformFunctions(p.functions))
  }

  /**
   * Splicing statement results concatenates: `flatMap` over `a + b` is the
   * `flatMap` over `a` followed by the one over `b`, whatever each statement
   * is rewritten to.
   */
  lemma {:induction false} TransformStmtsAppend(a: seq<Stmt>, b: seq<Stmt>)
    ensures TransformStmts(a + b) == TransformStmts(a) + TransformStmts(b)
  {
    if |a| > 0 {
      assert (a + b)[1..] == a[1..] + b;
      TransformStmtsAppend(a[1..], b);
    } else {
      assert a + b == b;
    }
  }

  // ------------------------------------------------------------ Visitor

  /** `visitExpr`: `default()` at the six leaves, `combine` of the children's visits otherwise. */
  function VisitExpr<T>(e: Expr, default: T, combine: seq<T> -> T): (r: T)
    ensures e.Constant? || e.Variable? || e.Input? || e.Alloc? || e.Null? || e.TakePtr? ==> r == default
    decreases e
  {
    match e
    case Constant(_) => default
    case Variable(_) => default
    case Binary(l, _, rv) => combine([VisitExpr(l, default, combine), VisitExpr(rv, default, combine)])
    case Input => default
    case Alloc => default
    case Null => default
    case Load(p) => combine([VisitExpr(p, default, combine)])
    case TakePtr(_) => default
    case Call(_, args) => combine(VisitArgs(args, default, combine))
    case InCall(_, args) => combine(VisitArgs(args, default, combine))
  }

  /** `args.map(::visitExpr)`: one visit per argument, in order. */
  function VisitArgs<T>(args: seq<Expr>, default: T, combine: seq<T> -> T): (r: seq<T>)
    ensures |r| == |args|
    ensures forall i :: 0 <= i < |args| ==> r[i] == VisitExpr(args[i], default, combine)
    decreases args
  {
    if |args| == 0 then [] else [VisitExpr(args[0], default, combine)] + VisitArgs(args[1..], default, combine)
  }

  /**
   * `visitStmt`: an `if` combines three visits when it has an `else` branch
   * and two when it has none.
   */
  function VisitStmt<T>(s: Stmt, default: T, combine: seq<T> -> T): (r: T)
    decreases s
  {
    match s
    case Assignment(_, v) => combine([VisitExpr(v, default, combine)])
    case Output(e) => combine([VisitExpr(e, default, combine)])
    case Store(_, v) => combine([VisitExpr(v, default, combine)])
    case If(c, t, f) =>
      if f.Some? then
        combine([VisitExpr(c, default, combine), VisitBlock(t, default, combine), VisitBlock(f.value, default, combine)])
      else
        combine([VisitExpr(c, default, combine), VisitBlock(t, default, combine)])
    case While(c, body) => combine([VisitExpr(c, default, combine), VisitBlock(body, default, combine)])
  }

  /** `statements.map { visitStmt(it) }`: one visit per statement, in order. */
  function VisitStmts<T>(ss: seq<Stmt>, default: T, combine: seq<T> -> T): (r: seq<T>)
    ensures |r| == |ss|
    ensures forall i :: 0 <= i < |ss| ==> r[i] == VisitStmt(ss[i], default, combine)
    decreases ss
  {
    if |ss| == 0 then [] else [VisitStmt(ss[0], default, combine)] + VisitStmts(ss[1..], default, combine)
  }

  /** `visitBlock`. */
  function VisitBlock<T>(b: Block, default: T, combine: seq<T> -> T): T
    decreases b
  {
    combine(VisitStmts(b.statements, default, combine))
  }

  /** `visitFunction`: the body's visit, then the returned expression's. */
  function VisitFunction<T>(f: Function, default: T, combine: seq<T> -> T): T
  {
    combine([VisitBlock(f.body, default, combine), VisitExpr(f.ret, default, combine)])
  }

  /** `functions.map { visitFunction(it) }`. */
  function VisitFunctions<T>(fs: seq<Function>, default: T, combine: seq<T> -> T): (r: seq<T>)
    ensures |r| == |fs|
    ensures forall i :: 0 <= i < |fs| ==> r[i] == VisitFunction(fs[i], default, combine)
  {
    if |fs| == 0 then [] else [VisitFunction(fs[0], default, combine)] + VisitFunctions(fs[1..], default, combine)
  }

  /** `visitProgram`. */
  function VisitProgram<T>(p: Program, default: T, combine: seq<T> -> T): T
  {
    combine(VisitFunctions(p.functions, default, combine))
  }

  /** The statement visits of `a + b` are those of `a` followed by those of `b`. */
  lemma {:induction false} VisitStmtsAppend<T>(a: seq<Stmt>, b: seq<Stmt>, default: T, combine: seq<T> -> T)
    ensures VisitStmts(a + b, default, combine) == VisitStmts(a, default, combine) + VisitStmts(b, default, combine)
  {
    if |a| > 0 {
      assert (a + b)[1..] == a[1..] + b;
      VisitStmtsAppend(a[1..], b, default, combine);
    } else {
      assert a + b == b;
    }
  }

  // ------------------------------------------------------------ a visitor that keeps its default

  /** `combine` gives `default` back whenever every value it combines is `default`. */
  ghost predicate KeepsDefault<T(!new)>(default: T, combine: seq<T> -> T)
  {
    forall vs: seq<T> :: (forall i :: 0 <= i < |vs| ==> vs[i] == default) ==> combine(vs) == default
  }

  /**
   * A visitor whose `combine` keeps its default visits every expression to
   * that default: nothing but `default()` ever enters the fold.
   */
  lemma {:induction false} VisitExprKeepsDefault<T(!new)>(e: Expr, default: T, combine: seq<T> -> T)
    requires KeepsDefault(default, combine)
    ensures VisitExpr(e, default, combine) == default
    decreases e
  {
    match e
    case Binary(l, _, rv) =>
      VisitExprKeepsDefault(l, default, combine);
      VisitExprKeepsDefault(rv, default, combine);
      var vs := [VisitExpr(l, default, combine), VisitExpr(rv, default, combine)];
      assert forall i :: 0 <= i < |vs| ==> vs[i] == default;
    case Load(p) =>
      VisitExprKeepsDefault(p, default, combine);
      var vs := [VisitExpr(p, default, combine)];
      assert forall i :: 0 <= i < |vs| ==> vs[i] == default;
    case Call(_, args) =>
      VisitArgsKeepDefault(args, default, combine);
    case InCall(_, args) =>
      VisitArgsKeepDefault(args, default, combine);
    case _ =>
  }

  lemma {:induction false} VisitArgsKeepDefault<T(!new)>(args: seq<Expr>, default: T, combine: seq<T> -> T)
    requires KeepsDefault(default, combine)
    ensures forall i :: 0 <= i < |args| ==> VisitArgs(args, default, combine)[i] == default
    decreases args
  {
    forall i | 0 <= i < |args|
      ensures VisitArgs(args, default, combine)[i] == default
    {
      VisitExprKeepsDefault(args[i], default, combine);
    }
  }

  /** The same for statements and blocks. */
  lemma {:induction false} VisitStmtKeepsDefault<T(!new)>(s: Stmt, default: T, combine: seq<T> -> T)
    requires KeepsDefault(default, combine)
    ensures VisitStmt(s, default, combine) == default
    decreases s
  {
    match s
    case Assignment(_, v) =>
      VisitExprKeepsDefault(v, default, combine);
      var vs := [VisitExpr(v, default, combine)];
      assert forall i :: 0 <= i < |vs| ==> vs[i] == default;
    case Output(e) =>
      VisitExprKeepsDefault(e, default, combine);
      var vs := [VisitExpr(e, default, combine)];
      assert forall i :: 0 <= i < |vs| ==> vs[i] == default;
    case Store(_, v) =>
      VisitExprKeepsDefault(v, default, combine);
      var vs := [VisitExpr(v, default, combine)];
      assert forall i :: 0 <= i < |vs| ==> vs[i] == default;
    case If(c, t, f) =>
      VisitExprKeepsDefault(c, default, combine);
      VisitBlockKeepsDefault(t, default, combine);
      if f.Some? {
        VisitBlockKeepsDefault(f.value, default, combine);
        var vs := [VisitExpr(c, default, combine), VisitBlock(t, default, combine), VisitBlock(f.value, default, combine)];
        assert forall i :: 0 <= i < |vs| ==> vs[i] == default;
      } else {
        var vs := [VisitExpr(c, default, combine), VisitBlock(t, default, combine)];
        assert forall i :: 0 <= i < |vs| ==> vs[i] == default;
      }
    case While(c, body) =>
      VisitExprKeepsDefault(c, default, combine);
      VisitBlockKeepsDefault(body, default, combine);
      var vs := [VisitExpr(c, default, combine), VisitBlock(body, default, combine)];
      assert forall i :: 0 <= i < |vs| ==> vs[i] == default;
  }

  lemma {:induction false} VisitBlockKeepsDefault<T(!new)>(b: Block, default: T, combine: seq<T> -> T)
    requires KeepsDefault(default, combine)
    ensures VisitBlock(b, default, combine) == default
    decreases b
  {
    var ss := b.statements;
    forall i | 0 <= i < |ss|
      ensures VisitStmts(ss, default, combine)[i] == default
    {
      VisitStmtKeepsDefault(ss[i], default, combine);
    }
  }

  // ------------------------------------------------------------ a counting visitor

  function Sum(vs: seq<int>): int
  {
    if |vs| == 0 then 0 else vs[0] + Sum(vs[1..])
  }

  /** The visitor with `default() = 1` and `combine = sum`, which counts the leaves it reaches. */
  function CountLeaves(e: Expr): int
  {
    VisitExpr(e, 1, (vs: seq<int>) => Sum(vs))
  }

  /**
   * The leaves a visitor reaches, defined directly: the six leaf kinds,
   * the operands of a binary expression, the pointer of a load, and the
   * arguments (not the callee) of a call.
   */
  function Leaves(e: Expr): nat
  {
    match e
    case Binary(l, _, rv) => Leaves(l) + Leaves(rv)
    case Load(p) => Leaves(p)
    case Call(_, args) => ArgLeaves(args)
    case InCall(_, args) => ArgLeaves(args)
    case _ => 1
  }

  function ArgLeaves(args: seq<Expr>): nat
  {
    if |args| == 0 then 0 else Leaves(args[0]) + ArgLeaves(args[1..])
  }

  /** The counting visitor counts exactly the leaves `visitExpr` reaches. */
  lemma {:induction false} CountLeavesIsLeaves(e: Expr)
    ensures CountLeaves(e) == Leaves(e)
    decreases e
  {
    match e
    case Binary(l, _, rv) =>
      CountLeavesIsLeaves(l);
      CountLeavesIsLeaves(rv);
      var vs := [CountLeaves(l), CountLeaves(rv)];
      assert CountLeaves(e) == Sum(vs);
      assert vs[1..] == [CountLeaves(rv)];
      assert Sum(vs[1..]) == CountLeaves(rv) + Sum([]);
    case Load(p) =>
      CountLeavesIsLeaves(p);
      assert CountLeaves(e) == Sum([CountLeaves(p)]);
      assert [CountLeaves(p)][1..] == [];
    case Call(_, args) =>
      CountArgLeaves(args);
    case InCall(_, args) =>
      CountArgLeaves(args);
    case _ =>
  }

  lemma {:induction false} CountArgLeaves(args: seq<Expr>)
    ensures Sum(VisitArgs(args, 1, (vs: seq<int>) => Sum(vs))) == ArgLeaves(args)
    decreases args
  {
    if |args| > 0 {
      var c := (vs: seq<int>) => Sum(vs);
      CountLeavesIsLeaves(args[0]);
      CountArgLeaves(args[1..]);
      assert VisitArgs(args, 1, c)[1..] == VisitArgs(args[1..], 1, c);
    }
  }

  /**
   * The arity of `combine` at an `if`: a visitor whose `combine` returns the
   * number of values it is given sees three at an `if` with an `else` block
   * and two at one without.
   */
  function CountCombines(s: Stmt): int
  {
    VisitStmt(s, 0, (vs: seq<int>) => |vs|)
  }

  lemma IfCombinesThreeOrTwo(c: Expr, t: Block, f: Option<Block>)
    ensures CountCombines(If(c, t, f)) == (if f.Some? then 3 else 2)
  {
  }
}
