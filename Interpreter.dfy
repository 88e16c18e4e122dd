/**
 * The TIP expression interpreter (`examples/tip/Interpreter.kt`): a value
 * `Stack`, and an `Interpreter` whose `interpret(expr)` evaluates an
 * expression to a 32-bit `Int`, reading variables through `naming`
 * (name to address) and `memory` (address to value), drawing `alloc`
 * addresses from a bump pointer and `input` values from the abstract
 * `input()`.
 *
 * An exception thrown by the interpreter is a `Thrown` outcome carrying its
 * message. The abstract `input()` is a stream of values, the k-th call
 * returning `stream(k)`.
 */
module Interpreter {
  import opened Strings
  import opened Results
  import opened Ast

  // ------------------------------------------------------------ Stack

  /** `Stack<E>`, a list used from its end. */
  class Stack<E> {
    var storage: seq<E>

    constructor()
      ensures storage == []
    {
      storage := [];
    }

    /** `push`: appends `value`. */
    method Push(value: E)
      modifies this
      ensures storage == old(storage) + [value]
    {
      storage := storage + [value];
    }

    /** `top`: the last element; `last()` of an empty list throws. */
    method Top() returns (r: Outcome<E>)
      ensures |storage| > 0 <==> r.Returned?
      ensures r.Returned? ==> r.value == storage[|storage| - 1]
      ensures r.Thrown? ==> r.message == "List is empty."
    {
      if |storage| == 0 {
        r := Thrown("List is empty.");
      } else {
        r := Returned(storage[|storage| - 1]);
      }
    }

    /** `pop`: removes and returns the last element; on an empty list `removeAt(-1)` throws. */
    method Pop() returns (r: Outcome<E>)
      modifies this
      ensures old(|storage|) > 0 <==> r.Returned?
      ensures r.Returned? ==> r.value == old(storage[|storage| - 1]) && storage == old(storage[..|storage| - 1])
      ensures r.Thrown? ==> storage == old(storage) && r.message == "Index -1 out of bounds for length 0"
    {
      if |storage| == 0 {
        r := Thrown("Index -1 out of bounds for length 0");
      } else {
        r := Returned(storage[|storage| - 1]);
        storage := storage[..|storage| - 1];
      }
    }
  }

  /** `pop` right after `push(v)` returns `v` and leaves the stack as it was. */
  method PushThenPop<E>(s: Stack<E>, v: E) returns (r: Outcome<E>)
    modifies s
    ensures r == Returned(v)
    ensures s.storage == old(s.storage)
  {
    s.Push(v);
    r := s.Pop();
    assert (old(s.storage) + [v])[..|old(s.storage)|] == old(s.storage);
  }

  // ------------------------------------------------------------ 32-bit arithmetic

  const MinInt: int := -0x8000_0000
  const MaxInt: int := 0x7fff_ffff

  /** The 32-bit two's-complement value of `x`, as Kotlin's `Int` arithmetic wraps. */
  function Wrap(x: int): (r: Int32)
    ensures MinInt <= x <= MaxInt ==> r == x
    ensures (r - x) % 0x1_0000_0000 == 0
  {
    (x - MinInt) % 0x1_0000_0000 + MinInt
  }

  function Abs(x: int): nat
  {
    if x < 0 then -x else x
  }

  /** Integer division rounded toward zero, as the JVM divides. */
  function TruncDiv(a: int, b: int): int
    requires b != 0
  {
    var m := Abs(a) / Abs(b);
    if (a < 0) == (b < 0) then m else -m
  }

  /**
   * Truncating division against its defining property: the remainder it
   * leaves has the sign of the dividend (or is zero) and a smaller
   * magnitude than the divisor.
   */
  lemma TruncDivRemainder(a: int, b: int)
    requires b != 0
    ensures var rem := a - TruncDiv(a, b) * b;
      (rem == 0 || (rem < 0 <==> a < 0)) && Abs(rem) < Abs(b)
  {
    var ma: int, mb: int := Abs(a), Abs(b);
    var m: int := ma / mb;
    var rm: int := ma % mb;
    assert ma == m * mb + rm && 0 <= rm < mb;
    var q := TruncDiv(a, b);
    if (a < 0) == (b < 0) {
      assert q == m;
      NegateProduct(m, b, mb);
    } else {
      assert q == -m;
      NegateProduct(-m, b, mb);
    }
  }

  /** `x * b` in terms of `|b|`. */
  lemma NegateProduct(x: int, b: int, mb: int)
    requires mb == Abs(b)
    ensures x * b == (if b < 0 then -(x * mb) else x * mb)
  {
    if b < 0 {
      assert b == -mb;
      assert x * b == x * (-mb) == -(x * mb);
    }
  }

  /** A product with a factor of at least `k` is at least `k` times the other factor. */
  lemma ScaledAtLeast(x: int, y: int, k: int)
    requires x >= 0 && y >= k
    ensures x * y >= k * x
  {
    assert x * y - k * x == x * (y - k);
  }

  /** The magnitude of a truncated quotient never exceeds the dividend's. */
  lemma TruncDivBound(a: int, b: int)
    requires b != 0
    ensures Abs(TruncDiv(a, b)) <= Abs(a)
    ensures Abs(b) > 1 ==> 2 * Abs(TruncDiv(a, b)) <= Abs(a)
  {
    var ma: int, mb: int := Abs(a), Abs(b);
    var m: int := ma / mb;
    assert ma == m * mb + ma % mb;
    assert Abs(TruncDiv(a, b)) == m;
    ScaledAtLeast(m, mb, 1);
    if mb > 1 {
      ScaledAtLeast(m, mb, 2);
    }
  }

  /**
   * Kotlin's `Int` division of `a` by a non-zero `b`: the quotient rounded
   * toward zero, which fits in 32 bits except for `MinInt / -1`, which wraps.
   */
  function Quotient(a: Int32, b: Int32): (q: Int32)
    requires b != 0
    ensures !(a == MinInt && b == -1) ==> q == TruncDiv(a, b)
  {
    TruncDivBound(a, b);
    Wrap(TruncDiv(a, b))
  }

  /** `Int.MIN_VALUE / -1` wraps back to `Int.MIN_VALUE`. */
  lemma QuotientOverflow()
    ensures Quotient(MinInt, -1) == MinInt
  {
  }

  /** `rep`'s six operators applied to 32-bit operands; division by zero throws. */
  function Apply(op: BinaryOperator, a: Int32, b: Int32): (r: Outcome<Int32>)
    ensures r.Thrown? <==> op == DIV && b == 0
    ensures op == GT || op == EQ ==> r.Returned? && (r.value == 0 || r.value == 1)
    ensures op == GT ==> (r.value == 1 <==> a > b)
    ensures op == EQ ==> (r.value == 1 <==> a == b)
  {
    match op
    case PLUS => Returned(Wrap(a as int + b))
    case MINUS => Returned(Wrap(a as int - b))
    case MULT => Returned(Wrap(a as int * b))
    case DIV => if b == 0 then Thrown("/ by zero") else Returned(Quotient(a, b))
    case GT => Returned(if a > b then 1 else 0)
    case EQ => Returned(if a == b then 1 else 0)
  }

  // ------------------------------------------------------------ evaluation

  /** What `interpret` reads and never writes: the two maps and the input stream. */
  datatype Env = Env(memory: map<Int32, Int32>, naming: map<string, Int32>, stream: nat -> Int32)

  /** What `interpret` changes: the bump pointer, and how many inputs have been read. */
  datatype Machine = Machine(allocaPointer: Int32, inputsRead: nat)

  /** The outcome of evaluating one expression and the machine it leaves behind. */
  datatype Step = Step(result: Outcome<Int32>, after: Machine)

  /** `load`: the value at `ptr`, or an exception naming the address in hexadecimal. */
  function LoadAt(memory: map<Int32, Int32>, ptr: Int32): (r: Outcome<Int32>)
    ensures r.Returned? <==> ptr in memory
    ensures r.Returned? ==> r.value == memory[ptr]
    ensures r.Thrown? ==> r.message == "Invalid address: 0x" + IntToHex(ptr)
  {
    if ptr in memory then Returned(memory[ptr]) else Thrown("Invalid address: 0x" + IntToHex(ptr))
  }

  /** `valueOf`: the address `naming` gives the variable, then `load` of it. */
  function ValueOf(env: Env, name: string): (r: Outcome<Int32>)
    ensures r.Returned? <==> name in env.naming && env.naming[name] in env.memory
    ensures r.Returned? ==> r.value == env.memory[env.naming[name]]
    ensures name !in env.naming ==> r == Thrown("No variable named " + name)
  {
    if name in env.naming then LoadAt(env.memory, env.naming[name]) else Thrown("No variable named " + name)
  }

  /**
   * `interpret(expr)`. Effects happen in evaluation order, `lhv` before
   * `rhv`, and an exception stops evaluation but keeps the effects that
   * happened before it.
   */
  function Eval(env: Env, m: Machine, e: Expr): Step
    decreases e
  {
    match e
    case Input => Step(Returned(env.stream(m.inputsRead)), m.(inputsRead := m.inputsRead + 1))
    case Null => Step(Returned(0), m)
    case Alloc =>
      var p := Wrap(m.allocaPointer as int + 1);
      Step(Returned(p), m.(allocaPointer := p))
    case Constant(v) => Step(Returned(v), m)
    case Variable(name) => Step(ValueOf(env, name), m)
    case Load(p) =>
      var s := Eval(env, m, p);
      if s.result.Thrown? then s else Step(LoadAt(env.memory, s.result.value), s.after)
    case Binary(l, op, rv) =>
      var sl := Eval(env, m, l);
      if sl.result.Thrown? then sl
      else
        var sr := Eval(env, sl.after, rv);
        if sr.result.Thrown? then sr
        else Step(Apply(op, sl.result.value, sr.result.value), sr.after)
    case TakePtr(name) =>
      Step(if name in env.naming then Returned(env.naming[name]) else Thrown("No variable named " + name), m)
    case Call(_, _) => Step(Thrown("An operation is not implemented."), m)
    case InCall(_, _) => Step(Thrown("An operation is not implemented."), m)
  }

  /** `Interpreter`: the maps and the bump pointer are fields; `interpret` updates the pointer in place. */
  class Interpreter {
    var allocaPointer: Int32
    var memory: map<Int32, Int32>
    var naming: map<string, Int32>
    /** The abstract `input()`: the values it returns, in order, and how many it has returned. */
    const stream: nat -> Int32
    var inputsRead: nat

    constructor(stream: nat -> Int32)
      ensures allocaPointer == 0 && memory == map[] && naming == map[]
      ensures this.stream == stream && inputsRead == 0
    {
      allocaPointer := 0;
      memory := map[];
      naming := map[];
      this.stream := stream;
      inputsRead := 0;
    }

    function Environment(): Env
      reads this
    {
      Env(memory, naming, stream)
    }

    function State(): Machine
      reads this
    {
      Machine(allocaPointer, inputsRead)
    }

    /** `interpret(expr)`, evaluating in place against `Eval`. */
    method Interpret(e: Expr) returns (r: Outcome<Int32>)
      modifies this
      ensures Step(r, State()) == Eval(old(Environment()), old(State()), e)
      ensures memory == old(memory) && naming == old(naming)
      decreases e
    {
      match e
      case Input =>
        r := Returned(stream(inputsRead));
        inputsRead := inputsRead + 1;
      case Null =>
        r := Returned(0);
      case Alloc =>
        allocaPointer := Wrap(allocaPointer as int + 1);
        r := Returned(allocaPointer);
      case Constant(v) =>
        r := Returned(v);
      case Variable(name) =>
        r := ValueOf(Environment(), name);
      case Load(p) =>
        r := Interpret(p);
        if r.Returned? {
          r := LoadAt(memory, r.value);
        }
      case Binary(l, op, rv) =>
        var lhv := Interpret(l);
        if lhv.Thrown? {
          return lhv;
        }
        var rhv := Interpret(rv);
        if rhv.Thrown? {
          return rhv;
        }
        r := Apply(op, lhv.value, rhv.value);
      case TakePtr(name) =>
        r := if name in naming then Returned(naming[name]) else Thrown("No variable named " + name);
      case Call(_, _) =>
        r := Thrown("An operation is not implemented.");
      case InCall(_, _) =>
        r := Thrown("An operation is not implemented.");
    }
  }

  // ------------------------------------------------------------ properties of evaluation

  /** No `input` and no `alloc` anywhere in the expression: nothing to change the machine. */
  predicate EffectFree(e: Expr)
  {
    match e
    case Input => false
    case Alloc => false
    case Binary(l, _, rv) => EffectFree(l) && EffectFree(rv)
    case Load(p) => EffectFree(p)
    case _ => true
  }

  /** An effect-free expression leaves the machine as it was, whatever it evaluates to. */
  lemma {:induction false} EffectFreeKeepsMachine(env: Env, m: Machine, e: Expr)
    requires EffectFree(e)
    ensures Eval(env, m, e).after == m
    decreases e
  {
    match e
    case Binary(l, _, rv) =>
      EffectFreeKeepsMachine(env, m, l);
      EffectFreeKeepsMachine(env, m, rv);
    case Load(p) =>
      EffectFreeKeepsMachine(env, m, p);
    case _ =>
  }

  /** Inputs once read stay read: evaluation never decreases the input count. */
  lemma {:induction false} InputsOnlyAdvance(env: Env, m: Machine, e: Expr)
    ensures Eval(env, m, e).after.inputsRead >= m.inputsRead
    decreases e
  {
    match e
    case Binary(l, _, rv) =>
      InputsOnlyAdvance(env, m, l);
      InputsOnlyAdvance(env, Eval(env, m, l).after, rv);
    case Load(p) =>
      InputsOnlyAdvance(env, m, p);
    case _ =>
  }

  /**
   * `lhv` is evaluated before `rhv`: `input - input` subtracts the second
   * value read from the first.
   */
  lemma LeftOperandFirst(env: Env, m: Machine)
    ensures Eval(env, m, Binary(Input, MINUS, Input)) ==
      Step(Returned(Wrap(env.stream(m.inputsRead) - env.stream(m.inputsRead + 1))), m.(inputsRead := m.inputsRead + 2))
  {
  }

  /** Two `alloc`s in one expression yield different addresses, so `alloc == alloc` is 0. */
  lemma AllocsDiffer(env: Env, m: Machine)
    ensures Eval(env, m, Binary(Alloc, EQ, Alloc)).result == Returned(0)
  {
    var p := Wrap(m.allocaPointer as int + 1);
    var q := Wrap(p as int + 1);
    assert p != q;
  }

  /** A fresh interpreter's first `alloc` returns 1, its second 2. */
  lemma AllocsStartAtOne(env: Env)
    ensures var s1 := Eval(env, Machine(0, 0), Alloc);
      s1.result == Returned(1) && Eval(env, s1.after, Alloc).result == Returned(2)
  {
  }

  /**
   * A variable evaluates exactly when it is named and its address is
   * mapped, and then to the value stored there.
   */
  lemma VariableDefinedness(env: Env, m: Machine, name: string)
    ensures Eval(env, m, Variable(name)).result.Returned? <==>
      name in env.naming && env.naming[name] in env.memory
    ensures Eval(env, m, Variable(name)).result.Returned? ==>
      Eval(env, m, Variable(name)).result.value == env.memory[env.naming[name]]
  {
  }

  /** An exception in `lhv` is the exception of the whole binary expression, and `rhv` is not evaluated. */
  lemma LeftExceptionStops(env: Env, m: Machine, l: Expr, op: BinaryOperator, rv: Expr)
    requires Eval(env, m, l).result.Thrown?
    ensures Eval(env, m, Binary(l, op, rv)) == Eval(env, m, l)
  {
  }

  /** `Int` addition wraps: `2147483647 + 1` is `-2147483648`. */
  lemma AdditionWraps()
    ensures Eval(Env(map[], map[], _ => 0), Machine(0, 0), Binary(Constant(MaxInt), PLUS, Constant(1))).result == Returned(MinInt)
  {
  }

  /** Division truncates toward zero: `-7 / 2` is `-3`; division by zero throws. */
  lemma DivisionTruncates()
    ensures Eval(Env(map[], map[], _ => 0), Machine(0, 0), Binary(Constant(-7), DIV, Constant(2))).result == Returned(-3)
    ensures Eval(Env(map[], map[], _ => 0), Machine(0, 0), Binary(Constant(1), DIV, Constant(0))).result == Thrown("/ by zero")
  {
  }

  /** `load` of an unmapped address throws, naming the address in hexadecimal. */
  lemma LoadOfNullThrows(env: Env, m: Machine)
    requires 0 !in env.memory
    ensures Eval(env, m, Load(Null)).result == Thrown("Invalid address: 0x0")
  {
  }
}
