/**
 * Operator-precedence tables (`parsers/OperatorTable.kt`): binary operators
 * registered by priority and associativity, built into layered parsers
 * around a base element parser.
 */
module OperatorTable {
  import opened Inputs
  import opened Results
  import opened Combinators

  const DEFAULT_PRIORITY: int := 7

  /** The associativity of a level; `Ordinal` is its position in the enum. */
  datatype Assoc = LEFT | RIGHT | NONE
  {
    function Ordinal(): (n: int)
      ensures 0 <= n <= 2
      ensures n == 0 <==> this == LEFT
      ensures n == 1 <==> this == RIGHT
    {
      match this
      case LEFT => 0
      case RIGHT => 1
      case NONE => 2
    }
  }

  /** Kotlin's `Int.compareTo`: the sign of the difference. */
  function CompareInts(a: int, b: int): (c: int)
    ensures c == 0 <==> a == b
    ensures c > 0 <==> a > b
    ensures -1 <= c <= 1
  {
    if a < b then -1 else if a == b then 0 else 1
  }

  /** The key of one level of the table. */
  datatype SortedKey = SortedKey(priority: int, assoc: Assoc)
  {
    /** `SortedKey.compareTo`: by priority first, then by associativity. */
    function CompareTo(other: SortedKey): int
    {
      var priComp := CompareInts(priority, other.priority);
      if priComp != 0 then priComp else assoc.Ordinal() - other.assoc.Ordinal()
    }
  }

  /** `a` sorts after `b`. */
  predicate Above(a: SortedKey, b: SortedKey)
  {
    a.CompareTo(b) > 0
  }

  /**
   * `compareTo` is a strict total order: equal only on equal keys,
   * antisymmetric and transitive, with priority deciding first.
   */
  lemma CompareToIsTotalOrder(a: SortedKey, b: SortedKey, c: SortedKey)
    ensures a.CompareTo(b) == 0 <==> a == b
    ensures Above(a, b) <==> b.CompareTo(a) < 0
    ensures a != b ==> Above(a, b) || Above(b, a)
    ensures Above(a, b) && Above(b, c) ==> Above(a, c)
    ensures a.priority > b.priority ==> Above(a, b)
    ensures a.priority == b.priority ==> (Above(a, b) <==> a.assoc.Ordinal() > b.assoc.Ordinal())
  {
  }

  /**
   * `Entry.invoke`: the operator parser's value turned into the binary
   * function `(a, b) -> mapping(a, op, b)`.
   */
  function EntryParser<T, E(!new), K>(op: Parser<T, K>, mapping: (E, K, E) -> E, input: Input<T>): (r: ParseResult<T, (E, E) -> E>)
    ensures r.Success? <==> op(input).Success?
    ensures r.Success? ==> r.rest == op(input).rest &&
                           forall a: E, b: E :: r.result(a, b) == mapping(a, op(input).result, b)
    ensures !r.Success? ==> r == op(input).Propagate()
  {
    Map(op(input), (k: K) => (a: E, b: E) => mapping(a, k, b))
  }

  function Entry<T, E(!new), K>(op: Parser<T, K>, mapping: (E, K, E) -> E): Parser<T, (E, E) -> E>
  {
    input => EntryParser(op, mapping, input)
  }

  /** `rest.fold(first) { l, (op, r) -> op(l, r) }`: operators applied left to right. */
  function FoldLeft<E>(first: E, rest: seq<((E, E) -> E, E)>): E
    decreases |rest|
  {
    if rest == [] then first
    else FoldLeft(rest[0].0(first, rest[0].1), rest[1..])
  }

  /** `rest.foldRight(last) { (l, op), r -> op(l, r) }`: operators applied right to left. */
  function FoldRight<E>(rest: seq<(E, (E, E) -> E)>, last: E): E
    decreases |rest|
  {
    if rest == [] then last
    else rest[0].1(rest[0].0, FoldRight(rest[1..], last))
  }

  /** The left fold groups to the left: the last operator is applied outermost. */
  lemma {:induction false} FoldLeftSnoc<E>(first: E, rest: seq<((E, E) -> E, E)>, op: (E, E) -> E, r: E)
    ensures FoldLeft(first, rest + [(op, r)]) == op(FoldLeft(first, rest), r)
    decreases |rest|
  {
    if rest == [] {
      assert rest + [(op, r)] == [(op, r)];
    } else {
      assert (rest + [(op, r)])[1..] == rest[1..] + [(op, r)];
      FoldLeftSnoc(rest[0].0(first, rest[0].1), rest[1..], op, r);
    }
  }

  /** The right fold groups to the right: the last operator is applied innermost. */
  lemma {:induction false} FoldRightSnoc<E>(rest: seq<(E, (E, E) -> E)>, l: E, op: (E, E) -> E, last: E)
    ensures FoldRight(rest + [(l, op)], last) == FoldRight(rest, op(l, last))
    decreases |rest|
  {
    if rest == [] {
      assert rest + [(l, op)] == [(l, op)];
    } else {
      assert (rest + [(l, op)])[1..] == rest[1..] + [(l, op)];
      FoldRightSnoc(rest[1..], l, op, last);
    }
  }

  /**
   * `10 ~- 10 ~- 20` with `a ~- b = b - a` is 0 when grouped to the right
   * and 20 when grouped to the left.
   */
  lemma AssociativityExample()
    ensures var f := (a: int, b: int) => b - a;
            FoldRight([(10, f), (10, f)], 20) == 0 && FoldLeft(10, [(f, 10), (f, 20)]) == 20
  {
    var f := (a: int, b: int) => b - a;
    assert [(10, f), (10, f)][1..] == [(10, f)];
    assert [(10, f)][1..] == [];
    assert FoldRight([(10, f)], 20) == 10;
    assert [(f, 10), (f, 20)][1..] == [(f, 20)];
    assert [(f, 20)][1..] == [];
    assert FoldLeft(0, [(f, 20)]) == 20;
  }

  /** A left-associative level: `element (op element)*`, folded to the left. */
  function LeftLevel<T(==), E>(element: Parser<T, E>, op: Parser<T, (E, E) -> E>): Parser<T, E>
  {
    Zip(element, Many(Zip(op, element, (f: (E, E) -> E, r: E) => (f, r))),
        (first: E, rest: seq<((E, E) -> E, E)>) => FoldLeft(first, rest))
  }

  /** A right-associative level: `(element op)* element`, folded to the right. */
  function RightLevel<T(==), E>(element: Parser<T, E>, op: Parser<T, (E, E) -> E>): Parser<T, E>
  {
    Zip(Many(Zip(element, op, (l: E, f: (E, E) -> E) => (l, f))), element,
        (rest: seq<(E, (E, E) -> E)>, last: E) => FoldRight(rest, last))
  }

  /**
   * A left level succeeds exactly where its element does, and folds every
   * further `op element` pair the loop collects onto the first value.
   */
  lemma LeftLevelShape<T, E>(element: Parser<T, E>, op: Parser<T, (E, E) -> E>, input: Input<T>)
    ensures LeftLevel(element, op)(input).Success? <==> element(input).Success?
    ensures element(input).Success? ==>
              var pairs := ManyParser(Zip(op, element, (f: (E, E) -> E, r: E) => (f, r)), element(input).rest);
              LeftLevel(element, op)(input) == Success(pairs.rest, FoldLeft(element(input).result, pairs.result))
  {
  }

  /**
   * A right level succeeds exactly where the final element succeeds after
   * every `element op` pair the loop collects, and folds them onto it.
   */
  lemma RightLevelShape<T, E>(element: Parser<T, E>, op: Parser<T, (E, E) -> E>, input: Input<T>)
    ensures var pairs := ManyParser(Zip(element, op, (l: E, f: (E, E) -> E) => (l, f)), input);
            (RightLevel(element, op)(input).Success? <==> element(pairs.rest).Success?) &&
            (element(pairs.rest).Success? ==>
               RightLevel(element, op)(input) ==
               Success(element(pairs.rest).rest, FoldRight(pairs.result, element(pairs.rest).result)))
  {
  }

  /** `TODO()` in the `NONE` branch throws `NotImplementedError` with this message. */
  const NOT_IMPLEMENTED := "An operation is not implemented."

  /**
   * The layered parser for keys applied in the given order, each level
   * wrapping the previous one: the first key is innermost.
   */
  function Levels<T(==), E>(current: Parser<T, E>, keys: seq<SortedKey>, table: map<SortedKey, seq<Parser<T, (E, E) -> E>>>): (r: Outcome<Parser<T, E>>)
    requires forall k :: k in keys ==> k in table
    ensures r.Thrown? <==> exists k :: k in keys && k.assoc == NONE
    ensures r.Thrown? ==> r.message == NOT_IMPLEMENTED
    ensures keys == [] ==> r == Returned(current)
    decreases |keys|
  {
    if keys == [] then Returned(current)
    else
      var key := keys[0];
      var op := Choice(table[key]);
      match key.assoc
      case LEFT => Levels(LeftLevel(current, op), keys[1..], table)
      case RIGHT => Levels(RightLevel(current, op), keys[1..], table)
      case NONE => Thrown(NOT_IMPLEMENTED)
  }

  /** Strictly descending in `compareTo`, hence without repetitions. */
  predicate SortedDescending(keys: seq<SortedKey>)
  {
    forall i, j :: 0 <= i < j < |keys| ==> Above(keys[i], keys[j])
  }

  /** Inserts `k` into a descending sequence that does not hold it. */
  function Insert(k: SortedKey, keys: seq<SortedKey>): (r: seq<SortedKey>)
    requires SortedDescending(keys) && k !in keys
    ensures SortedDescending(r)
    ensures |r| == |keys| + 1
    ensures forall x :: x in r <==> x == k || x in keys
    decreases |keys|
  {
    if keys == [] then [k]
    else if Above(k, keys[0]) then
      CompareToIsTotalOrder(k, keys[0], keys[0]);
      forall j | 0 <= j < |keys| ensures Above(k, keys[j]) {
        CompareToIsTotalOrder(k, keys[0], keys[j]);
      }
      [k] + keys
    else
      CompareToIsTotalOrder(k, keys[0], keys[0]);
      var tail := Insert(k, keys[1..]);
      assert forall x :: x in keys[1..] ==> Above(keys[0], x);
      [keys[0]] + tail
  }

  /** `map.keys.sortedByDescending { it }`. */
  method SortDescending(keys: set<SortedKey>) returns (order: seq<SortedKey>)
    ensures SortedDescending(order)
    ensures forall k :: k in order <==> k in keys
    ensures |order| == |keys|
  {
    var remaining := keys;
    order := [];
    while remaining != {}
      invariant SortedDescending(order)
      invariant forall k :: k in keys <==> k in order || k in remaining
      invariant forall k :: k in order ==> k !in remaining
      invariant |order| + |remaining| == |keys|
      decreases |remaining|
    {
      var k :| k in remaining;
      order := Insert(k, order);
      remaining := remaining - {k};
    }
  }

  /** The descending order of a set of keys is unique. */
  lemma {:induction false} SortedDescendingUnique(a: seq<SortedKey>, b: seq<SortedKey>)
    requires SortedDescending(a) && SortedDescending(b)
    requires forall k :: k in a <==> k in b
    ensures a == b
    decreases |a|
  {
    assert a != [] ==> a[0] in b;
    assert b != [] ==> b[0] in a;
    if a != [] && b != [] {
      CompareToIsTotalOrder(a[0], b[0], a[0]);
      assert a[0] == b[0];
      forall k ensures k in a[1..] <==> k in b[1..] {
        if k in a[1..] {
          var i :| 1 <= i < |a| && a[i] == k;
          CompareToIsTotalOrder(a[0], k, k);
          assert k in b && k != b[0];
          var j :| 0 <= j < |b| && b[j] == k;
          assert b[1..][j - 1] == k;
        }
        if k in b[1..] {
          var j :| 1 <= j < |b| && b[j] == k;
          CompareToIsTotalOrder(b[0], k, k);
          assert k in a && k != a[0];
          var i :| 0 <= i < |a| && a[i] == k;
          assert a[1..][i - 1] == k;
        }
      }
      SortedDescendingUnique(a[1..], b[1..]);
      assert a == [a[0]] + a[1..] && b == [b[0]] + b[1..];
    }
  }

  /**
   * `OperatorTableContext`: the base element parser and the table of
   * operator parsers per level, each list in registration order.
   */
  class OperatorTableContext<T(==), E(!new)> {
    const base: Parser<T, E>
    var table: map<SortedKey, seq<Parser<T, (E, E) -> E>>>

    constructor(base: Parser<T, E>)
      ensures this.base == base && table == map[]
    {
      this.base := base;
      table := map[];
    }

    /** The list of a level, empty when the level has no operator yet (`getOrPut`). */
    function LevelOf(key: SortedKey): seq<Parser<T, (E, E) -> E>>
      reads this
    {
      if key in table then table[key] else []
    }

    /** `op(priority, assoc) { a, k, b -> ... }`: the entry appended to its level. */
    method Register<K>(op: Parser<T, K>, priority: int, assoc: Assoc, mapping: (E, K, E) -> E)
      modifies this
      ensures table == old(table)[SortedKey(priority, assoc) := old(LevelOf(SortedKey(priority, assoc))) + [Entry(op, mapping)]]
    {
      var key := SortedKey(priority, assoc);
      table := table[key := LevelOf(key) + [Entry(op, mapping)]];
    }

    /** `op(priority, assoc) { a, b -> ... }`: the operator's own value is ignored. */
    method RegisterBinary<K>(op: Parser<T, K>, priority: int, assoc: Assoc, mapping: (E, E) -> E)
      modifies this
      ensures table == old(table)[SortedKey(priority, assoc) :=
                old(LevelOf(SortedKey(priority, assoc))) + [Entry(op, (a: E, k: K, b: E) => mapping(a, b))]]
    {
      Register(op, priority, assoc, (a: E, k: K, b: E) => mapping(a, b));
    }

    /**
     * `build`: the keys in descending order, each level wrapped around the
     * previous one starting from `base`, so the highest key binds tightest;
     * a `NONE` level throws.
     */
    method Build() returns (order: seq<SortedKey>, r: Outcome<Parser<T, E>>)
      ensures SortedDescending(order) && forall k :: k in order <==> k in table
      ensures r == Levels(base, order, table)
    {
      order := SortDescending(table.Keys);
      var currentElement := base;
      var i := 0;
      while i < |order|
        invariant 0 <= i <= |order|
        invariant Levels(base, order, table) == Levels(currentElement, order[i..], table)
      {
        var key := order[i];
        assert order[i..][1..] == order[i + 1..];
        var op := Choice(table[key]);
        match key.assoc {
          case LEFT => currentElement := LeftLevel(currentElement, op);
          case RIGHT => currentElement := RightLevel(currentElement, op);
          case NONE => return order, Thrown(NOT_IMPLEMENTED);
        }
        i := i + 1;
      }
      r := Returned(currentElement);
    }
  }

  /**
   * With `*` at priority 4 and `+` at priority 2 (both left), `*` is built
   * first and so sits inside `+`: the built parser is `+`'s level around
   * `*`'s level around the base.
   */
  lemma HigherPriorityIsInner<T, E>(base: Parser<T, E>, mul: Parser<T, (E, E) -> E>, add: Parser<T, (E, E) -> E>)
    ensures var table := map[SortedKey(4, LEFT) := [mul], SortedKey(2, LEFT) := [add]];
            var order := [SortedKey(4, LEFT), SortedKey(2, LEFT)];
            SortedDescending(order) &&
            Levels(base, order, table) == Returned(LeftLevel(LeftLevel(base, Choice([mul])), Choice([add])))
  {
    var table := map[SortedKey(4, LEFT) := [mul], SortedKey(2, LEFT) := [add]];
    var order := [SortedKey(4, LEFT), SortedKey(2, LEFT)];
    assert order[1..] == [SortedKey(2, LEFT)];
    assert order[1..][1..] == [];
  }

  /** At equal priority a RIGHT level sorts above a LEFT one, so it is built first, inside. */
  lemma RightBeforeLeftAtSamePriority(p: int)
    ensures Above(SortedKey(p, RIGHT), SortedKey(p, LEFT))
    ensures Above(SortedKey(p, NONE), SortedKey(p, RIGHT))
  {
  }
}
