/**
 * Combinators built from other parsers (`parsers/Combinators.kt` and the
 * operator overloads of `parsers/Dsl.kt`).
 *
 * Policy for the two kinds of non-success: a `Failure` may be recovered
 * from by the alternatives (`oneOf`, `or`, `orElse`); an `Error` never is and
 * passes through every combinator unchanged, except `many`, whose loop stops
 * at any non-success.
 */
module Combinators {
  import opened Inputs
  import opened Results
  import opened Basic

  // ---------------------------------------------------------------- zip

  /**
   * `ZipParser.invoke`: `lhv`, then `rhv` on what `lhv` left; the two values
   * combined by `f`.  The first non-success is the result.
   */
  function ZipParser<T, A, B, R>(lhv: Parser<T, A>, rhv: Parser<T, B>, f: (A, B) -> R, input: Input<T>): (r: ParseResult<T, R>)
    ensures r.Success? <==> lhv(input).Success? && rhv(lhv(input).rest).Success?
    ensures r.Success? ==>
              r.rest == rhv(lhv(input).rest).rest &&
              r.result == f(lhv(input).result, rhv(lhv(input).rest).result)
    ensures !lhv(input).Success? ==> r == lhv(input).Propagate()
    ensures lhv(input).Success? && !rhv(lhv(input).rest).Success? ==> r == rhv(lhv(input).rest).Propagate()
  {
    match lhv(input)
    case Success(rest, a) =>
      (match rhv(rest)
       case Success(rest2, b) => Success(rest2, f(a, b))
       case rr => rr.Propagate())
    case lr => lr.Propagate()
  }

  function Zip<T, A, B, R>(lhv: Parser<T, A>, rhv: Parser<T, B>, f: (A, B) -> R): Parser<T, R>
  {
    input => ZipParser(lhv, rhv, f, input)
  }

  /** Zipping keeps the cursor discipline of its parts, and progresses if either part does. */
  lemma ZipWellBehaved<T(!new), A, B, R>(lhv: Parser<T, A>, rhv: Parser<T, B>, f: (A, B) -> R)
    requires WellBehaved(lhv) && WellBehaved(rhv)
    ensures WellBehaved(Zip(lhv, rhv, f))
    ensures Progressing(lhv) || Progressing(rhv) ==> Progressing(Zip(lhv, rhv, f))
  {
    forall input: Input<T> | Zip(lhv, rhv, f)(input).Success?
      ensures Consumes(input, Zip(lhv, rhv, f)(input).rest)
    {
      var lr := lhv(input);
      assert Consumes(input, lr.rest);
      assert Consumes(lr.rest, rhv(lr.rest).rest);
    }
    if Progressing(lhv) || Progressing(rhv) {
      forall input: Input<T> | Zip(lhv, rhv, f)(input).Success?
        ensures Advances(input, Zip(lhv, rhv, f)(input).rest)
      {
        var lr := lhv(input);
        var rr := rhv(lr.rest);
        assert Consumes(input, lr.rest) && Consumes(lr.rest, rr.rest);
        if Progressing(lhv) {
          assert Advances(input, lr.rest);
          assert rr.rest.offset <= |input.tokens|;
        } else {
          assert Advances(lr.rest, rr.rest);
        }
      }
    }
  }

  // ------------------------------------------------------- the `+` overloads

  /** `plus<Any, Any>`: both values, as a two-element list. */
  function PlusAnyAny<T, A>(lhv: Parser<T, A>, rhv: Parser<T, A>): Parser<T, seq<A>>
  {
    Zip(lhv, rhv, (a: A, b: A) => [a, b])
  }

  /** `plus<Unit, Unit>`. */
  function PlusUnitUnit<T>(lhv: Parser<T, ()>, rhv: Parser<T, ()>): Parser<T, ()>
  {
    Zip(lhv, rhv, (a: (), b: ()) => ())
  }

  /** `plus<Unit, Any>`: the right value only. */
  function PlusUnitAny<T, B>(lhv: Parser<T, ()>, rhv: Parser<T, B>): Parser<T, B>
  {
    Zip(lhv, rhv, (a: (), b: B) => b)
  }

  /** `plus<Any, Unit>`: the left value only. */
  function PlusAnyUnit<T, A>(lhv: Parser<T, A>, rhv: Parser<T, ()>): Parser<T, A>
  {
    Zip(lhv, rhv, (a: A, b: ()) => a)
  }

  /** `plus<Collection, Any>`: the right value appended. */
  function PlusCollectionAny<T, A>(lhv: Parser<T, seq<A>>, rhv: Parser<T, A>): Parser<T, seq<A>>
  {
    Zip(lhv, rhv, (a: seq<A>, b: A) => a + [b])
  }

  /** `plus<Any, Collection>`: the left value prepended. */
  function PlusAnyCollection<T, A>(lhv: Parser<T, A>, rhv: Parser<T, seq<A>>): Parser<T, seq<A>>
  {
    Zip(lhv, rhv, (a: A, b: seq<A>) => [a] + b)
  }

  /** `plus<Collection, Collection>`: the two lists concatenated. */
  function PlusCollectionCollection<T, A>(lhv: Parser<T, seq<A>>, rhv: Parser<T, seq<A>>): Parser<T, seq<A>>
  {
    Zip(lhv, rhv, (a: seq<A>, b: seq<A>) => a + b)
  }

  /** `plus<Unit, Collection>`. */
  function PlusUnitCollection<T, A>(lhv: Parser<T, ()>, rhv: Parser<T, seq<A>>): Parser<T, seq<A>>
  {
    Zip(lhv, rhv, (a: (), b: seq<A>) => b)
  }

  /** `plus<Collection, Unit>`. */
  function PlusCollectionUnit<T, A>(lhv: Parser<T, seq<A>>, rhv: Parser<T, ()>): Parser<T, seq<A>>
  {
    Zip(lhv, rhv, (a: seq<A>, b: ()) => a)
  }

  /**
   * What each overload of `+` makes of two successes: the values are kept,
   * appended or dropped according to their kinds, and the rest is the right
   * operand's rest.
   */
  lemma PlusShapes<T, A>(p: Parser<T, A>, q: Parser<T, A>, ps: Parser<T, seq<A>>, qs: Parser<T, seq<A>>,
                         u: Parser<T, ()>, v: Parser<T, ()>, input: Input<T>)
    ensures p(input).Success? && q(p(input).rest).Success? ==>
              PlusAnyAny(p, q)(input) == Success(q(p(input).rest).rest, [p(input).result, q(p(input).rest).result])
    ensures ps(input).Success? && q(ps(input).rest).Success? ==>
              PlusCollectionAny(ps, q)(input) == Success(q(ps(input).rest).rest, ps(input).result + [q(ps(input).rest).result])
    ensures p(input).Success? && qs(p(input).rest).Success? ==>
              PlusAnyCollection(p, qs)(input) == Success(qs(p(input).rest).rest, [p(input).result] + qs(p(input).rest).result)
    ensures ps(input).Success? && qs(ps(input).rest).Success? ==>
              PlusCollectionCollection(ps, qs)(input) == Success(qs(ps(input).rest).rest, ps(input).result + qs(ps(input).rest).result)
    ensures u(input).Success? ==> PlusUnitAny(u, q)(input) == Map(q(u(input).rest), (b: A) => b)
    ensures u(input).Success? ==> PlusUnitCollection(u, qs)(input) == qs(u(input).rest)
    ensures p(input).Success? && v(p(input).rest).Success? ==>
              PlusAnyUnit(p, v)(input) == Success(v(p(input).rest).rest, p(input).result)
    ensures ps(input).Success? && v(ps(input).rest).Success? ==>
              PlusCollectionUnit(ps, v)(input) == Success(v(ps(input).rest).rest, ps(input).result)
    ensures u(input).Success? && v(u(input).rest).Success? ==>
              PlusUnitUnit(u, v)(input) == v(u(input).rest)
  {
    if u(input).Success? {
      var rr := qs(u(input).rest);
      if !rr.Success? {
        assert PlusUnitCollection(u, qs)(input) == rr.Propagate();
      }
      var vr := v(u(input).rest);
      if vr.Success? {
        assert vr.result == ();
      }
    }
  }

  // ----------------------------------------------------------------- sequence

  /** Prepends `acc` to the value of a Success; other results are kept. */
  function PrependAll<T, A>(acc: seq<A>, r: ParseResult<T, seq<A>>): (p: ParseResult<T, seq<A>>)
    ensures p.Success? == r.Success?
    ensures r.Success? ==> p.rest == r.rest && p.result == acc + r.result
    ensures !r.Success? ==> p == r
    ensures acc == [] ==> p == r
  {
    if r.Success? then
      assert acc == [] ==> acc + r.result == r.result;
      r.(result := acc + r.result)
    else r
  }

  /**
   * The intended meaning of `sequence(elements)`: each element in turn on
   * what the previous one left, collecting every value; the first
   * non-success is the result.
   */
  function SequenceParser<T, A>(elements: seq<Parser<T, A>>, input: Input<T>): (r: ParseResult<T, seq<A>>)
    ensures r.Success? ==> |r.result| == |elements|
    decreases |elements|
  {
    if elements == [] then Success(input, [])
    else
      match elements[0](input)
      case Success(rest, v) => PrependAll([v], SequenceParser(elements[1..], rest))
      case first => first.Propagate()
  }

  function Sequence<T, A>(elements: seq<Parser<T, A>>): Parser<T, seq<A>>
  {
    input => SequenceParser(elements, input)
  }

  /**
   * Iterating over the remaining `parsers` with the current result and the
   * values collected so far, as the loop of `SeqParser.invoke` is written:
   * a value is collected only when another parser follows it.
   */
  function SequenceSteps<T, A>(parsers: seq<Parser<T, A>>, current: ParseResult<T, A>, collected: seq<A>): ParseResult<T, seq<A>>
    decreases |parsers|
  {
    if parsers == [] then
      (if current.Success? then Success(current.rest, collected) else current.Propagate())
    else if !current.Success? then current.Propagate()
    else SequenceSteps(parsers[1..], parsers[0](current.rest), collected + [current.result])
  }

  /** `SeqParser.invoke` as written. */
  function SequenceAsWritten<T, A>(elements: seq<Parser<T, A>>, input: Input<T>): ParseResult<T, seq<A>>
  {
    if elements == [] then Success(input, [])
    else SequenceSteps(elements[1..], elements[0](input), [])
  }

  /** The loop of `SeqParser.invoke`, line by line as written. */
  method RunSequenceAsWritten<T, A>(elements: seq<Parser<T, A>>, input: Input<T>) returns (r: ParseResult<T, seq<A>>)
    ensures r == SequenceAsWritten(elements, input)
  {
    if elements == [] {
      return Success(input, []);
    }
    var result: seq<A> := [];
    var currentResult := elements[0](input);
    var i := 1;
    while i < |elements|
      invariant 1 <= i <= |elements|
      invariant SequenceAsWritten(elements, input) == SequenceSteps(elements[i..], currentResult, result)
    {
      assert elements[i..][1..] == elements[i + 1..];
      if !currentResult.Success? {
        return currentResult.Propagate();
      }
      result := result + [currentResult.result];
      currentResult := elements[i](currentResult.rest);
      i := i + 1;
    }
    if currentResult.Success? {
      r := Success(currentResult.rest, result);
    } else {
      r := currentResult.Propagate();
    }
  }

  /**
   * The loop as written succeeds and fails exactly when the intended
   * sequence does, with the same rest and the same non-success, but its
   * list lacks the value of the last element.
   */
  lemma {:induction false} SequenceStepsDropsLast<T, A>(parsers: seq<Parser<T, A>>, current: ParseResult<T, A>, collected: seq<A>)
    ensures var full := if current.Success? then PrependAll(collected + [current.result], SequenceParser(parsers, current.rest))
                        else current.Propagate<seq<A>>();
            var got := SequenceSteps(parsers, current, collected);
            got.Success? == full.Success? &&
            (full.Success? ==> |full.result| > 0 && got.rest == full.rest && got.result == full.result[..|full.result| - 1]) &&
            (!full.Success? ==> got == full)
    decreases |parsers|
  {
    if parsers != [] && current.Success? {
      var next := parsers[0](current.rest);
      SequenceStepsDropsLast(parsers[1..], next, collected + [current.result]);
      if next.Success? && SequenceParser(parsers[1..], next.rest).Success? {
        assert collected + [current.result] + [next.result] + SequenceParser(parsers[1..], next.rest).result
            == collected + [current.result] + ([next.result] + SequenceParser(parsers[1..], next.rest).result);
      }
    }
  }

  lemma SequenceAsWrittenDropsLast<T, A>(elements: seq<Parser<T, A>>, input: Input<T>)
    ensures SequenceAsWritten(elements, input).Success? == SequenceParser(elements, input).Success?
    ensures SequenceParser(elements, input).Success? && elements != [] ==>
              SequenceAsWritten(elements, input).rest == SequenceParser(elements, input).rest &&
              SequenceAsWritten(elements, input).result == SequenceParser(elements, input).result[..|elements| - 1]
    ensures !SequenceParser(elements, input).Success? ==> SequenceAsWritten(elements, input) == SequenceParser(elements, input)
  {
    if elements != [] {
      SequenceStepsDropsLast(elements[1..], elements[0](input), []);
    }
  }

  /** `sequence(success(1), success(2))` as written yields `[1]`, not `[1, 2]`. */
  lemma SequenceAsWrittenLosesValue()
    ensures SequenceAsWritten([Succeed<char, int>(1), Succeed<char, int>(2)], Input("", 0)) == Success(Input("", 0), [1])
    ensures SequenceParser([Succeed<char, int>(1), Succeed<char, int>(2)], Input("", 0)) == Success(Input("", 0), [1, 2])
  {
    var input := Input("", 0);
    var ps := [Succeed<char, int>(1), Succeed<char, int>(2)];
    assert ps[0](input) == Success(input, 1);
    assert ps[1](input) == Success(input, 2);
    assert ps[1..] == [Succeed<char, int>(2)];
    assert ps[1..][1..] == [];
    assert ps[1..][0] == ps[1];
    assert [] + [1] == [1];
    assert SequenceSteps(ps[1..], ps[0](input), []) == SequenceSteps([], ps[1](input), [1]);
    assert SequenceParser(ps[1..], input) == PrependAll([2], SequenceParser([], input));
    assert SequenceParser<char, int>([], input) == Success(input, []);
    assert [2] + [] == [2];
    assert [1] + [2] == [1, 2];
    assert SequenceParser(ps, input) == PrependAll([1], SequenceParser(ps[1..], input));
  }

  /** The loop of `SeqParser.invoke`, with the last value collected as well. */
  method RunSequence<T, A>(elements: seq<Parser<T, A>>, input: Input<T>) returns (r: ParseResult<T, seq<A>>)
    ensures r == SequenceParser(elements, input)
  {
    var result: seq<A> := [];
    var current := input;
    var i := 0;
    while i < |elements|
      invariant 0 <= i <= |elements| && |result| == i
      invariant SequenceParser(elements, input) == PrependAll(result, SequenceParser(elements[i..], current))
    {
      assert elements[i..][1..] == elements[i + 1..];
      var step := elements[i](current);
      if !step.Success? {
        return step.Propagate();
      }
      if SequenceParser(elements[i + 1..], step.rest).Success? {
        assert result + ([step.result] + SequenceParser(elements[i + 1..], step.rest).result)
            == (result + [step.result]) + SequenceParser(elements[i + 1..], step.rest).result;
      }
      result := result + [step.result];
      current := step.rest;
      i := i + 1;
    }
    assert elements[i..] == [];
    assert result + [] == result;
    r := Success(current, result);
  }

  // ------------------------------------------------------------------ choice

  /**
   * `ChoiceParser.invoke` (`oneOf(parsers)`, and `or` of `Dsl.kt`): every
   * element on the same input until one succeeds or raises an Error.  With
   * none it fails with `<empty choice>`; when all fail, the last Failure is
   * the result.
   */
  function ChoiceParser<T, A>(elements: seq<Parser<T, A>>, input: Input<T>): (r: ParseResult<T, A>)
    ensures elements == [] ==> r == Failure("<empty choice>", input.Loc())
    ensures elements != [] ==> exists i :: 0 <= i < |elements| && r == elements[i](input)
    ensures r.Success? ==> exists i :: 0 <= i < |elements| && r == elements[i](input) &&
                             forall j :: 0 <= j < i ==> elements[j](input).Failure?
    ensures (forall i :: 0 <= i < |elements| ==> elements[i](input).Failure?) && elements != [] ==>
              r == elements[|elements| - 1](input)
    ensures (exists i :: 0 <= i < |elements| && elements[i](input).Success? &&
               forall j :: 0 <= j < i ==> elements[j](input).Failure?) ==> r.Success?
    decreases |elements|
  {
    if elements == [] then Failure("<empty choice>", input.Loc())
    else if |elements| == 1 || !elements[0](input).Failure? then elements[0](input)
    else
      var r := ChoiceParser(elements[1..], input);
      assert forall i :: 0 <= i < |elements| - 1 ==> elements[1..][i] == elements[i + 1];
      r
  }

  function Choice<T, A>(elements: seq<Parser<T, A>>): Parser<T, A>
  {
    input => ChoiceParser(elements, input)
  }

  /** The loop of `ChoiceParser.invoke`. */
  method RunChoice<T, A>(elements: seq<Parser<T, A>>, input: Input<T>) returns (r: ParseResult<T, A>)
    ensures r == ChoiceParser(elements, input)
  {
    if elements == [] {
      return Failure("<empty choice>", input.Loc());
    }
    r := elements[0](input);
    var i := 1;
    while i < |elements|
      invariant 1 <= i <= |elements|
      invariant r == elements[i - 1](input)
      invariant ChoiceParser(elements, input) == ChoiceParser(elements[i - 1..], input)
    {
      assert elements[i - 1..][1..] == elements[i..];
      if !r.Failure? {
        return;
      }
      r := elements[i](input);
      i := i + 1;
    }
  }

  /**
   * When every alternative but the `k`-th fails on an input, `oneOf` gives
   * what the `k`-th gives, and fails when it fails.
   */
  lemma {:induction false} ChoiceSingleCandidate<T, A>(elements: seq<Parser<T, A>>, input: Input<T>, k: nat)
    requires k < |elements|
    requires forall i :: 0 <= i < |elements| && i != k ==> elements[i](input).Failure?
    ensures elements[k](input).Failure? ==> ChoiceParser(elements, input).Failure?
    ensures !elements[k](input).Failure? ==> ChoiceParser(elements, input) == elements[k](input)
    decreases k
  {
    if k > 0 {
      assert elements[0](input).Failure?;
      assert forall i :: 0 <= i < |elements| - 1 ==> elements[1..][i] == elements[i + 1];
      ChoiceSingleCandidate(elements[1..], input, k - 1);
    }
  }

  /**
   * `OrParser.invoke` (`or` of `Combinators.kt`): `rhv` on the same input
   * when `lhv` fails.
   */
  function OrParser<T, A>(lhv: Parser<T, A>, rhv: Parser<T, A>, input: Input<T>): (r: ParseResult<T, A>)
    ensures !lhv(input).Failure? ==> r == lhv(input)
    ensures lhv(input).Failure? ==> r == rhv(input)
  {
    var lr := lhv(input);
    if lr.Failure? then
      (match rhv(input)
       case Success(rest, v) => Success(rest, v)
       case Failure(e, loc) => Failure(e, loc)
       case rr => rr)
    else lr
  }

  function Or<T, A>(lhv: Parser<T, A>, rhv: Parser<T, A>): Parser<T, A>
  {
    input => OrParser(lhv, rhv, input)
  }

  /** The two `or`s agree: `OrParser` and the two-element `oneOf` of `Dsl.kt`. */
  lemma OrIsChoice<T, A>(lhv: Parser<T, A>, rhv: Parser<T, A>, input: Input<T>)
    ensures Or(lhv, rhv)(input) == Choice([lhv, rhv])(input)
  {
    assert [lhv, rhv][1..] == [rhv];
  }

  /** `or` is associative, and `fail` is its left unit. */
  lemma OrLaws<T, A>(a: Parser<T, A>, b: Parser<T, A>, c: Parser<T, A>, msg: string, input: Input<T>)
    ensures Or(Or(a, b), c)(input) == Or(a, Or(b, c))(input)
    ensures Or(Fail(msg), a)(input) == a(input)
  {
  }

  // ---------------------------------------------------------------------- map

  /** `MapParser.invoke`: the value of a Success transformed by `f`. */
  function MapParser<T, A, R>(lhv: Parser<T, A>, f: A -> R, input: Input<T>): (r: ParseResult<T, R>)
    ensures r.Success? <==> lhv(input).Success?
    ensures r.Success? ==> r.rest == lhv(input).rest && r.result == f(lhv(input).result)
    ensures !r.Success? ==> r == lhv(input).Propagate()
  {
    Map(lhv(input), f)
  }

  function MapP<T, A, R>(lhv: Parser<T, A>, f: A -> R): Parser<T, R>
  {
    input => MapParser(lhv, f, input)
  }

  /** `unaryMinus`: the value replaced by unit. */
  function Ignore<T, A>(p: Parser<T, A>): Parser<T, ()>
  {
    MapP(p, (a: A) => ())
  }

  /** `-p` consumes exactly what `p` consumes, succeeds when it does, and keeps any non-success. */
  lemma IgnoreKeepsConsumption<T, A>(p: Parser<T, A>, input: Input<T>)
    ensures Ignore(p)(input) == if p(input).Success? then Success(p(input).rest, ()) else p(input).Propagate()
  {
  }

  /** Mapping a parser twice is mapping it once with the composition. */
  lemma MapParserFuses<T, A, B, C>(p: Parser<T, A>, f: A -> B, g: B -> C, input: Input<T>)
    ensures MapP(MapP(p, f), g)(input) == MapP(p, (a: A) => g(f(a)))(input)
  {
  }

  lemma MapWellBehaved<T(!new), A, R>(p: Parser<T, A>, f: A -> R)
    ensures WellBehaved(p) ==> WellBehaved(MapP(p, f))
    ensures Progressing(p) ==> Progressing(MapP(p, f))
  {
  }

  // ---------------------------------------------------------- orElse / orNot

  /** `AltParser.invoke`: on a Failure, the default value with nothing consumed. */
  function AltParser<T, A>(element: Parser<T, A>, default: A, input: Input<T>): (r: ParseResult<T, A>)
    ensures element(input).Failure? ==> r == Success(input, default)
    ensures !element(input).Failure? ==> r == element(input)
    ensures !element(input).Error? ==> r.Success?
  {
    match element(input)
    case Failure(_, _) => Success(input, default)
    case base => base
  }

  function OrElse<T, A>(element: Parser<T, A>, default: A): Parser<T, A>
  {
    input => AltParser(element, default, input)
  }

  /** `orNot`: the value if the element succeeds, `null` (here `None`) if it fails. */
  function OrNot<T, A>(element: Parser<T, A>): Parser<T, Option<A>>
  {
    OrElse(MapP(element, (a: A) => Some(a)), None)
  }

  /** `orElse(d)` is `or(success(d))`. */
  lemma OrElseIsOrSuccess<T, A>(p: Parser<T, A>, d: A, input: Input<T>)
    ensures OrElse(p, d)(input) == Or(p, Succeed(d))(input)
  {
  }

  // --------------------------------------------------------------------- many

  /**
   * `ManyParser.invoke`: the element as often as it succeeds, each time on
   * what the previous success left; always a Success.  A success that does
   * not advance would make the Kotlin loop run forever; the model
   * stops there (see `RunMany`, which requires a progressing element).
   */
  function ManyParser<T(==), A>(element: Parser<T, A>, input: Input<T>): (r: ParseResult<T, seq<A>>)
    ensures r.Success?
    ensures r.rest.tokens == input.tokens && input.offset <= r.rest.offset
    ensures r.rest.offset == input.offset <==> r.result == []
    ensures r.result != [] ==> r.rest.offset <= |input.tokens|
    ensures |r.result| <= r.rest.offset - input.offset
    ensures !(element(r.rest).Success? && Advances(r.rest, element(r.rest).rest))
    decreases |input.tokens| - input.offset
  {
    var first := element(input);
    if first.Success? && Advances(input, first.rest) then
      PrependAll([first.result], ManyParser(element, first.rest))
    else Success(input, [])
  }

  function Many<T(==), A>(element: Parser<T, A>): Parser<T, seq<A>>
  {
    input => ManyParser(element, input)
  }

  /** The loop of `ManyParser.invoke`; it terminates because the element progresses. */
  method RunMany<T(==,!new), A>(element: Parser<T, A>, input: Input<T>) returns (r: ParseResult<T, seq<A>>)
    requires Progressing(element)
    ensures r == ManyParser(element, input)
  {
    var curInput := input;
    var res := element(curInput);
    var col: seq<A> := [];
    while res.Success?
      invariant res == element(curInput)
      invariant ManyParser(element, input) == PrependAll(col, ManyParser(element, curInput))
      decreases |curInput.tokens| - curInput.offset
    {
      assert Advances(curInput, res.rest);
      assert col + ([res.result] + ManyParser(element, res.rest).result)
          == (col + [res.result]) + ManyParser(element, res.rest).result;
      col := col + [res.result];
      curInput := res.rest;
      res := element(curInput);
    }
    assert col + [] == col;
    r := Success(curInput, col);
  }

  /** Each collected value is the element's value at the point reached by the ones before it. */
  lemma {:induction false} ManyCollectsSuccesses<T, A>(element: Parser<T, A>, input: Input<T>)
    ensures var r := ManyParser(element, input);
            r.result == [] || (element(input).Success? && r.result[0] == element(input).result &&
                               r.result[1..] == ManyParser(element, element(input).rest).result &&
                               r.rest == ManyParser(element, element(input).rest).rest)
  {
  }

  /** `many` applied where it stopped matches nothing more. */
  lemma ManyIsMaximal<T, A>(element: Parser<T, A>, input: Input<T>)
    ensures ManyParser(element, ManyParser(element, input).rest) == Success(ManyParser(element, input).rest, [])
  {
  }

  /** `manyOne`: at least one element. */
  function ManyOne<T(==), A>(element: Parser<T, A>): Parser<T, seq<A>>
  {
    PlusAnyCollection(element, Many(element))
  }

  /**
   * For a progressing element, `manyOne` succeeds exactly when the element
   * does, and then agrees with `many`.
   */
  lemma ManyOneIsNonEmptyMany<T(!new), A>(element: Parser<T, A>, input: Input<T>)
    requires Progressing(element)
    ensures ManyOne(element)(input).Success? <==> element(input).Success?
    ensures ManyOne(element)(input).Success? ==>
              ManyOne(element)(input) == Many(element)(input) && ManyOne(element)(input).result != []
    ensures !element(input).Success? ==> ManyOne(element)(input) == element(input).Propagate()
  {
  }

  lemma ManyWellBehaved<T(!new), A>(element: Parser<T, A>)
    ensures WellBehaved(Many(element))
  {
    forall input: Input<T> ensures Consumes(input, Many(element)(input).rest)
    {
      var r := ManyParser(element, input);
      if r.result != [] {
        assert r.rest.Valid();
      }
    }
  }

  /** `joinedBy` with a unit separator: `p + (sep + p).many()`. */
  function JoinedBy<T(==), A>(p: Parser<T, A>, sep: Parser<T, ()>): Parser<T, seq<A>>
  {
    PlusAnyCollection(p, Many(PlusUnitAny(sep, p)))
  }

  /** Concatenation of a list of lists (`flatten`). */
  function Flatten<A>(xss: seq<seq<A>>): seq<A>
  {
    if xss == [] then [] else xss[0] + Flatten(xss[1..])
  }

  /** `joinedBy` with a separator of the element type: separators are kept in the list. */
  function JoinedByUniform<T(==), A>(p: Parser<T, A>, sep: Parser<T, A>): Parser<T, seq<A>>
  {
    PlusAnyCollection(p, MapP(Many(PlusAnyAny(sep, p)), Flatten))
  }

  /**
   * A joined list succeeds exactly when its first element does; with a unit
   * separator it holds one value per element.
   */
  lemma JoinedByShape<T, A>(p: Parser<T, A>, sep: Parser<T, ()>, usep: Parser<T, A>, input: Input<T>)
    ensures JoinedBy(p, sep)(input).Success? <==> p(input).Success?
    ensures JoinedByUniform(p, usep)(input).Success? <==> p(input).Success?
    ensures p(input).Success? ==>
              JoinedBy(p, sep)(input).result ==
              [p(input).result] + ManyParser(PlusUnitAny(sep, p), p(input).rest).result
    ensures p(input).Success? ==>
              |JoinedByUniform(p, usep)(input).result| == 1 + 2 * |ManyParser(PlusAnyAny(usep, p), p(input).rest).result|
  {
    if p(input).Success? {
      FlattenPairs(ManyParser(PlusAnyAny(usep, p), p(input).rest).result, usep, p, p(input).rest);
    }
  }

  /** Every value `many(sep + p)` collects is a two-element list, so the flattened list is twice as long. */
  lemma {:induction false} FlattenPairs<T, A>(pairs: seq<seq<A>>, usep: Parser<T, A>, p: Parser<T, A>, input: Input<T>)
    requires pairs == ManyParser(PlusAnyAny(usep, p), input).result
    ensures |Flatten(pairs)| == 2 * |pairs|
    decreases |input.tokens| - input.offset
  {
    var first := PlusAnyAny(usep, p)(input);
    if pairs != [] {
      ManyCollectsSuccesses(PlusAnyAny(usep, p), input);
      assert |pairs[0]| == 2;
      assert Advances(input, first.rest);
      FlattenPairs(pairs[1..], usep, p, first.rest);
    }
  }

  // -------------------------------------------------------------------- chain

  /** `ChainParser.invoke`: the parser chosen by the first value runs on what the first left. */
  function ChainParser<T, A, B>(base: Parser<T, A>, next: A -> Parser<T, B>, input: Input<T>): (r: ParseResult<T, B>)
    ensures base(input).Success? ==> r == next(base(input).result)(base(input).rest)
    ensures !base(input).Success? ==> r == base(input).Propagate()
  {
    match base(input)
    case Success(rest, a) => next(a)(rest)
    case first => first.Propagate()
  }

  function Chain<T, A, B>(base: Parser<T, A>, next: A -> Parser<T, B>): Parser<T, B>
  {
    input => ChainParser(base, next, input)
  }

  /** `flatten` of a parser returning parsers. */
  function FlattenParser<T, A>(p: Parser<T, Parser<T, A>>): Parser<T, A>
  {
    Chain(p, (q: Parser<T, A>) => q)
  }

  /** `chain` and `success` form a monad: the two unit laws and associativity. */
  lemma ChainMonadLaws<T, A, B, C>(a: A, k: A -> Parser<T, B>, p: Parser<T, A>, h: B -> Parser<T, C>, input: Input<T>)
    ensures Chain(Succeed(a), k)(input) == k(a)(input)
    ensures Chain(p, (x: A) => Succeed(x))(input) == p(input)
    ensures Chain(Chain(p, k), h)(input) == Chain(p, (x: A) => Chain(k(x), h))(input)
  {
  }

  /** `zip` is `chain` followed by `map`. */
  lemma ZipIsChain<T, A, B, R>(lhv: Parser<T, A>, rhv: Parser<T, B>, f: (A, B) -> R, input: Input<T>)
    ensures Zip(lhv, rhv, f)(input) == Chain(lhv, (a: A) => MapP(rhv, (b: B) => f(a, b)))(input)
  {
  }
}
