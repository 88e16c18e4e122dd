/**
 * Parsers that inspect the input without consuming it (`parsers/Lookahead.kt`).
 */
module Lookahead {
  import opened Inputs
  import opened Results
  import opened Combinators

  /** `LookaheadParser.invoke`: the base's value, with the input left where it was. */
  function LookaheadParser<T, A>(base: Parser<T, A>, input: Input<T>): (r: ParseResult<T, A>)
    ensures r.Success? <==> base(input).Success?
    ensures r.Success? ==> r.rest == input && r.result == base(input).result
    ensures !r.Success? ==> r == base(input)
  {
    match base(input)
    case Success(_, v) => Success(input, v)
    case first => first
  }

  function LookaheadP<T, A>(base: Parser<T, A>): Parser<T, A>
  {
    input => LookaheadParser(base, input)
  }

  /**
   * `NotParser.invoke`: succeeds with unit, consuming nothing, exactly when
   * the base fails; a success of the base becomes a Failure expecting
   * `not(<base>)`, where `baseDescription` is how the base prints.
   */
  function NotParser<T, A>(base: Parser<T, A>, baseDescription: string, input: Input<T>): (r: ParseResult<T, ()>)
    ensures r.Success? <==> base(input).Failure?
    ensures r.Success? ==> r.rest == input
    ensures base(input).Success? ==> r == Failure("not(" + baseDescription + ")", input.Loc())
    ensures base(input).Error? ==> r == base(input).Propagate()
  {
    match base(input)
    case Failure(_, _) => Success(input, ())
    case Success(_, _) => Failure("not(" + baseDescription + ")", input.Loc())
    case first => first.Propagate()
  }

  function Not<T, A>(base: Parser<T, A>, baseDescription: string): Parser<T, ()>
  {
    input => NotParser(base, baseDescription, input)
  }

  /** `followedBy`: `this + -lookahead(other)`. */
  function FollowedBy<T, A, B>(p: Parser<T, A>, other: Parser<T, B>): Parser<T, A>
  {
    PlusAnyUnit(p, Ignore(LookaheadP(other)))
  }

  /** `notFollowedBy`: `this + not(other)`. */
  function NotFollowedBy<T, A, B>(p: Parser<T, A>, other: Parser<T, B>, otherDescription: string): Parser<T, A>
  {
    PlusAnyUnit(p, Not(other, otherDescription))
  }

  /**
   * `p followedBy q` succeeds where `p` succeeds and `q` succeeds after it,
   * and then consumes only what `p` consumed; `p notFollowedBy q` succeeds
   * where `p` succeeds and `q` fails after it, again consuming only `p`'s part.
   */
  lemma FollowedByConsumesOnlyFirst<T, A, B>(p: Parser<T, A>, q: Parser<T, B>, desc: string, input: Input<T>)
    ensures FollowedBy(p, q)(input).Success? <==> p(input).Success? && q(p(input).rest).Success?
    ensures FollowedBy(p, q)(input).Success? ==> FollowedBy(p, q)(input) == p(input)
    ensures NotFollowedBy(p, q, desc)(input).Success? <==> p(input).Success? && q(p(input).rest).Failure?
    ensures NotFollowedBy(p, q, desc)(input).Success? ==> NotFollowedBy(p, q, desc)(input) == p(input)
  {
  }

  /** Negating twice checks the base without consuming, and keeps a Failure's kind. */
  lemma NotNot<T, A>(base: Parser<T, A>, d1: string, d2: string, input: Input<T>)
    ensures Not(Not(base, d1), d2)(input).Success? <==> base(input).Success?
    ensures Not(Not(base, d1), d2)(input).Success? ==> Not(Not(base, d1), d2)(input).rest == input
  {
  }

  /** Neither parser ever consumes input. */
  lemma LookaheadNeverConsumes<T(!new), A>(base: Parser<T, A>, desc: string)
    ensures forall input: Input<T> :: LookaheadP(base)(input).Success? ==> LookaheadP(base)(input).rest == input
    ensures forall input: Input<T> :: Not(base, desc)(input).Success? ==> Not(base, desc)(input).rest == input
    ensures WellBehaved(LookaheadP(base)) && WellBehaved(Not(base, desc))
  {
  }
}
