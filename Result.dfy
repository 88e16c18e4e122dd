/**
 * The result of one parse step and the parser type (`Result.kt`, `Parsers.kt`).
 */
module Results {
  import opened Inputs

  /**
   * `Success` carries the rest of the input and the value; `Failure` and
   * `Error` carry what was expected and where.  `Error` is the escalated kind,
   * produced only by the packrat left-recursion sentinel.
   */
  datatype ParseResult<T, R> =
    | Success(rest: Input<T>, result: R)
    | Failure(expected: string, location: Location)
    | Error(expected: string, location: Location)
  {
    /** The same non-success, at another value type (Kotlin's `Failure` is a `ParseResult<Nothing, Nothing>`). */
    function Propagate<S>(): (r: ParseResult<T, S>)
      requires !Success?
      ensures r.Failure? == Failure? && r.Error? == Error?
      ensures r.expected == expected && r.location == location
    {
      if Failure? then Failure(expected, location) else Error(expected, location)
    }
  }

  /** What an operation that may throw produces: a value, or the exception's message. */
  datatype Outcome<X> = Returned(value: X) | Thrown(message: string)

  /** A value that may be absent (Kotlin's nullable type). */
  datatype Option<X> = None | Some(value: X)

  /** A parser: from an input to a result (`Parser.invoke`). */
  type Parser<!T, R> = Input<T> -> ParseResult<T, R>

  /** Transform a Success's value through `f`; a non-success is kept (`ParseResult.map`). */
  function Map<T, R, S>(r: ParseResult<T, R>, f: R -> S): (m: ParseResult<T, S>)
    ensures m.Success? <==> r.Success?
    ensures r.Success? ==> m.rest == r.rest && m.result == f(r.result)
    ensures !r.Success? ==> m == r.Propagate<S>()
  {
    match r
    case Success(rest, v) => Success(rest, f(v))
    case _ => r.Propagate()
  }

  /** Mapping the identity returns an equal result. */
  lemma MapIdentity<T, R>(r: ParseResult<T, R>)
    ensures Map(r, (x: R) => x) == r
  {
  }

  /** Mapping twice is mapping the composition. */
  lemma MapComposition<T, R, S, U>(r: ParseResult<T, R>, f: R -> S, g: S -> U)
    ensures Map(Map(r, f), g) == Map(r, (x: R) => g(f(x)))
  {
  }

  /**
   * `rest` is `input` moved forward over the same tokens, and stays within
   * them when `input` does.
   */
  ghost predicate Consumes<T>(input: Input<T>, rest: Input<T>)
  {
    rest.tokens == input.tokens && input.offset <= rest.offset &&
    (input.Valid() ==> rest.Valid())
  }

  /** Every Success of `p` only moves the cursor forward. */
  ghost predicate WellBehaved<T(!new), R>(p: Parser<T, R>)
  {
    forall input: Input<T> :: p(input).Success? ==> Consumes(input, p(input).rest)
  }

  /** `rest` is `input` moved forward by at least one token, not past the end. */
  predicate Advances<T(==)>(input: Input<T>, rest: Input<T>)
  {
    rest.tokens == input.tokens && input.offset < rest.offset <= |input.tokens|
  }

  /** Every Success of `p` consumes at least one token (and stays within the tokens). */
  ghost predicate Progressing<T(!new), R>(p: Parser<T, R>)
  {
    forall input: Input<T> :: p(input).Success? ==> Advances(input, p(input).rest)
  }

  lemma ProgressingIsWellBehaved<T(!new), R>(p: Parser<T, R>)
    requires Progressing(p)
    ensures WellBehaved(p)
  {
  }
}
