/**
 * Primitive parsers: no sub-parsers of their own (`parsers/Basic.kt`).
 * Each Kotlin parser class's `invoke` is a function of the input; the
 * lower-case factory of the Kotlin code is the function returning that parser.
 */
module Basic {
  import opened Inputs
  import opened Results
  import opened Strings

  /** `SuccessParser.invoke`: the value, nothing consumed, on every input. */
  function SuccessParser<T, R>(result: R, input: Input<T>): (r: ParseResult<T, R>)
    ensures r.Success? && r.rest == input && r.result == result
  {
    Success(input, result)
  }

  function Succeed<T, R>(result: R): Parser<T, R>
  {
    input => SuccessParser(result, input)
  }

  /** `ErrorParser.invoke`: a Failure with the message, at the input's location. */
  function ErrorParser<T, R>(error: string, input: Input<T>): (r: ParseResult<T, R>)
    ensures r == Failure(error, input.Loc())
  {
    Failure(error, input.Loc())
  }

  function Fail<T, R>(error: string): Parser<T, R>
  {
    input => ErrorParser(error, input)
  }

  /**
   * `NamedParser.invoke`: a Success passes unchanged; a Failure keeps its
   * location and expects `name` instead; an Error passes unchanged.
   */
  function NamedParser<T, R>(name: string, inner: Parser<T, R>, input: Input<T>): (r: ParseResult<T, R>)
    ensures inner(input).Success? ==> r == inner(input)
    ensures inner(input).Failure? ==> r == Failure(name, inner(input).location)
    ensures inner(input).Error? ==> r == inner(input)
  {
    var parse := inner(input);
    match parse
    case Failure(_, loc) => Failure(name, loc)
    case _ => parse
  }

  function Named<T, R>(inner: Parser<T, R>, name: string): Parser<T, R>
  {
    input => NamedParser(name, inner, input)
  }

  /**
   * `ConstantParser.invoke`: succeeds iff the remaining input starts with `c`,
   * returning `c` and consuming `|c|` characters; otherwise fails with the
   * quoted constant, consuming nothing.
   */
  function ConstantParser(c: string, input: Input<char>): (r: ParseResult<char, string>)
    ensures r.Success? <==> c <= input.Source()
    ensures r.Success? ==> r.result == c && r.rest == input.Drop(|c|)
    ensures !r.Success? ==> r == Failure("\"" + c + "\"", input.Loc())
  {
    if c <= input.Source() then Success(input.Drop(|c|), c)
    else Failure("\"" + c + "\"", input.Loc())
  }

  function Constant(c: string): Parser<char, string>
  {
    input => ConstantParser(c, input)
  }

  /** What a successful constant leaves is exactly the input with `c` cut off its front. */
  lemma ConstantSplitsSource(c: string, input: Input<char>)
    requires ConstantParser(c, input).Success?
    ensures input.Source() == c + ConstantParser(c, input).rest.Source()
    ensures input.Valid() ==> ConstantParser(c, input).rest.Valid()
  {
    var rest := ConstantParser(c, input).rest;
    if input.Valid() {
      assert input.Source() == input.tokens[input.offset..];
      assert rest.Source() == input.tokens[input.offset + |c|..];
      assert input.tokens[input.offset..] == input.tokens[input.offset..input.offset + |c|] + input.tokens[input.offset + |c|..];
    } else {
      assert c == [];
    }
  }

  /**
   * `TokenParser.invoke`: succeeds iff a first token exists and passes `test`;
   * it then returns that token and consumes exactly one.
   */
  function TokenParser<T>(testDescription: string, test: T -> bool, input: Input<T>): (r: ParseResult<T, T>)
    ensures r.Success? <==> |input.Source()| > 0 && test(input.Source()[0])
    ensures r.Success? ==> r.result == input.Source()[0] && r.rest == input.Next()
    ensures !r.Success? ==> r == Failure(testDescription, input.Loc())
  {
    var source := input.Source();
    if |source| > 0 && test(source[0]) then Success(input.Next(), source[0])
    else Failure(testDescription, input.Loc())
  }

  function Token<T>(testDescription: string, test: T -> bool): Parser<T, T>
  {
    input => TokenParser(testDescription, test, input)
  }

  /** `char(ch)`: exactly the character `ch`. */
  function Char(ch: char): Parser<char, char>
  {
    Token("'" + [ch] + "'", (c: char) => c == ch)
  }

  /** `char(predicate)`. */
  function CharWhere(test: char -> bool): Parser<char, char>
  {
    Token("#predicate#", test)
  }

  /** `anyChar()`. */
  function AnyChar(): Parser<char, char>
  {
    Token("any character", (c: char) => true)
  }

  /** `range(lo..hi)` on characters; described as Kotlin prints a `CharRange`. */
  function CharRange(lo: char, hi: char): Parser<char, char>
  {
    Token([lo] + ".." + [hi], (c: char) => lo <= c <= hi)
  }

  /** `oneOf(chars)` on a string of characters. */
  function OneOfChars(chars: string): Parser<char, char>
  {
    Token("oneOf(\"" + chars + "\")", (c: char) => c in chars)
  }

  /** `token(t)`: exactly `t`; `shown` is how `t` prints. */
  function TokenEq<T(==)>(t: T, shown: string): Parser<T, T>
  {
    Token("'" + shown + "'", (x: T) => x == t)
  }

  /** `anyToken()`. */
  function AnyToken<T>(): Parser<T, T>
  {
    Token("any token", (x: T) => true)
  }

  /** `range(lo..hi)` on integer tokens. */
  function IntRange(lo: int, hi: int): Parser<int, int>
  {
    Token(IntToString(lo) + ".." + IntToString(hi), (x: int) => lo <= x <= hi)
  }

  /** `oneOf(collection)`; `shown` is how the collection prints joined. */
  function OneOfTokens<T(==)>(ts: seq<T>, shown: string): Parser<T, T>
  {
    Token("oneOf(" + shown + ")", (x: T) => x in ts)
  }

  /** The sanity checks of the token parsers on lists of integers and on strings. */
  lemma TokenExamples()
    ensures IntRange(3, 8)(Input([4, 15, 23], 0)) == Success(Input([4, 15, 23], 1), 4)
    ensures IntRange(3, 8)(Input([9], 0)).Failure?
    ensures OneOfChars("01234")(Input("4", 0)) == Success(Input("4", 1), '4')
    ensures OneOfChars("01234")(Input("9", 0)).Failure?
    ensures Char('a')(Input("aa", 0)).Success? && Char('a')(Input("aa", 0)).result == 'a'
    ensures Char('b')(Input("aaa", 0)).Failure?
    ensures TokenEq(1, "1")(Input([9, 8, 7], 0)).Failure?
  {
  }

  /** `EofParser.invoke`: succeeds with unit, consuming nothing, iff no input remains. */
  function EofParser<T>(input: Input<T>): (r: ParseResult<T, ()>)
    ensures r.Success? <==> input.Source() == []
    ensures r.Success? ==> r.rest == input
    ensures !r.Success? ==> r == Failure("<EOF>", input.Loc())
  {
    if input.Source() == [] then Success(input, ()) else Failure("<EOF>", input.Loc())
  }

  function Eof<T>(): Parser<T, ()>
  {
    input => EofParser(input)
  }

  /** None of the primitives moves the cursor backward or off the tokens. */
  lemma PrimitivesWellBehaved<T(!new), R>(v: R, msg: string, desc: string, test: T -> bool)
    ensures WellBehaved(Succeed<T, R>(v))
    ensures WellBehaved(Fail<T, R>(msg))
    ensures WellBehaved(Eof<T>())
    ensures Progressing(Token(desc, test))
  {
  }

  lemma ConstantWellBehaved(c: string)
    ensures WellBehaved(Constant(c))
    ensures c != [] ==> Progressing(Constant(c))
  {
    forall input: Input<char> | Constant(c)(input).Success?
      ensures Consumes(input, Constant(c)(input).rest)
      ensures c != [] ==> input.offset < Constant(c)(input).rest.offset <= |input.tokens|
    {
      ConstantSplitsSource(c, input);
    }
  }

  lemma NamedWellBehaved<T(!new), R>(inner: Parser<T, R>, name: string)
    ensures WellBehaved(inner) ==> WellBehaved(Named(inner, name))
    ensures Progressing(inner) ==> Progressing(Named(inner, name))
  {
  }
}
