/**
 * Parsers for common literals (`parsers/Literals.kt`): digits, the integer
 * literals that `Literals.kt` reads with a digit-class regular expression, the
 * boolean literal, character escapes and the JSON-like string literal.
 *
 * Kotlin characters are UTF-16 code units; the values these parsers decode
 * are given as code-unit numbers (`toChar()` keeps the low 16 bits).
 */
module Literals {
  import opened Inputs
  import opened Results
  import opened Basic
  import opened Combinators
  import Strings

  // ------------------------------------------------------------------ digits

  predicate IsOctDigit(c: char) { '0' <= c <= '7' }
  predicate IsDecDigit(c: char) { '0' <= c <= '9' }
  predicate IsHexDigit(c: char) { IsDecDigit(c) || 'A' <= c <= 'F' || 'a' <= c <= 'f' }

  /**
   * The value of a hexadecimal digit of either case (`it - '0'`,
   * `it - 'A' + 10`, `it - 'a' + 10`); other characters count 0, and no
   * scan below ever passes one.
   */
  function DigitValue(c: char): (v: int)
    ensures 0 <= v < 16
    ensures IsHexDigit(c) ==> (v < 10 <==> IsDecDigit(c)) && (v < 8 <==> IsOctDigit(c))
  {
    if IsDecDigit(c) then c as int - '0' as int
    else if 'A' <= c <= 'F' then c as int - 'A' as int + 10
    else if 'a' <= c <= 'f' then c as int - 'a' as int + 10
    else 0
  }

  /** The lower-case digit for a value below 16. */
  function LowerHexDigit(d: int): (c: char)
    requires 0 <= d < 16
    ensures IsHexDigit(c)
  {
    if d < 10 then (d + '0' as int) as char else (d - 10 + 'a' as int) as char
  }

  /**
   * Digit values and digits are inverse: every value below 16 has a digit,
   * and the upper- and lower-case forms of a letter digit have one value.
   */
  lemma DigitValueInverse(d: int, c: char)
    requires 0 <= d < 16
    ensures DigitValue(LowerHexDigit(d)) == d
    ensures IsHexDigit(c) && !('A' <= c <= 'F') ==> LowerHexDigit(DigitValue(c)) == c
    ensures 'A' <= c <= 'F' ==> DigitValue(c) == DigitValue((c as int - 'A' as int + 'a' as int) as char)
  {
  }

  /** `OCT_DIGIT`: `range('0'..'7').map { it - '0' }`. */
  function OctDigit(): Parser<char, int>
  {
    MapP(CharRange('0', '7'), (c: char) => c as int - '0' as int)
  }

  /** `DEC_DIGIT`: `range('0'..'9').map { it - '0' }`. */
  function DecDigit(): Parser<char, int>
  {
    MapP(CharRange('0', '9'), (c: char) => c as int - '0' as int)
  }

  /** `HEX_DIGIT`: a decimal digit, or an upper-case, or a lower-case letter digit. */
  function HexDigit(): Parser<char, int>
  {
    Or(Or(DecDigit(), MapP(CharRange('A', 'F'), (c: char) => c as int - 'A' as int + 10)),
       MapP(CharRange('a', 'f'), (c: char) => c as int - 'a' as int + 10))
  }

  /**
   * A parser that reads one digit of the class `isDigit`: it succeeds
   * exactly on a first character of the class, with that digit's value,
   * consuming it, and otherwise fails.
   */
  ghost predicate ReadsDigit(element: Parser<char, int>, isDigit: char -> bool)
  {
    forall input: Input<char> ::
      (element(input).Success? <==> |input.Source()| > 0 && isDigit(input.Source()[0])) &&
      (element(input).Success? ==> element(input) == Success(input.Next(), DigitValue(input.Source()[0]))) &&
      (!element(input).Success? ==> element(input).Failure?)
  }

  /** Each digit parser reads exactly its class, with the class's digit values. */
  lemma DigitParsersRead()
    ensures ReadsDigit(OctDigit(), IsOctDigit)
    ensures ReadsDigit(DecDigit(), IsDecDigit)
    ensures ReadsDigit(HexDigit(), IsHexDigit)
  {
    OctDigitReads();
    HexDigitReads();
  }

  // ------------------------------------------------------- bounded repetition

  /**
   * `element * (lo..hi)`: the element up to `hi` times, each on what the
   * previous one left, succeeding when it matched at least `lo` times; the
   * non-success that stopped it early is the result otherwise.  The class
   * behind this operator is not part of this model; this is the meaning its
   * uses here rely on.
   */
  function RepeatParser<T, A>(element: Parser<T, A>, lo: nat, hi: nat, input: Input<T>): (r: ParseResult<T, seq<A>>)
    ensures r.Success? ==> |r.result| <= hi && (lo <= hi ==> lo <= |r.result|)
    decreases hi
  {
    if hi == 0 then Success(input, [])
    else
      match element(input)
      case Success(rest, v) => PrependAll([v], RepeatParser(element, if lo == 0 then 0 else lo - 1, hi - 1, rest))
      case stop => if lo == 0 then Success(input, []) else stop.Propagate()
  }

  function Repeat<T, A>(element: Parser<T, A>, lo: nat, hi: nat): Parser<T, seq<A>>
  {
    input => RepeatParser(element, lo, hi, input)
  }

  /** How many characters of class `isDigit` start `s`, counting at most `max`. */
  function LeadingRun(s: string, isDigit: char -> bool, max: nat): (n: nat)
    ensures n <= max && n <= |s|
    ensures forall i :: 0 <= i < n ==> isDigit(s[i])
    ensures n < max && n < |s| ==> !isDigit(s[n])
    decreases max
  {
    if max == 0 || |s| == 0 || !isDigit(s[0]) then 0
    else 1 + LeadingRun(s[1..], isDigit, max - 1)
  }

  /** The values of a run of digits. */
  function DigitValues(w: string): (vs: seq<int>)
    ensures |vs| == |w|
  {
    seq(|w|, i requires 0 <= i < |w| => DigitValue(w[i]))
  }

  /** What is left after `k` more characters of an input. */
  lemma SourceDrop<T>(input: Input<T>, k: nat)
    ensures input.Drop(k).Source() == if k <= |input.Source()| then input.Source()[k..] else []
  {
    if input.Valid() && k <= |input.Source()| {
      assert input.Source()[k..] == input.tokens[input.offset + k..];
    }
  }

  /**
   * What repeating a digit reader does: it reads the longest run of the
   * class, up to `hi` digits, and succeeds when that run has at least `lo`
   * digits; otherwise it fails.
   */
  ghost predicate RepeatReadsRun(element: Parser<char, int>, isDigit: char -> bool, lo: nat, hi: nat, input: Input<char>)
  {
    var n := LeadingRun(input.Source(), isDigit, hi);
    var r := RepeatParser(element, lo, hi, input);
    (r.Success? <==> lo <= n) &&
    (r.Success? ==> r.result == DigitValues(input.Source()[..n]) && r.rest == input.Drop(n)) &&
    (!r.Success? ==> r.Failure?)
  }

  /** One digit read, then the rest of the run. */
  lemma RepeatReadsRunStep(element: Parser<char, int>, isDigit: char -> bool, lo: nat, hi: nat, input: Input<char>)
    requires lo <= hi && hi > 0
    requires |input.Source()| > 0 && isDigit(input.Source()[0])
    requires element(input) == Success(input.Next(), DigitValue(input.Source()[0]))
    requires RepeatReadsRun(element, isDigit, if lo == 0 then 0 else lo - 1, hi - 1, input.Next())
    ensures RepeatReadsRun(element, isDigit, lo, hi, input)
  {
    var s := input.Source();
    var n := LeadingRun(s, isDigit, hi);
    var lo' := if lo == 0 then 0 else lo - 1;
    SourceDrop(input, 1);
    var t := input.Next().Source();
    assert t == s[1..];
    assert n == 1 + LeadingRun(t, isDigit, hi - 1);
    var r' := RepeatParser(element, lo', hi - 1, input.Next());
    assert RepeatParser(element, lo, hi, input) == PrependAll([DigitValue(s[0])], r');
    if r'.Success? {
      assert s[..n] == [s[0]] + t[..n - 1];
      assert DigitValues(s[..n]) == [DigitValue(s[0])] + DigitValues(t[..n - 1]);
      assert input.Next().Drop(n - 1) == input.Drop(n);
    }
  }

  /** Repeating any digit reader reads the run of its class. */
  lemma {:induction false} RepeatReadsDigits(element: Parser<char, int>, isDigit: char -> bool, lo: nat, hi: nat, input: Input<char>)
    requires ReadsDigit(element, isDigit)
    requires lo <= hi
    ensures RepeatReadsRun(element, isDigit, lo, hi, input)
    decreases hi
  {
    var e := element(input);
    if hi > 0 && e.Success? {
      RepeatReadsDigits(element, isDigit, if lo == 0 then 0 else lo - 1, hi - 1, input.Next());
      RepeatReadsRunStep(element, isDigit, lo, hi, input);
    } else {
      RepeatReadsRunStop(element, isDigit, lo, hi, input);
    }
  }

  /** No digit to read, or no more wanted: the run is empty. */
  lemma RepeatReadsRunStop(element: Parser<char, int>, isDigit: char -> bool, lo: nat, hi: nat, input: Input<char>)
    requires lo <= hi
    requires hi == 0 || (element(input).Failure? && !(|input.Source()| > 0 && isDigit(input.Source()[0])))
    ensures RepeatReadsRun(element, isDigit, lo, hi, input)
  {
    assert input.Source()[..0] == [];
  }

  // ------------------------------------------------- integer literal patterns

  /**
   * The digit-class regular expressions behind the integer literals: the
   * plain `DECIMAL`, `OCTAL`, `HEXADECIMAL` and the C-like forms that make
   * up `CINTEGER`.
   */
  datatype Pattern = Decimal | Octal | Hexadecimal | CDecimal | COctal | CHexadecimal
  {
    /** The regular expression as `Literals.kt` writes it (and as it prints). */
    function Text(): string
    {
      match this
      case Decimal => "[0-9]+"
      case Octal => "[0-7]+"
      case Hexadecimal => "[0-9a-fA-F]+"
      case CDecimal => "[1-9][0-9]*"
      case COctal => "0[0-7]*"
      case CHexadecimal => "0[xX][0-9a-fA-F]+"
    }

    /** The name the literal parser is given with `named`. */
    function Name(): string
    {
      match this
      case Decimal | CDecimal => "Decimal"
      case Octal | COctal => "Octal"
      case Hexadecimal | CHexadecimal => "Hexadecimal"
    }

    /** The radix passed to `toLong`. */
    function Radix(): int
    {
      match this
      case Decimal | CDecimal => 10
      case Octal | COctal => 8
      case Hexadecimal | CHexadecimal => 16
    }

    /** The class repeated at the end of the expression. */
    function Digit(): char -> bool
    {
      match this
      case Decimal | CDecimal => IsDecDigit
      case Octal | COctal => IsOctDigit
      case Hexadecimal | CHexadecimal => IsHexDigit
    }

    /** How many single characters come before the repeated class. */
    function PrefixLength(): nat
    {
      match this
      case CDecimal | COctal => 1
      case CHexadecimal => 2
      case _ => 0
    }

    /** Whether the repeated class is `+` (at least one) rather than `*`. */
    function MinDigits(): nat
    {
      match this
      case CDecimal | COctal => 0
      case _ => 1
    }

    /** The characters before the repeated class are `[1-9]`, `0` or `0[xX]`. */
    predicate PrefixMatches(w: string)
      requires |w| >= PrefixLength()
    {
      match this
      case CDecimal => '1' <= w[0] <= '9'
      case COctal => w[0] == '0'
      case CHexadecimal => w[0] == '0' && (w[1] == 'x' || w[1] == 'X')
      case _ => true
    }

    /** `w` is a word of the expression's language. */
    predicate Matches(w: string)
    {
      |w| >= PrefixLength() + MinDigits() && PrefixMatches(w) &&
      forall i :: PrefixLength() <= i < |w| ==> Digit()(w[i])
    }

    /**
     * `Matcher.lookingAt` with greedy repetition: the length of the match at
     * the start of `s`, if there is one.
     */
    function LookingAt(s: string): (m: Option<nat>)
      ensures m.Some? ==> m.value <= |s|
    {
      var k := PrefixLength();
      if |s| < k || !PrefixMatches(s) then None
      else
        var n := LeadingRun(s[k..], Digit(), |s| - k);
        if n < MinDigits() then None else Some(k + n)
    }

    /** Where the digits that `toLong` reads start (`drop(2)` for `0x`). */
    function ValueStart(): nat
    {
      if this == CHexadecimal then 2 else 0
    }
  }

  /**
   * The match that `lookingAt` reports is the longest prefix of `s` in the
   * language; when it reports none, no prefix is in the language.
   */
  lemma LookingAtIsLongestMatch(p: Pattern, s: string)
    ensures p.LookingAt(s).Some? ==>
              p.Matches(s[..p.LookingAt(s).value]) &&
              forall k :: p.LookingAt(s).value < k <= |s| ==> !p.Matches(s[..k])
    ensures p.LookingAt(s).None? ==> forall k :: 0 <= k <= |s| ==> !p.Matches(s[..k])
  {
    var pl := p.PrefixLength();
    if |s| >= pl && p.PrefixMatches(s) {
      var n := LeadingRun(s[pl..], p.Digit(), |s| - pl);
      RunEndStopsMatches(p, s, n);
      if n >= p.MinDigits() {
        RunMatches(p, s, n);
      }
    } else {
      NoPrefixNoMatch(p, s);
    }
  }

  /** No prefix reaching past the run of digits is in the language. */
  lemma RunEndStopsMatches(p: Pattern, s: string, n: nat)
    requires |s| >= p.PrefixLength() && p.PrefixMatches(s)
    requires n == LeadingRun(s[p.PrefixLength()..], p.Digit(), |s| - p.PrefixLength())
    ensures forall k :: p.PrefixLength() + n < k <= |s| ==> !p.Matches(s[..k])
  {
    var pl := p.PrefixLength();
    forall k | pl + n < k <= |s|
      ensures !p.Matches(s[..k])
    {
      assert s[..k][pl + n] == s[pl..][n];
    }
  }

  /** The prefix up to the end of a long enough run is in the language. */
  lemma RunMatches(p: Pattern, s: string, n: nat)
    requires |s| >= p.PrefixLength() && p.PrefixMatches(s)
    requires n == LeadingRun(s[p.PrefixLength()..], p.Digit(), |s| - p.PrefixLength())
    requires n >= p.MinDigits()
    ensures p.Matches(s[..p.PrefixLength() + n])
  {
    var pl := p.PrefixLength();
    var w := s[..pl + n];
    forall i | pl <= i < |w|
      ensures p.Digit()(w[i])
    {
      assert w[i] == s[pl..][i - pl];
    }
    assert pl > 0 ==> w[0] == s[0];
    assert pl > 1 ==> w[1] == s[1];
  }

  /** Without the prefix characters, no prefix of `s` is in the language. */
  lemma NoPrefixNoMatch(p: Pattern, s: string)
    requires !(|s| >= p.PrefixLength() && p.PrefixMatches(s))
    ensures forall k :: 0 <= k <= |s| ==> !p.Matches(s[..k])
  {
    var pl := p.PrefixLength();
    forall k | 0 <= k <= |s|
      ensures !p.Matches(s[..k])
    {
      if k >= pl {
        assert p.PrefixMatches(s[..k]) == p.PrefixMatches(s);
      }
    }
  }

  /** `toLong(radix)` of a digit string: Horner evaluation from the left. */
  function ValueIn(radix: int, w: string): (v: int)
    requires 2 <= radix
    ensures 0 <= v
    decreases |w|
  {
    if w == [] then 0 else ValueIn(radix, w[..|w| - 1]) * radix + DigitValue(w[|w| - 1])
  }

  /** The value of a matched literal. */
  function Value(p: Pattern, w: string): int
  {
    if |w| < p.ValueStart() then 0 else ValueIn(p.Radix(), w[p.ValueStart()..])
  }

  /** `RegexParser.invoke` for one of the digit-class expressions. */
  function RegexParser(p: Pattern, input: Input<char>): (r: ParseResult<char, string>)
    ensures r.Success? <==> p.LookingAt(input.Source()).Some?
    ensures r.Success? ==> var n := p.LookingAt(input.Source()).value;
                           r.rest == input.Drop(n) && r.result == input.Source()[..n] && p.Matches(r.result)
    ensures !r.Success? ==> r == Failure("regex " + p.Text(), input.Loc())
  {
    var s := input.Source();
    LookingAtIsLongestMatch(p, s);
    match p.LookingAt(s)
    case Some(n) => Success(input.Drop(n), s[..n])
    case None => Failure("regex " + p.Text(), input.Loc())
  }

  function Regex(p: Pattern): Parser<char, string>
  {
    input => RegexParser(p, input)
  }

  /**
   * `DECIMAL`, `OCTAL`, `HEXADECIMAL` and the private `CDECIMAL`, `COCTAL`,
   * `CHEXADECIMAL`: the match converted in the pattern's radix, named.
   */
  function IntegerLiteral(p: Pattern): Parser<char, int>
  {
    Named(MapP(Regex(p), (w: string) => Value(p, w)), p.Name())
  }

  /** `CINTEGER`: hexadecimal, else octal, else decimal. */
  function CInteger(): Parser<char, int>
  {
    Or(Or(IntegerLiteral(CHexadecimal), IntegerLiteral(COctal)), IntegerLiteral(CDecimal))
  }

  /**
   * An integer literal takes the longest match of its expression and reads
   * it in its radix; without a match it fails under the literal's name,
   * consuming nothing.
   */
  lemma IntegerLiteralReads(p: Pattern, input: Input<char>)
    ensures var r := IntegerLiteral(p)(input);
            var m := p.LookingAt(input.Source());
            (r.Success? <==> m.Some?) &&
            (r.Success? ==> r.rest == input.Drop(m.value) && r.result == Value(p, input.Source()[..m.value])) &&
            (!r.Success? ==> r == Failure(p.Name(), input.Loc()))
  {
  }

  /**
   * `CINTEGER` is the first of its three forms that matches: a `0x` prefix
   * makes it hexadecimal, else a leading `0` makes it octal, else it is
   * decimal; with none it fails as a decimal.
   */
  lemma CIntegerChoosesForm(input: Input<char>)
    ensures var s := input.Source();
            CInteger()(input) ==
              if CHexadecimal.LookingAt(s).Some? then IntegerLiteral(CHexadecimal)(input)
              else if COctal.LookingAt(s).Some? then IntegerLiteral(COctal)(input)
              else if CDecimal.LookingAt(s).Some? then IntegerLiteral(CDecimal)(input)
              else Failure("Decimal", input.Loc())
  {
    IntegerLiteralReads(CHexadecimal, input);
    IntegerLiteralReads(COctal, input);
    IntegerLiteralReads(CDecimal, input);
  }

  /** Decimal reading agrees with the decimal rendering of `Int`s. */
  lemma {:induction false} DecimalValueIsDigitsValue(w: string)
    requires forall i :: 0 <= i < |w| ==> '0' <= w[i] <= '9'
    ensures ValueIn(10, w) == Strings.DigitsValue(w)
    decreases |w|
  {
    if w != [] {
      DecimalValueIsDigitsValue(w[..|w| - 1]);
    }
  }

  /** `DECIMAL` reads back the decimal rendering of any natural number, all of it. */
  lemma DecimalReadsRendering(n: nat)
    ensures var s := Strings.NatToString(n);
            IntegerLiteral(Decimal)(Input(s, 0)) == Success(Input(s, |s|), n)
  {
    var s := Strings.NatToString(n);
    var input := Input(s, 0);
    assert input.Source() == s;
    IntegerLiteralReads(Decimal, input);
    assert s[0..] == s;
    assert Decimal.LookingAt(s) == Some(|s|);
    assert s[..|s|] == s;
    DecimalValueIsDigitsValue(s);
  }

  // ------------------------------------------------------------------ boolean

  /** `BOOLEAN`: `"true"` as true or `"false"` as false, named. */
  function BooleanLiteral(): Parser<char, bool>
  {
    Named(Or(MapP(Constant("true"), (w: string) => true), MapP(Constant("false"), (w: string) => false)), "Boolean")
  }

  /**
   * The boolean literal succeeds exactly on an input starting with `true`
   * or `false`, whose value it returns, consuming that word only.
   */
  lemma BooleanLiteralReads(input: Input<char>)
    ensures var r := BooleanLiteral()(input);
            var s := input.Source();
            (r.Success? <==> "true" <= s || "false" <= s) &&
            (r.Success? ==> r.result == ("true" <= s) && r.rest == input.Drop(if r.result then 4 else 5)) &&
            (!r.Success? ==> r == Failure("Boolean", input.Loc()))
  {
    var s := input.Source();
    if "true" <= s {
      assert s[0] == 't';
    }
  }

  // ------------------------------------------------------------------ spaces

  /** The class `\s` of Java's regular expressions: space, `\t`, `\n`, `\u000B`, `\f`, `\r`. */
  predicate IsSpace(c: char)
  {
    c as int == 0x20 || 0x09 <= c as int <= 0x0D
  }

  /**
   * `SPACES`, the expression `\s*`: it always matches, greedily, so it reads
   * the whole run of whitespace at the start of the input and nothing more.
   */
  function SpacesParser(input: Input<char>): (r: ParseResult<char, string>)
    ensures r.Success?
    ensures var s := input.Source();
            |r.result| <= |s| && r.result == s[..|r.result|] && r.rest == input.Drop(|r.result|)
    ensures forall i :: 0 <= i < |r.result| ==> IsSpace(r.result[i])
    ensures |r.result| < |input.Source()| ==> !IsSpace(input.Source()[|r.result|])
  {
    var s := input.Source();
    var n := LeadingRun(s, IsSpace, |s|);
    Success(input.Drop(n), s[..n])
  }

  function Spaces(): Parser<char, string>
  {
    input => SpacesParser(input)
  }

  /** `lexeme(inner)`: `-SPACES + inner + -SPACES`. */
  function Lexeme<R>(inner: Parser<char, R>): Parser<char, R>
  {
    PlusAnyUnit(PlusUnitAny(Ignore(Spaces()), inner), Ignore(Spaces()))
  }

  /**
   * A lexeme is its inner parser after the leading whitespace: it succeeds
   * exactly when that does, with its value, and then skips the whitespace
   * that follows; a non-success of the inner parser is the result.
   */
  lemma LexemeReads<R>(inner: Parser<char, R>, input: Input<char>)
    ensures var lead := Spaces()(input).rest;
            var r := Lexeme(inner)(input);
            (r.Success? <==> inner(lead).Success?) &&
            (r.Success? ==> r.result == inner(lead).result && r.rest == Spaces()(inner(lead).rest).rest) &&
            (!r.Success? ==> r == inner(lead).Propagate())
  {
    IgnoreKeepsConsumption(Spaces(), input);
    var lead := Spaces()(input).rest;
    if inner(lead).Success? {
      IgnoreKeepsConsumption(Spaces(), inner(lead).rest);
    }
  }

  // ------------------------------------------------------------------ escapes

  /** `Int.toChar()`: the low 16 bits. */
  function ToChar(v: int): (u: int)
    ensures 0 <= u < 0x10000
    ensures 0 <= v < 0x10000 ==> u == v
  {
    v % 0x10000
  }

  /** The octal-escape lambda: `a`, then `* 8 + b` and `* 8 + c` for the digits present. */
  function OctalFold(digits: seq<int>): int
  {
    var a := if |digits| > 0 then digits[0] else 0;
    var ab := if |digits| > 1 then a * 8 + digits[1] else a;
    if |digits| > 2 then ab * 8 + digits[2] else ab
  }

  /** `char(key).map { unit }`: a one-character escape. */
  function SimpleEscape(key: char, unit: int): Parser<char, int>
  {
    MapP(Char(key), (c: char) => unit)
  }

  /** The `\x` lambda: `(a, b) -> (b + 16 * a).toChar()` on the two digit values. */
  function HexPairUnit(l: seq<int>): int
  {
    if |l| == 2 then ToChar(l[1] + 16 * l[0]) else 0
  }

  /** The `\u` lambda: `(a, b, c, d) -> (d + 16 * (c + 16 * (b + 16 * a))).toChar()`. */
  function HexQuadUnit(l: seq<int>): int
  {
    if |l| == 4 then ToChar(l[3] + 16 * (l[2] + 16 * (l[1] + 16 * l[0]))) else 0
  }

  /** The octal lambda, then `toChar()`. */
  function OctalUnit(l: seq<int>): int
  {
    ToChar(OctalFold(l))
  }

  /** `-char('x') + (HEX_DIGIT * 2).map { ... }`. */
  function HexEscape(): Parser<char, int>
  {
    PlusUnitAny(Ignore(Char('x')), MapP(Repeat(HexDigit(), 2, 2), HexPairUnit))
  }

  /** `-char('u') + (HEX_DIGIT * 4).map { ... }`. */
  function UnicodeEscape(): Parser<char, int>
  {
    PlusUnitAny(Ignore(Char('u')), MapP(Repeat(HexDigit(), 4, 4), HexQuadUnit))
  }

  /** `(OCT_DIGIT * (1..3)).map { ... }`: one to three octal digits. */
  function OctalEscape(): Parser<char, int>
  {
    MapP(Repeat(OctDigit(), 1, 3), OctalUnit)
  }

  /** The alternatives of `escaped`, in order; each runs after the backslash. */
  function EscapeAlternatives(): seq<Parser<char, int>>
  {
    [ SimpleEscape('b', 0x08), SimpleEscape('f', 0x0C), SimpleEscape('n', 0x0A), SimpleEscape('r', 0x0D),
      SimpleEscape('t', 0x09), SimpleEscape('\'', '\'' as int), SimpleEscape('"', '"' as int),
      SimpleEscape('\\', '\\' as int), HexEscape(), UnicodeEscape(), OctalEscape() ]
  }

  /** `escaped`: a backslash, then the first alternative that matches. */
  function Escaped(): Parser<char, int>
  {
    PlusUnitAny(Ignore(Char('\\')), Choice(EscapeAlternatives()))
  }

  /**
   * What follows a backslash, read directly: the code unit of the escape and
   * how many characters it takes, as `oneOf` finds it (the first alternative
   * that matches).
   */
  function DecodeEscape(s: string): (d: Option<(int, nat)>)
    ensures d.Some? ==> 1 <= d.value.1 <= |s|
  {
    if |s| == 0 then None else FirstReading(s, 0)
  }

  /** `oneOf` from the `i`-th alternative on: the first reading that matches. */
  function FirstReading(s: string, i: nat): (d: Option<(int, nat)>)
    requires |s| > 0 && i <= 11
    ensures d.Some? ==> 1 <= d.value.1 <= |s|
    decreases 11 - i
  {
    if i == 11 then None
    else
      var d := AlternativeReading(i, s);
      if d.Some? then d else FirstReading(s, i + 1)
  }

  /** The code units of the one-character escapes `\b \f \n \r \t \' \" \\`, in order. */
  const SimpleUnits: seq<int> := [0x08, 0x0C, 0x0A, 0x0D, 0x09, '\'' as int, '"' as int, '\\' as int]

  /**
   * The `i`-th alternative of `escaped` read directly: one character for the
   * simple escapes, two hexadecimal digits after `x`, four after `u`, or one
   * to three octal digits; `None` where it does not match.
   */
  function AlternativeReading(i: nat, s: string): (d: Option<(int, nat)>)
    requires i < 11 && |s| > 0
    ensures d.Some? ==> SelectsAlternative(i, s[0]) && 1 <= d.value.1 <= |s|
  {
    if !SelectsAlternative(i, s[0]) then None
    else if i < 8 then Some((SimpleUnits[i], 1))
    else if i == 8 then DecodeDigits(s, 2)
    else if i == 9 then DecodeDigits(s, 4)
    else
      var n := LeadingRun(s, IsOctDigit, 3);
      Some((ValueIn(8, s[..n]), n))
  }

  /** Only the alternative the first character selects can match, so it gives the reading. */
  lemma DecodeEscapeSelected(s: string)
    requires |s| > 0
    ensures DecodeEscape(s) == AlternativeReading(EscapeIndex(s[0]), s)
  {
    FirstReadingFrom(s, 0);
  }

  lemma {:induction false} FirstReadingFrom(s: string, i: nat)
    requires |s| > 0 && i <= 11
    ensures FirstReading(s, i) == if i <= EscapeIndex(s[0]) then AlternativeReading(EscapeIndex(s[0]), s) else None
    decreases 11 - i
  {
    if i < 11 {
      FirstReadingFrom(s, i + 1);
      EscapeIndexSelects(s[0], i);
    }
  }

  /** The escapes read at most the 16 bits of a `Char`. */
  lemma DecodeEscapeBounded(s: string)
    ensures DecodeEscape(s).Some? ==> 0 <= DecodeEscape(s).value.0 < 0x10000
  {
    if |s| > 0 {
      DecodeEscapeSelected(s);
      var k := EscapeIndex(s[0]);
      if DecodeEscape(s).Some? && k >= 8 {
        var n := if k == 8 then 2 else if k == 9 then 4 else LeadingRun(s, IsOctDigit, 3);
        var w := if k < 10 then s[1..1 + n] else s[..n];
        ValueInShort(if k == 10 then 8 else 16, w);
      }
    }
  }

  /** Exactly `n` hexadecimal digits after the first character, read in radix 16. */
  function DecodeDigits(s: string, n: nat): (d: Option<(int, nat)>)
    requires |s| > 0 && (n == 2 || n == 4)
    ensures d.Some? ==> d.value.1 == 1 + n <= |s|
  {
    if LeadingRun(s[1..], IsHexDigit, n) == n then
      Some((ValueIn(16, s[1..1 + n]), 1 + n))
    else None
  }

  /** Horner's rule written out for the short digit strings of escapes. */
  lemma ValueInShort(radix: int, w: string)
    requires radix == 8 || radix == 16
    requires 1 <= |w| <= 4
    ensures |w| == 1 ==> ValueIn(radix, w) == DigitValue(w[0])
    ensures |w| == 2 ==> ValueIn(radix, w) == DigitValue(w[1]) + radix * DigitValue(w[0])
    ensures |w| == 3 ==> ValueIn(radix, w) == DigitValue(w[2]) + radix * (DigitValue(w[1]) + radix * DigitValue(w[0]))
    ensures |w| == 4 ==>
              ValueIn(radix, w) == DigitValue(w[3]) + radix * (DigitValue(w[2]) + radix * (DigitValue(w[1]) + radix * DigitValue(w[0])))
    ensures ValueIn(radix, w) < (if |w| == 1 then 16 else if |w| == 2 then 256 else if |w| == 3 then 4096 else 65536)
  {
    assert w[..0] == [];
    ValueInPrefix(radix, w, 1);
    if |w| >= 2 {
      ValueInPrefix(radix, w, 2);
    }
    if |w| >= 3 {
      ValueInPrefix(radix, w, 3);
    }
    if |w| == 4 {
      ValueInPrefix(radix, w, 4);
    }
    assert w[..|w|] == w;
  }

  /** Reading the first `n` digits is reading the first `n - 1`, then one more. */
  lemma ValueInPrefix(radix: int, w: string, n: nat)
    requires 2 <= radix && 1 <= n <= |w|
    ensures ValueIn(radix, w[..n]) == ValueIn(radix, w[..n - 1]) * radix + DigitValue(w[n - 1])
  {
    assert w[..n][..n - 1] == w[..n - 1];
  }


  /** Whether `c` is the first character the `i`-th alternative of `escaped` accepts. */
  predicate SelectsAlternative(i: nat, c: char)
  {
    if i < 8 then c == "bfnrt'\"\\"[i]
    else if i == 8 then c == 'x'
    else if i == 9 then c == 'u'
    else i == 10 && IsOctDigit(c)
  }

  /** An alternative of `escaped` fails on an input that does not start with its character. */
  lemma AlternativeNeedsItsKey(j: Input<char>, i: nat)
    requires i < 11
    requires |j.Source()| == 0 || !SelectsAlternative(i, j.Source()[0])
    ensures EscapeAlternatives()[i](j).Failure?
  {
    if i == 10 {
      assert !OctDigit()(j).Success?;
      assert EscapeAlternatives()[i] == OctalEscape();
    }
  }

  /**
   * Of the alternatives of `escaped`, only the one the first character
   * selects can match: the others fail.
   */
  lemma EscapeAlternativesExclusive(j: Input<char>, k: nat)
    requires k < 11
    requires |j.Source()| > 0 ==> k == EscapeIndex(j.Source()[0])
    ensures forall i :: 0 <= i < 11 && i != k ==> EscapeAlternatives()[i](j).Failure?
  {
    forall i | 0 <= i < 11 && i != k
      ensures EscapeAlternatives()[i](j).Failure?
    {
      if |j.Source()| > 0 {
        EscapeIndexSelects(j.Source()[0], i);
      }
      AlternativeNeedsItsKey(j, i);
    }
  }

  /** A character selects at most one alternative, the one `EscapeIndex` names. */
  lemma EscapeIndexSelects(c: char, i: nat)
    requires i < 11
    ensures SelectsAlternative(i, c) ==> EscapeIndex(c) == i
  {
  }

  /** Which alternative of `escaped` a first character selects (the first one for none). */
  function EscapeIndex(c: char): (k: nat)
    ensures k < 11
  {
    match c
    case 'b' => 0 case 'f' => 1 case 'n' => 2 case 'r' => 3 case 't' => 4
    case '\'' => 5 case '"' => 6 case '\\' => 7 case 'x' => 8 case 'u' => 9
    case _ => if IsOctDigit(c) then 10 else 0
  }

  /**
   * `r` is the reading `d` of the escape at `j`: a Success just after it
   * with its code unit, or a Failure when there is no escape there.
   */
  ghost predicate ReadsEscape(r: ParseResult<char, int>, j: Input<char>, d: Option<(int, nat)>)
  {
    if d.Some? then r == Success(j.Drop(d.value.1), d.value.0) else r.Failure?
  }

  lemma HexDigitReads()
    ensures ReadsDigit(HexDigit(), IsHexDigit)
  {
  }

  lemma OctDigitReads()
    ensures ReadsDigit(OctDigit(), IsOctDigit)
  {
  }

  /** A fixed number of hexadecimal digits, read by `Repeat`. */
  lemma HexRun(h: Input<char>, n: nat)
    ensures RepeatReadsRun(HexDigit(), IsHexDigit, n, n, h)
  {
    HexDigitReads();
    RepeatReadsDigits(HexDigit(), IsHexDigit, n, n, h);
  }

  /** One to three octal digits, read by `Repeat`. */
  lemma OctalRun(j: Input<char>)
    ensures RepeatReadsRun(OctDigit(), IsOctDigit, 1, 3, j)
  {
    OctDigitReads();
    RepeatReadsDigits(OctDigit(), IsOctDigit, 1, 3, j);
  }

  /** `-char(key) + p.map(f)` on an input starting with `key`: `p` after it, mapped. */
  lemma KeyThenUnfolds<B>(j: Input<char>, key: char, p: Parser<char, B>, f: B -> int)
    requires |j.Source()| > 0 && j.Source()[0] == key
    ensures PlusUnitAny(Ignore(Char(key)), MapP(p, f))(j) == Map(p(j.Next()), f)
  {
  }

  /**
   * `-char(key) + (HEX_DIGIT * n).map(f)` reads exactly `n` hexadecimal
   * digits after `key`, where `f` reads them in radix 16.
   */
  lemma DigitsEscapeReads(j: Input<char>, key: char, n: nat, f: seq<int> -> int)
    requires |j.Source()| > 0 && j.Source()[0] == key && (n == 2 || n == 4)
    requires |j.Source()| >= 1 + n ==> f(DigitValues(j.Source()[1..1 + n])) == ValueIn(16, j.Source()[1..1 + n])
    ensures ReadsEscape(PlusUnitAny(Ignore(Char(key)), MapP(Repeat(HexDigit(), n, n), f))(j), j, DecodeDigits(j.Source(), n))
  {
    var s := j.Source();
    var h := j.Next();
    SourceDrop(j, 1);
    assert h.Source() == s[1..];
    if |s| >= 1 + n {
      assert s[1..][..n] == s[1..1 + n];
    }
    DigitsRead(h, n, f);
    KeyThenUnfolds(j, key, Repeat(HexDigit(), n, n), f);
    assert h.Drop(n) == j.Drop(1 + n);
  }

  /** `(HEX_DIGIT * n).map(f)` reads exactly `n` hexadecimal digits, where `f` reads them in radix 16. */
  lemma DigitsRead(h: Input<char>, n: nat, f: seq<int> -> int)
    requires n == 2 || n == 4
    requires |h.Source()| >= n ==> f(DigitValues(h.Source()[..n])) == ValueIn(16, h.Source()[..n])
    ensures var r := Map(RepeatParser(HexDigit(), n, n, h), f);
            (LeadingRun(h.Source(), IsHexDigit, n) == n ==> r == Success(h.Drop(n), ValueIn(16, h.Source()[..n]))) &&
            (LeadingRun(h.Source(), IsHexDigit, n) != n ==> r.Failure?)
  {
    HexRun(h, n);
  }

  /** `\x`: exactly two hexadecimal digits, read by `b + 16 * a`. */
  lemma {:induction false} HexEscapeDecodes(j: Input<char>)
    requires |j.Source()| > 0 && j.Source()[0] == 'x'
    ensures ReadsEscape(HexEscape()(j), j, DecodeEscape(j.Source()))
  {
    var s := j.Source();
    DecodeEscapeSelected(s);
    assert EscapeIndex(s[0]) == 8;
    if |s| >= 3 {
      HexUnitsAreValues(s[1..3]);
    }
    DigitsEscapeReads(j, 'x', 2, HexPairUnit);
  }

  /** `\u`: exactly four hexadecimal digits, read by Horner's rule. */
  lemma {:induction false} UnicodeEscapeDecodes(j: Input<char>)
    requires |j.Source()| > 0 && j.Source()[0] == 'u'
    ensures ReadsEscape(UnicodeEscape()(j), j, DecodeEscape(j.Source()))
  {
    var s := j.Source();
    DecodeEscapeSelected(s);
    assert EscapeIndex(s[0]) == 9;
    if |s| >= 5 {
      HexUnitsAreValues(s[1..5]);
    }
    DigitsEscapeReads(j, 'u', 4, HexQuadUnit);
  }

  /** The two digit lambdas read their digits in radix 16. */
  lemma HexUnitsAreValues(w: string)
    requires |w| == 2 || |w| == 4
    ensures |w| == 2 ==> HexPairUnit(DigitValues(w)) == ValueIn(16, w)
    ensures |w| == 4 ==> HexQuadUnit(DigitValues(w)) == ValueIn(16, w)
  {
    ValueInShort(16, w);
  }

  /** The Horner fold of the octal lambda is reading in radix 8. */
  lemma OctalFoldIsValue(w: string)
    requires 1 <= |w| <= 3
    ensures OctalFold(DigitValues(w)) == ValueIn(8, w)
  {
    ValueInShort(8, w);
  }

  /** The octal escape: one to three octal digits, read by the Horner fold. */
  lemma {:induction false} OctalEscapeDecodes(j: Input<char>)
    requires |j.Source()| > 0 && IsOctDigit(j.Source()[0])
    ensures DecodeEscape(j.Source()).Some?
    ensures ReadsEscape(OctalEscape()(j), j, DecodeEscape(j.Source()))
  {
    var s := j.Source();
    DecodeEscapeSelected(s);
    assert EscapeIndex(s[0]) == 10;
    OctalDigitsRead(j);
  }

  /** One to three octal digits, read by `Repeat` and the Horner fold. */
  lemma OctalDigitsRead(j: Input<char>)
    requires |j.Source()| > 0 && IsOctDigit(j.Source()[0])
    ensures var s := j.Source();
            var n := LeadingRun(s, IsOctDigit, 3);
            1 <= n && OctalEscape()(j) == Success(j.Drop(n), ValueIn(8, s[..n]))
  {
    var s := j.Source();
    OctalRun(j);
    var n := LeadingRun(s, IsOctDigit, 3);
    OctalFoldIsValue(s[..n]);
    assert OctalEscape()(j) == Map(RepeatParser(OctDigit(), 1, 3, j), OctalUnit);
  }

  /** The one-character escapes: the alternative the character selects reads it. */
  lemma SimpleEscapeDecodes(j: Input<char>)
    requires |j.Source()| > 0 && EscapeIndex(j.Source()[0]) < 8 && SelectsAlternative(EscapeIndex(j.Source()[0]), j.Source()[0])
    ensures ReadsEscape(EscapeAlternatives()[EscapeIndex(j.Source()[0])](j), j, DecodeEscape(j.Source()))
  {
    DecodeEscapeSelected(j.Source());
    assert j.Drop(1) == j.Next();
  }

  /** The alternative that the first character selects reads the escape directly. */
  lemma SelectedAlternativeDecodes(j: Input<char>)
    requires |j.Source()| > 0
    ensures ReadsEscape(EscapeAlternatives()[EscapeIndex(j.Source()[0])](j), j, DecodeEscape(j.Source()))
  {
    var s := j.Source();
    var alts := EscapeAlternatives();
    var k := EscapeIndex(s[0]);
    if s[0] == 'x' {
      assert alts[k] == HexEscape();
      HexEscapeDecodes(j);
    } else if s[0] == 'u' {
      assert alts[k] == UnicodeEscape();
      UnicodeEscapeDecodes(j);
    } else if IsOctDigit(s[0]) {
      assert alts[k] == OctalEscape();
      OctalEscapeDecodes(j);
    } else {
      EscapeIndexSelects(s[0], k);
      if SelectsAlternative(k, s[0]) {
        SimpleEscapeDecodes(j);
      } else {
        AlternativeNeedsItsKey(j, k);
        DecodeEscapeSelected(s);
      }
    }
  }

  /** After a backslash, `oneOf` of the alternatives is the direct reading. */
  lemma EscapeBodyDecodes(j: Input<char>)
    ensures ReadsEscape(Choice(EscapeAlternatives())(j), j, DecodeEscape(j.Source()))
  {
    var s := j.Source();
    var alts := EscapeAlternatives();
    var k := if |s| > 0 then EscapeIndex(s[0]) else 0;
    EscapeAlternativesExclusive(j, k);
    ChoiceSingleCandidate(alts, j, k);
    if |s| == 0 {
      assert alts[0](j).Failure?;
    } else {
      SelectedAlternativeDecodes(j);
    }
  }

  /**
   * `escaped` succeeds exactly on a backslash followed by a well-formed
   * escape, with the escape's code unit, consuming both; otherwise it fails.
   */
  lemma EscapedDecodes(input: Input<char>)
    ensures var s := input.Source();
            var r := Escaped()(input);
            (r.Success? <==> |s| > 0 && s[0] == '\\' && DecodeEscape(s[1..]).Some?) &&
            (r.Success? ==> r.result == DecodeEscape(s[1..]).value.0 &&
                            r.rest == input.Drop(1 + DecodeEscape(s[1..]).value.1)) &&
            (!r.Success? ==> r.Failure?)
  {
    var s := input.Source();
    if |s| > 0 && s[0] == '\\' {
      SourceDrop(input, 1);
      EscapeBodyDecodes(input.Next());
    }
  }

  // ------------------------------------------------------------- string literal

  /** `char { it != '"' && it != '\\' }`: any other character, as its code unit. */
  function PlainChar(): Parser<char, int>
  {
    MapP(CharWhere((c: char) => c != '"' && c != '\\'), (c: char) => c as int)
  }

  /** One element of the literal's body: a plain character or an escape. */
  function StringElement(): Parser<char, int>
  {
    Or(PlainChar(), Escaped())
  }

  /**
   * `JSTRING`: a quote, the body's elements (`many`, joined into one
   * string: each element is one code unit, so the join is the list itself),
   * and a closing quote, named "J String".
   */
  function JString(): Parser<char, seq<int>>
  {
    QuotedBody(StringElement())
  }

  /** The shape of `JSTRING` around any parser `el` of the body's elements. */
  function QuotedBody(el: Parser<char, int>): Parser<char, seq<int>>
  {
    Named(PlusAnyUnit(PlusUnitAny(Ignore(Char('"')), MapP(Many(el), (units: seq<int>) => units)),
                      Ignore(Char('"'))),
          "J String")
  }

  /**
   * A reader of what follows a backslash in a string body: the escape's code
   * unit and how many characters it takes, `None` when no escape starts
   * there.  `DecodeEscape` is the one `escaped` implements; the body is read
   * the same way around any of them, and a reading longer than what is left
   * reads nothing.
   */
  type EscapeReader = string -> Option<(int, nat)>

  /** One element of a string body: its code unit and how many characters it takes. */
  datatype Element = NoElement | Element(unit: int, width: nat)

  /**
   * A string body read up to its closing quote: its code units and how many
   * characters it takes, the quote included; `Malformed` when no quote ends
   * it or an escape in it is not well formed.
   */
  datatype Body = Malformed | Body(units: seq<int>, width: nat)

  /**
   * One element of a string body read directly at position `i` of `t`: a
   * plain character, or a backslash and an escape `esc` reads; its code unit
   * and its length.
   */
  function BodyElement(esc: EscapeReader, t: string, i: nat): (step: Element)
    ensures step.Element? ==> 1 <= step.width <= |t| - i
  {
    if i >= |t| || t[i] == '"' then NoElement
    else if t[i] == '\\' then
      match esc(t[i + 1..])
      case None => NoElement
      case Some((unit, k)) => if k < |t| - i then Element(unit, 1 + k) else NoElement
    else Element(t[i] as int, 1)
  }

  /**
   * The body of a string literal read directly from position `i` of `t`, up
   * to and including the first quote that is not part of an escape: the code
   * units and the number of characters taken.
   */
  function DecodeBody(esc: EscapeReader, t: string, i: nat): (d: Body)
    ensures d.Body? ==> 1 <= d.width <= |t| - i
    decreases |t| - i
  {
    if i >= |t| then Malformed
    else if t[i] == '"' then Body([], 1)
    else
      match BodyElement(esc, t, i)
      case NoElement => Malformed
      case Element(unit, k) =>
        match DecodeBody(esc, t, i + k)
        case Malformed => Malformed
        case Body(units, m) => Body([unit] + units, k + m)
  }

  /** A body read from `i` ends at a quote. */
  lemma {:induction false} DecodeBodyEndsAtQuote(esc: EscapeReader, t: string, i: nat)
    requires DecodeBody(esc, t, i).Body?
    ensures t[i + DecodeBody(esc, t, i).width - 1] == '"'
    decreases |t| - i
  {
    var n := DecodeBody(esc, t, i).width;
    if t[i] == '"' {
      assert n == 1;
    } else {
      var k := BodyElement(esc, t, i).width;
      DecodeBodyStep(esc, t, i);
      var d' := DecodeBody(esc, t, i + k);
      assert d'.Body? && n == k + d'.width;
      DecodeBodyEndsAtQuote(esc, t, i + k);
    }
  }

  /** `el` reads one element of a string body at `input`, as `BodyElement` says. */
  ghost predicate ReadsBodyElement(el: Parser<char, int>, esc: EscapeReader, input: Input<char>)
  {
    var step := BodyElement(esc, input.tokens, input.offset);
    if step.Element? then el(input) == Success(input.Drop(step.width), step.unit)
    else el(input).Failure?
  }

  ghost predicate ReadsBodyElements(el: Parser<char, int>, esc: EscapeReader)
  {
    forall input :: ReadsBodyElement(el, esc, input)
  }

  /** `StringElement` reads exactly the elements `BodyElement` describes with `DecodeEscape`. */
  lemma StringElementReads(input: Input<char>)
    ensures ReadsBodyElement(StringElement(), DecodeEscape, input)
  {
    var t, i := input.tokens, input.offset;
    if i < |t| && t[i] == '\\' {
      EscapeElementReads(input);
    } else {
      PlainElementReads(input);
    }
  }

  /** At a backslash, the element is the escape that follows it. */
  lemma EscapeElementReads(input: Input<char>)
    requires input.offset < |input.tokens| && input.tokens[input.offset] == '\\'
    ensures ReadsBodyElement(StringElement(), DecodeEscape, input)
  {
    var t, i := input.tokens, input.offset;
    StringElementAtBackslash(input);
    EscapedDecodes(input);
    assert input.Source()[1..] == t[i + 1..];
    BackslashElement(StringElement(), DecodeEscape, input, DecodeEscape(t[i + 1..]));
  }

  /** An element reader that reads a backslash and then what `esc` reads reads the element `BodyElement` describes. */
  lemma BackslashElement(el: Parser<char, int>, esc: EscapeReader, input: Input<char>, o: Option<(int, nat)>)
    requires input.offset < |input.tokens| && input.tokens[input.offset] == '\\'
    requires o == esc(input.tokens[input.offset + 1..])
    requires o.Some? ==> o.value.1 < |input.tokens| - input.offset
    requires o.Some? ==> el(input) == Success(input.Drop(1 + o.value.1), o.value.0)
    requires o.None? ==> el(input).Failure?
    ensures ReadsBodyElement(el, esc, input)
  {
  }

  /** At a backslash the plain-character alternative fails, so the element is `escaped`. */
  lemma StringElementAtBackslash(input: Input<char>)
    requires input.offset < |input.tokens| && input.tokens[input.offset] == '\\'
    ensures StringElement()(input) == Escaped()(input)
  {
    assert input.Source()[0] == input.tokens[input.offset];
    assert PlainChar()(input).Failure?;
  }

  /** Anywhere else, the element is the character itself, unless it is a quote. */
  lemma PlainElementReads(input: Input<char>)
    requires !(input.offset < |input.tokens| && input.tokens[input.offset] == '\\')
    ensures ReadsBodyElement(StringElement(), DecodeEscape, input)
  {
    var t, i := input.tokens, input.offset;
    EscapedDecodes(input);
    if i < |t| {
      assert input.Source()[0] == t[i];
    }
  }

  lemma StringElementReadsAll()
    ensures ReadsBodyElements(StringElement(), DecodeEscape)
  {
    forall input: Input<char> ensures ReadsBodyElement(StringElement(), DecodeEscape, input) {
      StringElementReads(input);
    }
  }

  lemma BodyElementAt(el: Parser<char, int>, esc: EscapeReader, input: Input<char>)
    requires ReadsBodyElements(el, esc)
    ensures ReadsBodyElement(el, esc, input)
  {
  }

  /** What `many` over body elements does from `input`: where it stops, and with what. */
  ghost predicate ManyFollowsBody(el: Parser<char, int>, esc: EscapeReader, input: Input<char>)
  {
    var m := ManyParser(el, input);
    var t := input.tokens;
    var d := DecodeBody(esc, t, input.offset);
    m.Success? && m.rest.Valid() &&
    (d.Body? <==> m.rest.offset < |t| && t[m.rest.offset] == '"') &&
    (d.Body? ==> m.result == d.units && m.rest.offset == input.offset + d.width - 1)
  }

  /** Where an element starts, the body is that element and the body after it. */
  lemma {:induction false} DecodeBodyStep(esc: EscapeReader, t: string, i: nat)
    requires BodyElement(esc, t, i).Element?
    ensures var e := BodyElement(esc, t, i);
            var d' := DecodeBody(esc, t, i + e.width);
            (d'.Malformed? ==> DecodeBody(esc, t, i).Malformed?) &&
            (d'.Body? ==> DecodeBody(esc, t, i) == Body([e.unit] + d'.units, e.width + d'.width))
  {
  }

  /** `many` takes an element that consumes something and goes on after it. */
  lemma ManyTakesElement<A>(el: Parser<char, A>, input: Input<char>, k: nat, value: A)
    requires 1 <= k && input.offset + k <= |input.tokens|
    requires el(input) == Success(input.Drop(k), value)
    ensures ManyParser(el, input) == PrependAll([value], ManyParser(el, input.Drop(k)))
  {
    assert Advances(input, input.Drop(k));
  }

  /** Where an element starts, `many` takes it and goes on from after it. */
  lemma ManyBodyStep(el: Parser<char, int>, esc: EscapeReader, input: Input<char>, k: nat)
    requires ReadsBodyElement(el, esc, input)
    requires BodyElement(esc, input.tokens, input.offset).Element?
    requires k == BodyElement(esc, input.tokens, input.offset).width
    requires ManyFollowsBody(el, esc, input.Drop(k))
    ensures ManyFollowsBody(el, esc, input)
  {
    var t, i := input.tokens, input.offset;
    var unit := BodyElement(esc, t, i).unit;
    ManyTakesElement(el, input, k, unit);
    DecodeBodyStep(esc, t, i);
  }

  /** Where no element starts, `many` stops at once. */
  lemma ManyBodyEnd(el: Parser<char, int>, esc: EscapeReader, input: Input<char>)
    requires input.Valid() && ReadsBodyElement(el, esc, input)
    requires BodyElement(esc, input.tokens, input.offset).NoElement?
    ensures ManyFollowsBody(el, esc, input)
  {
    assert ManyParser(el, input) == Success(input, []);
  }

  /** `many` over any parser that reads body elements stops where the body ends. */
  lemma {:induction false} ManyElementsReadBody(el: Parser<char, int>, esc: EscapeReader, input: Input<char>)
    requires ReadsBodyElements(el, esc)
    requires input.Valid()
    ensures ManyFollowsBody(el, esc, input)
    decreases |input.tokens| - input.offset
  {
    var step := BodyElement(esc, input.tokens, input.offset);
    BodyElementAt(el, esc, input);
    if step.Element? {
      ManyElementsReadBody(el, esc, input.Drop(step.width));
      ManyBodyStep(el, esc, input, step.width);
    } else {
      ManyBodyEnd(el, esc, input);
    }
  }

  /**
   * The quoted body in terms of `many`: a quote, then whatever `many` reads,
   * then a quote where `many` stopped; otherwise a Failure named "J String".
   */
  lemma QuotedBodyShape(el: Parser<char, int>, input: Input<char>)
    ensures var t, i := input.tokens, input.offset;
            var r := QuotedBody(el)(input);
            var m := ManyParser(el, input.Next());
            var closed := i < |t| && t[i] == '"' && m.rest.offset < |t| && t[m.rest.offset] == '"';
            (closed ==> r == Success(m.rest.Next(), m.result)) &&
            (!closed ==> r.Failure? && r.expected == "J String")
  {
    var t, i := input.tokens, input.offset;
    var m := ManyParser(el, input.Next());
    if i < |t| {
      assert input.Source()[0] == t[i];
    }
    if m.rest.offset < |t| {
      assert m.rest.Source()[0] == t[m.rest.offset];
    }
  }

  /**
   * A quote, `many` body elements and a quote succeed exactly on a quote
   * followed by a well-formed body; the value is the body's code units and
   * the parser consumes through the closing quote.  Otherwise it fails as
   * "J String".
   */
  lemma QuotedBodyReads(el: Parser<char, int>, esc: EscapeReader, input: Input<char>)
    requires ReadsBodyElements(el, esc)
    ensures var t, i := input.tokens, input.offset;
            var r := QuotedBody(el)(input);
            var d := DecodeBody(esc, t, i + 1);
            var well := i < |t| && t[i] == '"' && d.Body?;
            (well ==> r == Success(input.Drop(1 + d.width), d.units)) &&
            (!well ==> r.Failure? && r.expected == "J String")
  {
    var t, i := input.tokens, input.offset;
    if i < |t| && t[i] == '"' {
      ManyElementsReadBody(el, esc, input.Next());
      QuotedBodyAfterQuote(el, esc, input);
    } else {
      QuotedBodyShape(el, input);
    }
  }

  /** After an opening quote, the quoted body is what `many` reads of the body, and the closing quote. */
  lemma QuotedBodyAfterQuote(el: Parser<char, int>, esc: EscapeReader, input: Input<char>)
    requires input.offset < |input.tokens| && input.tokens[input.offset] == '"'
    requires ManyFollowsBody(el, esc, input.Next())
    ensures var t, i := input.tokens, input.offset;
            var r := QuotedBody(el)(input);
            var d := DecodeBody(esc, t, i + 1);
            (d.Body? ==> r == Success(input.Drop(1 + d.width), d.units)) &&
            (!d.Body? ==> r.Failure? && r.expected == "J String")
  {
    QuotedBodyShape(el, input);
    ClosedBody(input, ManyParser(el, input.Next()), DecodeBody(esc, input.tokens, input.offset + 1), QuotedBody(el)(input));
  }

  /**
   * The arithmetic of the quoted body on plain values: `m` is what `many`
   * read after the opening quote, `d` the body, `r` the quoted body.
   */
  lemma ClosedBody(input: Input<char>, m: ParseResult<char, seq<int>>, d: Body, r: ParseResult<char, seq<int>>)
    requires input.offset < |input.tokens| && input.tokens[input.offset] == '"'
    requires m.Success? && m.rest.tokens == input.tokens
    requires d.Body? <==> m.rest.offset < |input.tokens| && input.tokens[m.rest.offset] == '"'
    requires d.Body? ==> m.result == d.units && m.rest.offset == input.offset + 1 + d.width - 1
    requires m.rest.offset < |input.tokens| && input.tokens[m.rest.offset] == '"' ==> r == Success(m.rest.Next(), m.result)
    requires !(m.rest.offset < |input.tokens| && input.tokens[m.rest.offset] == '"') ==> r.Failure? && r.expected == "J String"
    ensures d.Body? ==> r == Success(input.Drop(1 + d.width), d.units)
    ensures !d.Body? ==> r.Failure? && r.expected == "J String"
  {
  }

  /**
   * `JSTRING` succeeds exactly on a quote followed by a well-formed body; its
   * value is the body's code units and it consumes through the closing
   * quote.  Otherwise it fails as "J String".
   */
  lemma {:induction false} JStringReads(input: Input<char>)
    ensures var t, i := input.tokens, input.offset;
            var r := JString()(input);
            var d := DecodeBody(DecodeEscape, t, i + 1);
            var well := i < |t| && t[i] == '"' && d.Body?;
            (well ==> r == Success(input.Drop(1 + d.width), d.units)) &&
            (!well ==> r.Failure? && r.expected == "J String")
  {
    StringElementReadsAll();
    QuotedBodyReads(StringElement(), DecodeEscape, input);
  }

  /** How one character is written inside a body: quote and backslash get a backslash. */
  function EscapeChar(c: char): (t: string)
    ensures 1 <= |t| <= 2 && t[|t| - 1] == c
  {
    if c == '"' || c == '\\' then ['\\', c] else [c]
  }

  /** Write `w` as a body: each character escaped as needed, then the closing quote. */
  function EncodeBody(w: string): (t: string)
    ensures |t| >= |w| + 1
  {
    if w == [] then "\""
    else EscapeChar(w[0]) + EncodeBody(w[1..])
  }

  /** The code units of a string. */
  function Units(w: string): (u: seq<int>)
    ensures |u| == |w|
  {
    seq(|w|, i requires 0 <= i < |w| => w[i] as int)
  }

  /** `e` is written in `t` from position `i` on. */
  predicate WrittenAt(t: string, i: nat, e: string)
  {
    i + |e| <= |t| && t[i..i + |e|] == e
  }

  /** `esc` reads an escaped quote or backslash as that character, in one character. */
  ghost predicate ReadsQuoteAndBackslash(esc: EscapeReader)
  {
    forall s: string :: |s| > 0 && (s[0] == '"' || s[0] == '\\') ==> esc(s) == Some((s[0] as int, 1))
  }

  /** `escaped` reads `\"` and `\\` as the quote and the backslash. */
  lemma EscapeReadsQuoteAndBackslash()
    ensures ReadsQuoteAndBackslash(DecodeEscape)
  {
    forall s: string | |s| > 0 && (s[0] == '"' || s[0] == '\\')
      ensures DecodeEscape(s) == Some((s[0] as int, 1))
    {
      DecodeEscapeSelected(s);
    }
  }

  /** A written character inside a body is one element: that character. */
  lemma EscapedCharElement(esc: EscapeReader, c: char, t: string, i: nat)
    requires ReadsQuoteAndBackslash(esc)
    requires WrittenAt(t, i, EscapeChar(c))
    ensures BodyElement(esc, t, i) == Element(c as int, |EscapeChar(c)|)
  {
    assert t[i] == EscapeChar(c)[0];
    if c == '"' || c == '\\' {
      var rest := t[i + 1..];
      assert rest[0] == t[i + 1] == c;
    }
  }

  lemma UnitsCons(w: string)
    requires w != []
    ensures Units(w) == [w[0] as int] + Units(w[1..])
  {
  }

  /** What is written at `i` as `a + b` is `a` there and `b` right after it. */
  lemma WrittenAtSplits(t: string, i: nat, a: string, b: string)
    requires WrittenAt(t, i, a + b)
    ensures WrittenAt(t, i, a) && WrittenAt(t, i + |a|, b)
  {
    var whole := t[i..i + |a + b|];
    assert t[i..i + |a|] == whole[..|a|];
    assert t[i + |a|..i + |a| + |b|] == whole[|a|..];
  }

  /** What is written after the first character of an encoded body is the encoded rest. */
  lemma EncodedTail(w: string, t: string, i: nat)
    requires w != [] && WrittenAt(t, i, EncodeBody(w))
    ensures WrittenAt(t, i, EscapeChar(w[0]))
    ensures WrittenAt(t, i + |EscapeChar(w[0])|, EncodeBody(w[1..]))
  {
    assert EncodeBody(w) == EscapeChar(w[0]) + EncodeBody(w[1..]);
    WrittenAtSplits(t, i, EscapeChar(w[0]), EncodeBody(w[1..]));
  }

  /** Reading an encoded body gives the string back and stops at its closing quote. */
  lemma {:induction false} DecodeEncodedBody(esc: EscapeReader, w: string, t: string, i: nat)
    requires ReadsQuoteAndBackslash(esc)
    requires WrittenAt(t, i, EncodeBody(w))
    ensures DecodeBody(esc, t, i) == Body(Units(w), |EncodeBody(w)|)
    decreases |w|
  {
    if w == [] {
      assert t[i] == EncodeBody(w)[0];
    } else {
      EncodedTail(w, t, i);
      EscapedCharElement(esc, w[0], t, i);
      DecodeEncodedBody(esc, w[1..], t, i + |EscapeChar(w[0])|);
      EncodedBodyCons(esc, w, t, i);
    }
  }

  /** The body read after one written character, with that character in front, is the whole body. */
  lemma EncodedBodyCons(esc: EscapeReader, w: string, t: string, i: nat)
    requires w != [] && BodyElement(esc, t, i) == Element(w[0] as int, |EscapeChar(w[0])|)
    requires DecodeBody(esc, t, i + |EscapeChar(w[0])|) == Body(Units(w[1..]), |EncodeBody(w[1..])|)
    ensures DecodeBody(esc, t, i) == Body(Units(w), |EncodeBody(w)|)
  {
    DecodeBodyStep(esc, t, i);
    UnitsCons(w);
    assert |EncodeBody(w)| == |EscapeChar(w[0])| + |EncodeBody(w[1..])|;
  }

  /** A quote, body elements and a quote read back any string written as a literal. */
  lemma QuotedBodyRoundTrip(el: Parser<char, int>, esc: EscapeReader, w: string, after: string)
    requires ReadsBodyElements(el, esc) && ReadsQuoteAndBackslash(esc)
    ensures var text := "\"" + EncodeBody(w) + after;
            QuotedBody(el)(Input(text, 0)) == Success(Input(text, 1 + |EncodeBody(w)|), Units(w))
  {
    var text := "\"" + EncodeBody(w) + after;
    var e := EncodeBody(w);
    assert text[1..1 + |e|] == e;
    DecodeEncodedBody(esc, w, text, 1);
    QuotedBodySucceeds(el, esc, Input(text, 0), Units(w), |e|);
  }

  /** Where a quote starts a well-formed body, the quoted body reads it. */
  lemma QuotedBodySucceeds(el: Parser<char, int>, esc: EscapeReader, input: Input<char>, units: seq<int>, n: nat)
    requires ReadsBodyElements(el, esc)
    requires input.offset < |input.tokens| && input.tokens[input.offset] == '"'
    requires DecodeBody(esc, input.tokens, input.offset + 1) == Body(units, n)
    ensures QuotedBody(el)(input) == Success(input.Drop(1 + n), units)
  {
    QuotedBodyReads(el, esc, input);
  }

  /** `JSTRING` reads back any string written as a literal, whatever follows it. */
  lemma {:induction false} JStringRoundTrip(w: string, after: string)
    ensures var text := "\"" + EncodeBody(w) + after;
            JString()(Input(text, 0)) == Success(Input(text, 1 + |EncodeBody(w)|), Units(w))
  {
    StringElementReadsAll();
    EscapeReadsQuoteAndBackslash();
    QuotedBodyRoundTrip(StringElement(), DecodeEscape, w, after);
  }
}
