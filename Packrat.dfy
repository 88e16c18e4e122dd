/**
 * The memoising grammar context (`parsers/Packrat.kt`): each proxy keeps a
 * table from locations to results, plants a left-recursion sentinel before
 * running its rule, and answers any later call at a cached location from
 * the table.
 */
module Packrat {
  import opened Inputs
  import opened Results
  import opened Combinators
  import Dsl

  const LEFT_RECURSION := "Left recursion detected"

  /**
   * A bound rule: a parser that does not re-enter the grammar, or the
   * left-recursive shape `name + suffix` (the non-terminal itself, then
   * `suffix`, keeping the non-terminal's value).
   */
  datatype Rule<!T, R> =
    | Plain(parser: Parser<T, R>)
    | SelfThen(suffix: Parser<T, ()>)

  /** `PackratGrammarContext`: the bindings made so far. */
  class PackratGrammarContext<T, R> {
    var nonTerminals: map<string, Rule<T, R>>

    constructor()
      ensures nonTerminals == map[]
    {
      nonTerminals := map[];
    }

    /** `set`: binds `name`, replacing any earlier binding. */
    method Set(name: string, rule: Rule<T, R>)
      modifies this
      ensures nonTerminals == old(nonTerminals)[name := rule]
    {
      nonTerminals := nonTerminals[name := rule];
    }

    /** `get`: every call makes a new proxy, with an empty table. */
    method Get(name: string) returns (p: PackratProxyParser<T, R>)
      ensures fresh(p)
      ensures p.name == name && p.ctx == this && p.results == map[]
    {
      p := new PackratProxyParser(name, this);
    }
  }

  /** `PackratProxyParser`: a name, its context, and the results per location. */
  class PackratProxyParser<T, R> {
    const name: string
    const ctx: PackratGrammarContext<T, R>
    var results: map<Location, ParseResult<T, R>>

    constructor(name: string, ctx: PackratGrammarContext<T, R>)
      ensures this.name == name && this.ctx == ctx && results == map[]
    {
      this.name := name;
      this.ctx := ctx;
      results := map[];
    }

    /** `description`: the non-terminal's name. */
    function Description(): (d: string)
      ensures d == name
    {
      name
    }

    /**
     * `invoke`: a cached location answers from the table, whatever the
     * input.  Otherwise the sentinel Error is stored first, the rule runs,
     * and its result replaces the sentinel; an unbound name throws and
     * leaves the sentinel behind.  A left-recursive rule meets its own
     * sentinel, so the result is the sentinel Error.
     */
    method Invoke(input: Input<T>) returns (r: Outcome<ParseResult<T, R>>)
      modifies this
      ensures var loc := input.Loc();
              var sentinel := Error(LEFT_RECURSION, loc);
              if loc in old(results) then
                r == Returned(old(results)[loc]) && results == old(results)
              else if name !in ctx.nonTerminals then
                r == Thrown(Dsl.UninitializedMessage(name)) && results == old(results)[loc := sentinel]
              else match ctx.nonTerminals[name]
                case Plain(p) => r == Returned(p(input)) && results == old(results)[loc := p(input)]
                case SelfThen(_) => r == Returned(sentinel) && results == old(results)[loc := sentinel]
      decreases if input.Loc() in results then 0 else 1
    {
      var loc := input.Loc();
      if loc in results {
        return Returned(results[loc]);
      }
      results := results[loc := Error(LEFT_RECURSION, loc)];
      if name !in ctx.nonTerminals {
        return Thrown(Dsl.UninitializedMessage(name));
      }
      var res: ParseResult<T, R>;
      match ctx.nonTerminals[name] {
        case Plain(p) =>
          res := p(input);
        case SelfThen(suffix) =>
          var inner := Invoke(input);
          if inner.Thrown? {
            return inner;
          }
          res := PlusAnyUnit((_: Input<T>) => inner.value, suffix)(input);
      }
      results := results[loc := res];
      return Returned(res);
    }
  }

  /**
   * The cache is keyed by location only: after `"2"` has been parsed, the
   * same proxy answers `"whatever"` with the stored result, stale `rest`
   * included, without running the rule again.
   */
  method CacheIgnoresInput<R>(rule: Parser<char, R>) returns (first: Outcome<ParseResult<char, R>>, second: Outcome<ParseResult<char, R>>)
    ensures first == Returned(rule(Input("2", 0)))
    ensures second == first
  {
    var ctx := new PackratGrammarContext<char, R>();
    ctx.Set("expr", Plain(rule));
    var proxy := ctx.Get("expr");
    first := proxy.Invoke(Input("2", 0));
    second := proxy.Invoke(Input("whatever", 0));
  }

  /** `expr = expr + suffix` parsed on `"2:::"` reports left recursion at its start. */
  method LeftRecursionReported<R>(suffix: Parser<char, ()>) returns (r: Outcome<ParseResult<char, R>>)
    ensures r == Returned(Error(LEFT_RECURSION, Location("<string>", 0, 0)))
  {
    var ctx := new PackratGrammarContext<char, R>();
    ctx.Set("expr", SelfThen(suffix));
    var proxy := ctx.Get("expr");
    r := proxy.Invoke(Input("2:::", 0));
  }

  /** Invoking an unbound name throws, and the sentinel stays in the table. */
  method UnboundLeavesSentinel<T, R>(name: string, input: Input<T>) returns (r: Outcome<ParseResult<T, R>>, cached: ParseResult<T, R>)
    ensures r == Thrown("Uninitialized non-terminal: " + name)
    ensures cached == Error(LEFT_RECURSION, input.Loc())
  {
    var ctx := new PackratGrammarContext<T, R>();
    var proxy := ctx.Get(name);
    r := proxy.Invoke(input);
    cached := proxy.results[input.Loc()];
  }
}
