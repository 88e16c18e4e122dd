/**
 * Named non-terminals (`parsers/Dsl.kt`): a grammar context maps names to
 * parsers, and a proxy parser looks its name up each time it is invoked,
 * so a proxy may be taken before its name is bound.
 */
module Dsl {
  import opened Inputs
  import opened Results

  /** The message of the `IllegalStateException` for an unbound name. */
  function UninitializedMessage(name: string): string
  {
    "Uninitialized non-terminal: " + name
  }

  /** `ProxyParser`: nothing but the name it stands for. */
  datatype ProxyParser = ProxyParser(name: string)
  {
    /** `description`: the non-terminal's name. */
    function Description(): (d: string)
      ensures d == name
    {
      name
    }
  }

  /** `SimpleGrammarContext`: the bindings made so far. */
  class SimpleGrammarContext<T, R> {
    var nonTerminals: map<string, Parser<T, R>>

    constructor()
      ensures nonTerminals == map[]
    {
      nonTerminals := map[];
    }

    /** `get`: a proxy for `name`, whether or not it is bound yet. */
    function Get(name: string): (p: ProxyParser)
      ensures p.Description() == name
    {
      ProxyParser(name)
    }

    /** `set`: binds `name`, replacing any earlier binding. */
    method Set(name: string, parser: Parser<T, R>)
      modifies this
      ensures nonTerminals == old(nonTerminals)[name := parser]
    {
      nonTerminals := nonTerminals[name := parser];
    }

    /**
     * `ProxyParser.invoke`: the parser bound to the proxy's name at the time
     * of the call, or the exception when the name is unbound.
     */
    function Invoke(proxy: ProxyParser, input: Input<T>): (r: Outcome<ParseResult<T, R>>)
      reads this
      ensures r.Returned? <==> proxy.name in nonTerminals
      ensures r.Returned? ==> r.value == nonTerminals[proxy.name](input)
      ensures r.Thrown? ==> r.message == UninitializedMessage(proxy.name)
    {
      if proxy.name in nonTerminals then Returned(nonTerminals[proxy.name](input))
      else Thrown(UninitializedMessage(proxy.name))
    }
  }

  /**
   * A proxy taken before its name is bound throws when invoked then, and
   * runs the binding made later; after a second `set` it runs the last one.
   */
  method ForwardReference<T, R>(name: string, first: Parser<T, R>, second: Parser<T, R>, input: Input<T>)
    returns (before: Outcome<ParseResult<T, R>>, afterFirst: Outcome<ParseResult<T, R>>, afterSecond: Outcome<ParseResult<T, R>>)
    ensures before == Thrown("Uninitialized non-terminal: " + name)
    ensures afterFirst == Returned(first(input))
    ensures afterSecond == Returned(second(input))
  {
    var ctx := new SimpleGrammarContext<T, R>();
    var proxy := ctx.Get(name);
    before := ctx.Invoke(proxy, input);
    ctx.Set(name, first);
    afterFirst := ctx.Invoke(proxy, input);
    ctx.Set(name, second);
    afterSecond := ctx.Invoke(proxy, input);
  }
}
