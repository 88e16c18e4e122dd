/**
 * Two helpers of the Kotlin example grammar (`examples/KotlinParser.kt`):
 * `LazyNamed`, the delegate that builds a rule on first access and names it
 * after its property, and `String.escape`, used to print tokens.  The
 * grammar itself is not part of this model.
 */
module KotlinExample {
  import opened Results
  import opened Basic
  import Escapes

  /**
   * `LazyNamed`: `storage` is `UNINITIALIZED` (None) until the first
   * `getValue`, and `generator` is dropped once it has run.
   */
  class LazyNamed<T, R> {
    var storage: Option<Parser<T, R>>
    var generator: Option<() -> Parser<T, R>>
    /** How many times the generator has been run. */
    ghost var generatorRuns: nat

    /** `lazyNamed(body)`. */
    constructor(body: () -> Parser<T, R>)
      ensures storage == None && generator == Some(body) && generatorRuns == 0
      ensures Valid()
    {
      storage := None;
      generator := Some(body);
      generatorRuns := 0;
    }

    /**
     * Exactly one of the two is set, and the generator has run once iff
     * the rule is stored.
     */
    ghost predicate Valid()
      reads this
    {
      (storage.None? <==> generator.Some?) &&
      (storage.None? ==> generatorRuns == 0) &&
      (storage.Some? ==> generatorRuns == 1)
    }

    /**
     * `getValue`: on first access, run the generator, name its rule after
     * the property, store it and drop the generator; afterwards, the stored
     * rule, without running anything.
     */
    method GetValue(propertyName: string) returns (p: Parser<T, R>)
      requires Valid()
      modifies this
      ensures Valid() && storage == Some(p) && generator == None
      ensures old(storage).Some? ==> p == old(storage).value && generatorRuns == old(generatorRuns)
      ensures old(storage).None? ==> p == Named(old(generator).value(), propertyName) && generatorRuns == 1
    {
      match storage {
        case None =>
          var rule := generator.value();
          generatorRuns := generatorRuns + 1;
          storage := Some(Named(rule, propertyName));
          generator := None;
          p := storage.value;
        case Some(stored) =>
          p := stored;
      }
    }
  }

  /** The first access builds the rule; a second access returns the same rule and runs nothing. */
  method AccessTwice<T, R>(body: () -> Parser<T, R>, name: string)
    returns (first: Parser<T, R>, second: Parser<T, R>)
    ensures first == second == Named(body(), name)
  {
    var cell := new LazyNamed(body);
    first := cell.GetValue(name);
    second := cell.GetValue(name);
    assert cell.generatorRuns == 1;
  }

  /** `Char.isLetterOrDigit`, for the ASCII letters and digits. */
  predicate IsLetterOrDigit(c: char)
  {
    'a' <= c <= 'z' || 'A' <= c <= 'Z' || '0' <= c <= '9'
  }

  /** What `escape` makes of one character. */
  function EscapeChar(c: char): (t: string)
    ensures IsLetterOrDigit(c) ==> t == [c]
  {
    if IsLetterOrDigit(c) then [c]
    else if c == '\t' then "\\t"
    else if c == '\n' then "\\n"
    else if c == '\U{8}' then "\\b"
    else if c == '\r' then "\\r"
    else if c == '"' then "\\\""
    else if c == '\'' then "\\'"
    else [c]
  }

  /** `String.escape` of the Kotlin example: `flatMap` of the table, joined. */
  function Escape(s: string): string
  {
    if s == [] then [] else EscapeChar(s[0]) + Escape(s[1..])
  }

  /** The example's table is the same as the library's, character by character. */
  lemma SameTableAsLibrary(c: char)
    ensures EscapeChar(c) == Escapes.EscapeChar(c)
  {
  }

  /** So the example's `escape` is the library's `escape`. */
  lemma {:induction false} SameAsLibraryEscape(s: string)
    ensures Escape(s) == Escapes.Escape(s)
  {
    SameAsEachEscape(s);
    Escapes.EscapeIsPerCharacter(s);
  }

  lemma {:induction false} SameAsEachEscape(s: string)
    ensures Escape(s) == Escapes.EscapeEach(s)
    decreases |s|
  {
    if s != [] {
      SameTableAsLibrary(s[0]);
      SameAsEachEscape(s[1..]);
    }
  }

  /** Letters and digits come through unchanged. */
  lemma {:induction false} EscapeKeepsLettersAndDigits(s: string)
    requires forall i :: 0 <= i < |s| ==> IsLetterOrDigit(s[i])
    ensures Escape(s) == s
    decreases |s|
  {
    if s != [] {
      EscapeKeepsLettersAndDigits(s[1..]);
    }
  }
}
