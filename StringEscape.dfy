/**
 * `String.escape` (`wheels/StringEscape.kt`): six successive `replace`
 * calls that put a backslash before line feed, carriage return, backspace,
 * tab, double quote and single quote (the first four written as their
 * letters).  The backslash itself is left alone.
 */
module Escapes {
  /** `String.replace(old, new)` for a one-character `old`: every occurrence, left to right. */
  function Replace(s: string, c: char, with: string): (r: string)
  {
    if s == [] then []
    else (if s[0] == c then with else [s[0]]) + Replace(s[1..], c, with)
  }

  /** `escape` as written in `StringEscape.kt`: the chain of replacements. */
  function Escape(s: string): string
  {
    Replace(Replace(Replace(Replace(Replace(Replace(s,
      '\n', "\\n"), '\r', "\\r"), '\U{8}', "\\b"), '\t', "\\t"), '"', "\\\""), '\'', "\\'")
  }

  /** The characters `escape` rewrites. */
  predicate Escapable(c: char)
  {
    c == '\n' || c == '\r' || c == '\U{8}' || c == '\t' || c == '"' || c == '\''
  }

  /** What one character becomes: a backslash and its letter, or itself. */
  function EscapeChar(c: char): (t: string)
    ensures Escapable(c) ==> |t| == 2 && t[0] == '\\'
    ensures !Escapable(c) ==> t == [c]
  {
    match c
    case '\n' => "\\n"
    case '\r' => "\\r"
    case '\U{8}' => "\\b"
    case '\t' => "\\t"
    case '"' => "\\\""
    case '\'' => "\\'"
    case _ => [c]
  }

  /** Each character escaped on its own, in order. */
  function EscapeEach(s: string): string
  {
    if s == [] then [] else EscapeChar(s[0]) + EscapeEach(s[1..])
  }

  /** How many characters of `s` are rewritten. */
  function CountEscapable(s: string): (n: nat)
    ensures n <= |s|
  {
    if s == [] then 0 else (if Escapable(s[0]) then 1 else 0) + CountEscapable(s[1..])
  }

  // ------------------------------------------------------------- properties

  lemma {:induction false} ReplaceConcat(a: string, b: string, c: char, with: string)
    ensures Replace(a + b, c, with) == Replace(a, c, with) + Replace(b, c, with)
    decreases |a|
  {
    if a != [] {
      assert (a + b)[1..] == a[1..] + b;
      ReplaceConcat(a[1..], b, c, with);
    } else {
      assert a + b == b;
    }
  }

  /** A string without `c` is left as it is. */
  lemma {:induction false} ReplaceMisses(s: string, c: char, with: string)
    requires forall i :: 0 <= i < |s| ==> s[i] != c
    ensures Replace(s, c, with) == s
    decreases |s|
  {
    if s != [] {
      ReplaceMisses(s[1..], c, with);
    }
  }

  /** One replacement step on a single character, or on what it already became. */
  lemma ReplaceStep(x: char, c: char, with: string, done: bool)
    requires done ==> x != c && forall i :: 0 <= i < |EscapeChar(x)| ==> EscapeChar(x)[i] != c
    requires !done && x == c ==> with == EscapeChar(x)
    ensures var before := if done then EscapeChar(x) else [x];
            Replace(before, c, with) == if done || x == c then EscapeChar(x) else [x]
  {
    if done {
      ReplaceMisses(EscapeChar(x), c, with);
    }
  }

  /** The chain rewrites a single character as the table says. */
  lemma EscapeOne(x: char)
    ensures Escape([x]) == EscapeChar(x)
  {
    ReplaceStep(x, '\n', "\\n", false);
    ReplaceStep(x, '\r', "\\r", x == '\n');
    ReplaceStep(x, '\U{8}', "\\b", x == '\n' || x == '\r');
    ReplaceStep(x, '\t', "\\t", x == '\n' || x == '\r' || x == '\U{8}');
    ReplaceStep(x, '"', "\\\"", x == '\n' || x == '\r' || x == '\U{8}' || x == '\t');
    ReplaceStep(x, '\'', "\\'", x == '\n' || x == '\r' || x == '\U{8}' || x == '\t' || x == '"');
  }

  /** The chain distributes over concatenation, as each `replace` does. */
  lemma EscapeConcat(a: string, b: string)
    ensures Escape(a + b) == Escape(a) + Escape(b)
  {
    var s1, t1 := Replace(a, '\n', "\\n"), Replace(b, '\n', "\\n");
    ReplaceConcat(a, b, '\n', "\\n");
    var s2, t2 := Replace(s1, '\r', "\\r"), Replace(t1, '\r', "\\r");
    ReplaceConcat(s1, t1, '\r', "\\r");
    var s3, t3 := Replace(s2, '\U{8}', "\\b"), Replace(t2, '\U{8}', "\\b");
    ReplaceConcat(s2, t2, '\U{8}', "\\b");
    var s4, t4 := Replace(s3, '\t', "\\t"), Replace(t3, '\t', "\\t");
    ReplaceConcat(s3, t3, '\t', "\\t");
    var s5, t5 := Replace(s4, '"', "\\\""), Replace(t4, '"', "\\\"");
    ReplaceConcat(s4, t4, '"', "\\\"");
    ReplaceConcat(s5, t5, '\'', "\\'");
  }

  /**
   * The chain of replacements is the same as escaping each character on
   * its own: no `replace` rewrites what an earlier one wrote.
   */
  lemma {:induction false} EscapeIsPerCharacter(s: string)
    ensures Escape(s) == EscapeEach(s)
    decreases |s|
  {
    if s == [] {
    } else {
      assert s == [s[0]] + s[1..];
      EscapeConcat([s[0]], s[1..]);
      EscapeOne(s[0]);
      EscapeIsPerCharacter(s[1..]);
    }
  }

  /** A string with none of the six characters comes back unchanged. */
  lemma {:induction false} EscapeKeepsPlainText(s: string)
    requires forall i :: 0 <= i < |s| ==> !Escapable(s[i])
    ensures Escape(s) == s
  {
    EscapeEachKeepsPlainText(s);
    EscapeIsPerCharacter(s);
  }

  lemma {:induction false} EscapeEachKeepsPlainText(s: string)
    requires forall i :: 0 <= i < |s| ==> !Escapable(s[i])
    ensures EscapeEach(s) == s
    decreases |s|
  {
    if s != [] {
      EscapeEachKeepsPlainText(s[1..]);
    }
  }

  /** The result is one character longer for each rewritten character. */
  lemma {:induction false} EscapeLength(s: string)
    ensures |Escape(s)| == |s| + CountEscapable(s)
  {
    EscapeEachLength(s);
    EscapeIsPerCharacter(s);
  }

  lemma {:induction false} EscapeEachLength(s: string)
    ensures |EscapeEach(s)| == |s| + CountEscapable(s)
    decreases |s|
  {
    if s != [] {
      EscapeEachLength(s[1..]);
    }
  }

  /** The result holds no raw line feed, carriage return, backspace or tab. */
  lemma EscapeHasNoControls(s: string)
    ensures forall i :: 0 <= i < |Escape(s)| ==>
              Escape(s)[i] != '\n' && Escape(s)[i] != '\r' && Escape(s)[i] != '\U{8}' && Escape(s)[i] != '\t'
  {
    EscapeEachHasNoControls(s);
    EscapeIsPerCharacter(s);
  }

  lemma {:induction false} EscapeEachHasNoControls(s: string)
    ensures forall i :: 0 <= i < |EscapeEach(s)| ==>
              EscapeEach(s)[i] != '\n' && EscapeEach(s)[i] != '\r' && EscapeEach(s)[i] != '\U{8}' && EscapeEach(s)[i] != '\t'
    decreases |s|
  {
    if s != [] {
      EscapeEachHasNoControls(s[1..]);
      var h := EscapeChar(s[0]);
      assert forall i :: 0 <= i < |h| ==> h[i] != '\n' && h[i] != '\r' && h[i] != '\U{8}' && h[i] != '\t';
    }
  }

  /**
   * The backslash is not escaped, so two different strings can escape
   * alike: a backslash followed by `n`, and a line feed.
   */
  lemma EscapeIsNotInjective()
    ensures "\\n" != "\n" && Escape("\\n") == Escape("\n") == "\\n"
  {
    EscapeIsPerCharacter("\\n");
    EscapeIsPerCharacter("\n");
    assert EscapeEach("\\n") == EscapeChar('\\') + EscapeChar('n') + [];
  }
}
