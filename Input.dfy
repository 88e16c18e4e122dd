/**
 * The positioned input of a parse: a token sequence with a cursor, and the
 * line/column location type used for character streams (`Input.kt`).
 */
module Inputs {

  /** A source position: file name, line and column (`Location` in `Input.kt`). */
  datatype Location = Location(source: string, line: int, col: int)
  {
    /** The location after consuming `code` (`Location.invoke`). */
    function Advance(code: char): (r: Location)
      ensures r.source == source
    {
      if code == '\n' then this.(line := line + 1, col := 0) else this.(col := col + 1)
    }
  }

  /** Advances a location over every character of `s`, left to right. */
  function AdvanceAll(loc: Location, s: string): (r: Location)
    decreases |s|
  {
    if s == [] then loc else AdvanceAll(loc.Advance(s[0]), s[1..])
  }

  /** Number of newline characters in `s`. */
  function Newlines(s: string): nat
  {
    if s == [] then 0 else (if s[0] == '\n' then 1 else 0) + Newlines(s[1..])
  }

  /** Number of characters after the last newline of `s` (all of `s` if it has none). */
  function TailLength(s: string): nat
  {
    if s == [] then 0
    else if s[|s| - 1] == '\n' then 0
    else TailLength(s[..|s| - 1]) + 1
  }

  lemma {:induction false} AdvanceAllSnoc(loc: Location, s: string, c: char)
    ensures AdvanceAll(loc, s + [c]) == AdvanceAll(loc, s).Advance(c)
    decreases |s|
  {
    if s == [] {
      assert s + [c] == [c];
    } else {
      assert (s + [c])[1..] == s[1..] + [c];
      AdvanceAllSnoc(loc.Advance(s[0]), s[1..], c);
    }
  }

  lemma {:induction false} NewlinesSnoc(s: string, c: char)
    ensures Newlines(s + [c]) == Newlines(s) + (if c == '\n' then 1 else 0)
    decreases |s|
  {
    if s == [] {
      assert s + [c] == [c];
    } else {
      assert (s + [c])[1..] == s[1..] + [c];
      NewlinesSnoc(s[1..], c);
    }
  }

  /**
   * Consuming a string moves the line forward by the number of newlines in it;
   * the column counts the characters after the last newline, starting from the
   * old column when there is none, and the source name never changes.
   */
  lemma {:induction false} AdvanceAllCounts(loc: Location, s: string)
    ensures AdvanceAll(loc, s).source == loc.source
    ensures AdvanceAll(loc, s).line == loc.line + Newlines(s)
    ensures AdvanceAll(loc, s).col ==
              (if Newlines(s) == 0 then loc.col + |s| else TailLength(s))
    decreases |s|
  {
    if s != [] {
      var init, c := s[..|s| - 1], s[|s| - 1];
      assert s == init + [c];
      AdvanceAllCounts(loc, init);
      AdvanceAllSnoc(loc, init, c);
      NewlinesSnoc(init, c);
    }
  }

  /**
   * The input of a parser: the whole token sequence and a cursor into it
   * (`StringInput`: the string and `offset`).  Parsers never mutate an
   * input; advancing returns a new value.
   */
  datatype Input<T> = Input(tokens: seq<T>, offset: nat)
  {
    /** The cursor lies within the tokens. */
    predicate Valid() { offset <= |tokens| }

    /** The tokens not yet consumed (`source`, `sourceAsString`); empty past the end. */
    function Source(): (r: seq<T>)
      ensures Valid() ==> r == tokens[offset..]
      ensures |r| == if Valid() then |tokens| - offset else 0
    {
      if offset <= |tokens| then tokens[offset..] else []
    }

    /** The location of a string input: column = offset, line 0 (`StringInput.location`). */
    function Loc(): (r: Location)
      ensures r.source == "<string>" && r.line == 0 && r.col == offset
    {
      Location("<string>", 0, offset)
    }

    /** One token forward (`StringInput.next`). */
    function Next(): (r: Input<T>)
      ensures r.tokens == tokens && r.offset == offset + 1
    {
      this.(offset := offset + 1)
    }

    /** `n` tokens forward, without clamping (`StringInput.drop`). */
    function Drop(n: nat): (r: Input<T>)
      ensures r.tokens == tokens && r.offset == offset + n
    {
      this.(offset := offset + n)
    }
  }

  function Min(a: int, b: int): int { if a <= b then a else b }

  /**
   * The interface's default `drop`: at most `n` calls to `next`, stopping as
   * soon as the source is empty.
   */
  method DefaultDrop<T>(input: Input<T>, n: nat) returns (res: Input<T>)
    requires input.Valid()
    ensures res.Valid() && res.tokens == input.tokens
    ensures res.offset == Min(input.offset + n, |input.tokens|)
  {
    res := input;
    var k := 0;
    while k < n
      invariant 0 <= k <= n
      invariant res.tokens == input.tokens && res.Valid()
      invariant res.offset == input.offset + k
    {
      if res.Source() == [] {
        return;
      }
      res := res.Next();
      k := k + 1;
    }
  }

  /** On an exhausted input the default `drop` changes nothing; `drop(0)` is the identity. */
  lemma DefaultDropIdentities<T>(input: Input<T>, n: nat)
    requires input.Valid()
    ensures input.Source() == [] ==> input.(offset := Min(input.offset + n, |input.tokens|)) == input
    ensures input.(offset := Min(input.offset + 0, |input.tokens|)) == input
  {
  }

  /**
   * `StringInput.drop` agrees with the default `drop` exactly when it stays
   * within the string; past the end it does not clamp.
   */
  lemma StringDropAgrees<T>(input: Input<T>, n: nat)
    requires input.Valid()
    ensures input.Drop(n).offset == Min(input.offset + n, |input.tokens|)
            <==> input.offset + n <= |input.tokens|
    ensures input.Drop(n).Valid() <==> input.offset + n <= |input.tokens|
  {
  }

  /**
   * `SubSequence` of `Input.kt`: a view of `seq[from..to]`.
   */
  datatype SubSequence = SubSequence(chars: string, from: int, to: int)
  {
    predicate Valid() { 0 <= from <= to <= |chars| }

    function Length(): (n: int)
      ensures Valid() ==> n == |Contents()|
    {
      to - from
    }

    function Contents(): string
      requires Valid()
    {
      chars[from..to]
    }

    function Get(index: int): (c: char)
      requires Valid() && 0 <= index < Length()
      ensures c == Contents()[index]
    {
      chars[from + index]
    }

    /** `subSequence` as written: the new end is `to - endIndex`. */
    function SubSequenceAsWritten(startIndex: int, endIndex: int): SubSequence
    {
      SubSequence(chars, from + startIndex, to - endIndex)
    }

    /** `subSequence` with the end measured from `from`, like `startIndex`. */
    function SubView(startIndex: int, endIndex: int): (r: SubSequence)
      requires Valid() && 0 <= startIndex <= endIndex <= Length()
      ensures r.Valid() && r.Contents() == Contents()[startIndex..endIndex]
    {
      SubSequence(chars, from + startIndex, from + endIndex)
    }
  }

  /** "Hello"[1..3] taken from the whole-string view gives "e" instead of "el". */
  lemma SubSequenceAsWrittenWrongEnd()
    ensures var whole := SubSequence("Hello", 0, 5);
            whole.SubSequenceAsWritten(1, 3).Valid() &&
            whole.SubSequenceAsWritten(1, 3).Contents() == "e" &&
            whole.SubView(1, 3).Contents() == "el"
  {
    var whole := SubSequence("Hello", 0, 5);
    assert whole.SubSequenceAsWritten(1, 3) == SubSequence("Hello", 1, 2);
    assert "Hello"[1..2] == "e";
    assert "Hello"[1..3] == "el";
  }
}
