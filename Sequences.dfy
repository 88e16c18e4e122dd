/**
 * Character and token sequence views (`wheels/AbstractCharSequence.kt`,
 * `wheels/TokenSequence.kt`): sub-sequence views that keep offsets into an
 * underlying sequence, and wrappers that present a char sequence as a list
 * or as a token sequence and back.  Tokens are characters here, which is
 * the instance the wrappers between the two families exist for.
 *
 * Every `get` may throw; it answers an `Outcome`.  A view is `Valid` when
 * each of its indices below its length can be read, and then `Contents` is
 * what it shows.
 */
module Sequences {
  import opened Results

  const INDEX_OUT_OF_BOUNDS := "IndexOutOfBoundsException"
  const INT_MAX_VALUE := 0x7FFF_FFFF

  /** A Kotlin `CharSequence`. */
  datatype CharSeq =
    | KString(s: string)                                // a plain `String`
    | CharSubSequence(base: CharSeq, from: int, to: int)
    | ListAsCharSequence(list: CharList)
    | TokenSequenceAsCharSequence(tokens: TokenSeq)
  {
    /** `length`. */
    function Length(): int
      decreases this, 0
    {
      match this
      case KString(s) => |s|
      case CharSubSequence(_, from, to) => to - from
      case ListAsCharSequence(list) => list.Size()
      case TokenSequenceAsCharSequence(tokens) => tokens.Length()
    }

    /**
     * `get`: a view checks its index against its own length, then reads the
     * underlying sequence at `from + index`.  The check is written here with
     * the length excluded; see `CharSubGetAsWritten` for the check as the
     * source has it.
     */
    function Get(index: int): Outcome<char>
      decreases this, 0
    {
      match this
      case KString(s) => if 0 <= index < |s| then Returned(s[index]) else Thrown(INDEX_OUT_OF_BOUNDS)
      case CharSubSequence(base, from, to) =>
        if !(0 <= index < to - from) then Thrown(INDEX_OUT_OF_BOUNDS) else base.Get(from + index)
      case ListAsCharSequence(list) => list.Get(index)
      case TokenSequenceAsCharSequence(tokens) => tokens.Get(index)
    }

    /**
     * `subSequence`: a `CharSubSequence` checks only the end index and
     * returns one flat view over its own underlying sequence; a `String`
     * cuts itself; any other sequence is wrapped in a new view.
     */
    function SubSequence(startIndex: int, endIndex: int): Outcome<CharSeq>
    {
      match this
      case KString(s) =>
        if 0 <= startIndex <= endIndex <= |s| then Returned(KString(s[startIndex..endIndex]))
        else Thrown(INDEX_OUT_OF_BOUNDS)
      case CharSubSequence(base, from, to) =>
        if !(0 <= endIndex <= to - from) then Thrown(INDEX_OUT_OF_BOUNDS)
        else Returned(CharSubSequence(base, from + startIndex, from + endIndex))
      case _ => Returned(CharSubSequence(this, startIndex, endIndex))
    }

    /** Every index below the length can be read. */
    predicate Valid()
      decreases this, 1
    {
      match this
      case KString(_) => true
      case CharSubSequence(base, from, to) => base.Valid() && 0 <= from <= to <= base.Length()
      case ListAsCharSequence(list) => list.Valid()
      case TokenSequenceAsCharSequence(tokens) => tokens.Valid()
    }

    /** The characters a valid sequence shows. */
    function Contents(): (c: string)
      requires Valid()
      ensures |c| == Length()
      decreases this, 2
    {
      match this
      case KString(s) => s
      case CharSubSequence(base, from, to) => base.Contents()[from..to]
      case ListAsCharSequence(list) => list.Contents()
      case TokenSequenceAsCharSequence(tokens) => tokens.Contents()
    }
  }

  /** A Kotlin `List<Char>`. */
  datatype CharList =
    | KList(elems: seq<char>)                           // any other list
    | CharSequenceAsList(chars: CharSeq)
  {
    /** `size`. */
    function Size(): int
      decreases this, 0
    {
      match this
      case KList(elems) => |elems|
      case CharSequenceAsList(chars) => chars.Length()
    }

    /** `get`. */
    function Get(index: int): Outcome<char>
      decreases this, 0
    {
      match this
      case KList(elems) => if 0 <= index < |elems| then Returned(elems[index]) else Thrown(INDEX_OUT_OF_BOUNDS)
      case CharSequenceAsList(chars) => chars.Get(index)
    }

    /** `subList`: over a char sequence, a list over a flattened view of it. */
    function SubList(fromIndex: int, toIndex: int): Outcome<CharList>
    {
      match this
      case KList(elems) =>
        if 0 <= fromIndex <= toIndex <= |elems| then Returned(KList(elems[fromIndex..toIndex]))
        else Thrown(INDEX_OUT_OF_BOUNDS)
      case CharSequenceAsList(chars) =>
        match EthemeralSubSequence(chars, fromIndex, toIndex)
        case Returned(view) => Returned(CharSequenceAsList(view))
        case Thrown(m) => Thrown(m)
    }

    predicate Valid()
      decreases this, 1
    {
      match this
      case KList(_) => true
      case CharSequenceAsList(chars) => chars.Valid()
    }

    function Contents(): (c: string)
      requires Valid()
      ensures |c| == Size()
      decreases this, 2
    {
      match this
      case KList(elems) => elems
      case CharSequenceAsList(chars) => chars.Contents()
    }
  }

  /** A Kotlin `TokenSequence<Char>`. */
  datatype TokenSeq =
    | TokenSubSequence(base: TokenSeq, from: int, to: int)
    | CharSequenceAsTokenSequence(chars: CharSeq)
    | ListAsTokenSequence(list: CharList)
    | SequenceAsTokenSequence(elements: seq<char>, emptyToken: char)
  {
    /** `length`: a lazily read sequence claims `Int.MAX_VALUE`. */
    function Length(): int
      decreases this, 0
    {
      match this
      case TokenSubSequence(_, from, to) => to - from
      case CharSequenceAsTokenSequence(chars) => chars.Length()
      case ListAsTokenSequence(list) => list.Size()
      case SequenceAsTokenSequence(_, _) => INT_MAX_VALUE
    }

    /** `get`: past the end of a lazily read sequence comes the fill token. */
    function Get(index: int): Outcome<char>
      decreases this, 0
    {
      match this
      case TokenSubSequence(base, from, to) =>
        if !(0 <= index < to - from) then Thrown(INDEX_OUT_OF_BOUNDS) else base.Get(from + index)
      case CharSequenceAsTokenSequence(chars) => chars.Get(index)
      case ListAsTokenSequence(list) => list.Get(index)
      case SequenceAsTokenSequence(elements, emptyToken) =>
        if 0 <= index < |elements| then Returned(elements[index]) else Returned(emptyToken)
    }

    /** `subSequence`: flattened for a `TokenSubSequence`, a new view otherwise. */
    function SubSequence(startIndex: int, endIndex: int): Outcome<TokenSeq>
    {
      match this
      case TokenSubSequence(base, from, to) =>
        if !(0 <= endIndex <= to - from) then Thrown(INDEX_OUT_OF_BOUNDS)
        else Returned(TokenSubSequence(base, from + startIndex, from + endIndex))
      case _ => Returned(TokenSubSequence(this, startIndex, endIndex))
    }

    predicate Valid()
      decreases this, 1
    {
      match this
      case TokenSubSequence(base, from, to) => base.Valid() && 0 <= from <= to <= base.Length()
      case CharSequenceAsTokenSequence(chars) => chars.Valid()
      case ListAsTokenSequence(list) => list.Valid()
      case SequenceAsTokenSequence(_, _) => true
    }

    function Contents(): (c: string)
      requires Valid()
      ensures |c| == Length()
      decreases this, 2
    {
      match this
      case TokenSubSequence(base, from, to) => base.Contents()[from..to]
      case CharSequenceAsTokenSequence(chars) => chars.Contents()
      case ListAsTokenSequence(list) => list.Contents()
      case SequenceAsTokenSequence(elements, emptyToken) =>
        seq(INT_MAX_VALUE, i requires 0 <= i < INT_MAX_VALUE => if i < |elements| then elements[i] else emptyToken)
    }
  }

  /** `ethemeralSubSequence`: a flat view whatever the receiver. */
  function EthemeralSubSequence(c: CharSeq, startIndex: int, endIndex: int): Outcome<CharSeq>
  {
    if c.CharSubSequence? then c.SubSequence(startIndex, endIndex)
    else Returned(CharSubSequence(c, startIndex, endIndex))
  }

  /** `CharSequence.asTokenSequence`: unwraps a token sequence shown as chars. */
  function AsTokenSequence(c: CharSeq): TokenSeq
  {
    if c.TokenSequenceAsCharSequence? then c.tokens else CharSequenceAsTokenSequence(c)
  }

  /** `TokenSequence<Char>.asCharSequence`: unwraps a char sequence shown as tokens. */
  function AsCharSequence(t: TokenSeq): CharSeq
  {
    if t.CharSequenceAsTokenSequence? then t.chars else TokenSequenceAsCharSequence(t)
  }

  /** `List<Char>.asCharSequence`: unwraps a char sequence shown as a list. */
  function ListAsChars(l: CharList): CharSeq
  {
    if l.CharSequenceAsList? then l.chars else ListAsCharSequence(l)
  }

  /** `CharSequence.asCharList`: unwraps a list shown as chars. */
  function AsCharList(c: CharSeq): CharList
  {
    if c.ListAsCharSequence? then c.list else CharSequenceAsList(c)
  }

  /** `List<T>.asTokenSequence`. */
  function ListAsTokens(l: CharList): (t: TokenSeq)
    ensures t.Length() == l.Size()
    ensures forall i :: t.Get(i) == l.Get(i)
  {
    ListAsTokenSequence(l)
  }

  /** `Sequence<Char>.toCharSequence`, with U+FFFF as the default fill. */
  function ToCharSequence(elements: seq<char>, fillChar: char := '\U{FFFF}'): CharSeq
  {
    AsCharSequence(SequenceAsTokenSequence(elements, fillChar))
  }

  // ------------------------------------------------------------- properties

  /** A valid sequence reads its contents at every index below its length. */
  lemma {:induction false} CharGetReadsContents(c: CharSeq, i: int)
    requires c.Valid() && 0 <= i < c.Length()
    ensures c.Get(i) == Returned(c.Contents()[i])
    decreases c, 0
  {
    match c
    case KString(_) =>
    case CharSubSequence(base, from, to) => CharGetReadsContents(base, from + i);
    case ListAsCharSequence(list) => ListGetReadsContents(list, i);
    case TokenSequenceAsCharSequence(tokens) => TokenGetReadsContents(tokens, i);
  }

  lemma {:induction false} ListGetReadsContents(l: CharList, i: int)
    requires l.Valid() && 0 <= i < l.Size()
    ensures l.Get(i) == Returned(l.Contents()[i])
    decreases l, 0
  {
    match l
    case KList(_) =>
    case CharSequenceAsList(chars) => CharGetReadsContents(chars, i);
  }

  lemma {:induction false} TokenGetReadsContents(t: TokenSeq, i: int)
    requires t.Valid() && 0 <= i < t.Length()
    ensures t.Get(i) == Returned(t.Contents()[i])
    decreases t, 0
  {
    match t
    case TokenSubSequence(base, from, to) => TokenGetReadsContents(base, from + i);
    case CharSequenceAsTokenSequence(chars) => CharGetReadsContents(chars, i);
    case ListAsTokenSequence(list) => ListGetReadsContents(list, i);
    case SequenceAsTokenSequence(_, _) =>
  }

  /**
   * A view checks its index against its length: reading at an index outside
   * `0 until length` throws, whatever it views.
   */
  lemma CharSubGetOutside(base: CharSeq, from: int, to: int, i: int)
    requires !(0 <= i < to - from)
    ensures CharSubSequence(base, from, to).Get(i).Thrown?
  {
  }

  /**
   * `subSequence` of a valid sequence within its bounds gives a valid view
   * of exactly that slice; a `CharSubSequence` answers with a view over its
   * own underlying sequence, never a view of a view.
   */
  lemma CharSubSequenceSlices(c: CharSeq, a: int, b: int)
    requires c.Valid() && 0 <= a <= b <= c.Length()
    ensures c.SubSequence(a, b).Returned?
    ensures var r := c.SubSequence(a, b).value;
            r.Valid() && r.Contents() == c.Contents()[a..b] &&
            (c.CharSubSequence? ==> r.CharSubSequence? && r.base == c.base)
  {
    match c
    case CharSubSequence(base, from, to) =>
      SliceOfSlice(base.Contents(), from, to, a, b);
      assert c.SubSequence(a, b).value == CharSubSequence(base, from + a, from + b);
    case KString(s) =>
    case _ =>
      assert c.SubSequence(a, b).value == CharSubSequence(c, a, b);
  }

  /** The same for token sequences. */
  lemma TokenSubSequenceSlices(t: TokenSeq, a: int, b: int)
    requires t.Valid() && 0 <= a <= b <= t.Length()
    ensures t.SubSequence(a, b).Returned?
    ensures var r := t.SubSequence(a, b).value;
            r.Valid() && r.Contents() == t.Contents()[a..b] &&
            (t.TokenSubSequence? ==> r.TokenSubSequence? && r.base == t.base)
  {
    if t.TokenSubSequence? {
      SliceOfSlice(t.base.Contents(), t.from, t.to, a, b);
    }
  }

  /** A slice of a slice is one slice of the whole. */
  lemma SliceOfSlice<X>(s: seq<X>, i: int, j: int, a: int, b: int)
    requires 0 <= i <= j <= |s| && 0 <= a <= b <= j - i
    ensures s[i..j][a..b] == s[i + a..i + b]
  {
    forall k | 0 <= k < b - a
      ensures s[i..j][a..b][k] == s[i + a..i + b][k]
    {
    }
  }

  /** A `CharSubSequence` checks only the end index: a negative start gets through. */
  lemma CharSubSequenceChecksOnlyEnd(base: CharSeq, from: int, to: int, a: int, b: int)
    requires 0 <= b <= to - from
    ensures CharSubSequence(base, from, to).SubSequence(a, b) == Returned(CharSubSequence(base, from + a, from + b))
  {
  }

  /**
   * `CharSequenceAsList.subList` never nests views: over a sequence that is
   * not itself a view of a view, the list's sequence is a view of a plain
   * sequence.
   */
  lemma SubListIsFlat(c: CharSeq, a: int, b: int)
    requires !(c.CharSubSequence? && c.base.CharSubSequence?)
    ensures var r := CharSequenceAsList(c).SubList(a, b);
            r.Returned? ==> r.value.CharSequenceAsList? && r.value.chars.CharSubSequence? &&
                            !r.value.chars.base.CharSubSequence?
  {
  }

  /** Wrapping as tokens shows the same characters at every index. */
  lemma AsTokenSequenceKeepsReads(c: CharSeq)
    ensures AsTokenSequence(c).Length() == c.Length()
    ensures forall i :: AsTokenSequence(c).Get(i) == c.Get(i)
    ensures AsTokenSequence(c).Valid() == c.Valid()
    ensures c.Valid() ==> AsTokenSequence(c).Contents() == c.Contents()
  {
  }

  /** Wrapping as chars shows the same characters at every index. */
  lemma AsCharSequenceKeepsReads(t: TokenSeq)
    ensures AsCharSequence(t).Length() == t.Length()
    ensures forall i :: AsCharSequence(t).Get(i) == t.Get(i)
    ensures AsCharSequence(t).Valid() == t.Valid()
    ensures t.Valid() ==> AsCharSequence(t).Contents() == t.Contents()
  {
  }

  /**
   * Char sequence to tokens and back gives the very same sequence, except
   * for a char wrapper around a token wrapper, which `asCharSequence` never
   * builds.
   */
  lemma CharTokenRoundTrip(c: CharSeq)
    ensures AsCharSequence(AsTokenSequence(c)) == c <==>
            !(c.TokenSequenceAsCharSequence? && c.tokens.CharSequenceAsTokenSequence?)
  {
    if c.TokenSequenceAsCharSequence? && c.tokens.CharSequenceAsTokenSequence? {
      NotInsideItself(c.tokens.chars);
    }
  }

  /** Tokens to chars and back, likewise. */
  lemma TokenCharRoundTrip(t: TokenSeq)
    ensures AsTokenSequence(AsCharSequence(t)) == t <==>
            !(t.CharSequenceAsTokenSequence? && t.chars.TokenSequenceAsCharSequence?)
  {
    if t.CharSequenceAsTokenSequence? && t.chars.TokenSequenceAsCharSequence? {
      NotInsideItself(t.chars);
    }
  }

  /** No sequence is found inside two wrappers around itself. */
  lemma {:induction false} NotInsideItself(c: CharSeq)
    ensures TokenSequenceAsCharSequence(CharSequenceAsTokenSequence(c)) != c
    ensures c.TokenSequenceAsCharSequence? ==> CharSequenceAsTokenSequence(TokenSequenceAsCharSequence(c.tokens)) != c.tokens
    ensures ListAsCharSequence(CharSequenceAsList(c)) != c
    ensures c.ListAsCharSequence? ==> CharSequenceAsList(ListAsCharSequence(c.list)) != c.list
  {
    match c
    case TokenSequenceAsCharSequence(tokens) =>
      if tokens.CharSequenceAsTokenSequence? {
        NotInsideItself(tokens.chars);
      }
    case ListAsCharSequence(list) =>
      if list.CharSequenceAsList? {
        NotInsideItself(list.chars);
      }
    case _ =>
  }

  /** Char sequence to list and back gives the same sequence, with the same exception. */
  lemma CharListRoundTrip(c: CharSeq)
    ensures ListAsChars(AsCharList(c)) == c <==>
            !(c.ListAsCharSequence? && c.list.CharSequenceAsList?)
  {
    if c.ListAsCharSequence? && c.list.CharSequenceAsList? {
      NotInsideItself(c.list.chars);
    }
  }

  /** List to char sequence and back, likewise. */
  lemma ListCharRoundTrip(l: CharList)
    ensures AsCharList(ListAsChars(l)) == l <==>
            !(l.CharSequenceAsList? && l.chars.ListAsCharSequence?)
  {
    if l.CharSequenceAsList? && l.chars.ListAsCharSequence? {
      NotInsideItself(l.chars);
    }
  }

  /** The list view and the char view read the same characters. */
  lemma ListViewsKeepReads(c: CharSeq, l: CharList)
    ensures AsCharList(c).Size() == c.Length() && forall i :: AsCharList(c).Get(i) == c.Get(i)
    ensures ListAsChars(l).Length() == l.Size() && forall i :: ListAsChars(l).Get(i) == l.Get(i)
  {
  }

  /** A lazily read sequence shows its elements, then the fill character for ever. */
  lemma ToCharSequenceReads(elements: seq<char>, fillChar: char, i: int)
    ensures ToCharSequence(elements, fillChar).Length() == INT_MAX_VALUE
    ensures 0 <= i < |elements| ==> ToCharSequence(elements, fillChar).Get(i) == Returned(elements[i])
    ensures |elements| <= i ==> ToCharSequence(elements, fillChar).Get(i) == Returned(fillChar)
  {
  }

  // -------------------------------------------------------------- toString

  /**
   * `AbstractCharSequence.toString`: appends `get(0)` .. `get(length - 1)`
   * in order; the first read that throws ends it with that exception.
   */
  method CharToString(c: CharSeq) returns (r: Outcome<string>)
    ensures r.Returned? <==> forall i :: 0 <= i < c.Length() ==> c.Get(i).Returned?
    ensures r.Returned? ==> |r.value| == if c.Length() < 0 then 0 else c.Length()
    ensures r.Returned? ==> forall i :: 0 <= i < |r.value| ==> c.Get(i) == Returned(r.value[i])
    ensures c.Valid() ==> r == Returned(c.Contents())
  {
    var sb: string := "";
    var i := 0;
    var n := c.Length();
    while i < n
      invariant 0 <= i <= (if n < 0 then 0 else n)
      invariant |sb| == i
      invariant forall j :: 0 <= j < i ==> c.Get(j) == Returned(sb[j])
      invariant c.Valid() ==> sb == c.Contents()[..i]
    {
      var g := c.Get(i);
      if g.Thrown? {
        if c.Valid() {
          CharGetReadsContents(c, i);
        }
        assert !c.Get(i).Returned?;
        return Thrown(g.message);
      }
      if c.Valid() {
        CharGetReadsContents(c, i);
        assert c.Contents()[..i + 1] == c.Contents()[..i] + [g.value];
      }
      sb := sb + [g.value];
      i := i + 1;
    }
    if c.Valid() {
      assert c.Contents()[..i] == c.Contents();
    }
    return Returned(sb);
  }

  /** `AbstractTokenSequence.toString`, the same loop over a token sequence. */
  method TokenToString(t: TokenSeq) returns (r: Outcome<string>)
    ensures r.Returned? <==> forall i :: 0 <= i < t.Length() ==> t.Get(i).Returned?
    ensures r.Returned? ==> |r.value| == if t.Length() < 0 then 0 else t.Length()
    ensures r.Returned? ==> forall i :: 0 <= i < |r.value| ==> t.Get(i) == Returned(r.value[i])
    ensures t.Valid() ==> r == Returned(t.Contents())
  {
    var sb: string := "";
    var i := 0;
    var n := t.Length();
    while i < n
      invariant 0 <= i <= (if n < 0 then 0 else n)
      invariant |sb| == i
      invariant forall j :: 0 <= j < i ==> t.Get(j) == Returned(sb[j])
      invariant t.Valid() ==> sb == t.Contents()[..i]
    {
      var g := t.Get(i);
      if g.Thrown? {
        if t.Valid() {
          TokenGetReadsContents(t, i);
        }
        assert !t.Get(i).Returned?;
        return Thrown(g.message);
      }
      if t.Valid() {
        TokenGetReadsContents(t, i);
        assert t.Contents()[..i + 1] == t.Contents()[..i] + [g.value];
      }
      sb := sb + [g.value];
      i := i + 1;
    }
    if t.Valid() {
      assert t.Contents()[..i] == t.Contents();
    }
    assert forall j :: 0 <= j < t.Length() ==> t.Get(j) == Returned(sb[j]);
    return Returned(sb);
  }

  /** `CharSubSequence("Hello", 1, 3).toString() == "el"`. */
  method HelloSlice() returns (r: Outcome<string>)
    ensures r == Returned("el")
  {
    var view := CharSubSequence(KString("Hello"), 1, 3);
    assert view.Contents() == "el";
    r := CharToString(view);
  }

  // ------------------------------------------------ the index check as written

  /**
   * `CharSubSequence.get` as written in `AbstractCharSequence.kt`: the check `index !in
   * 0..length` lets `index == length` through, to the underlying sequence.
   */
  function CharSubGetAsWritten(base: CharSeq, from: int, to: int, index: int): Outcome<char>
  {
    if !(0 <= index <= to - from) then Thrown(INDEX_OUT_OF_BOUNDS) else base.Get(from + index)
  }

  /** `TokenSubSequence.get` as written in `TokenSequence.kt`, with the same check. */
  function TokenSubGetAsWritten(base: TokenSeq, from: int, to: int, index: int): Outcome<char>
  {
    if !(0 <= index <= to - from) then Thrown(INDEX_OUT_OF_BOUNDS) else base.Get(from + index)
  }

  /** The view `"el"` of `"Hello"` answers index 2, its length, with `'l'` instead of throwing. */
  lemma CharSubGetReadsPastEnd()
    ensures CharSubSequence(KString("Hello"), 1, 3).Length() == 2
    ensures CharSubGetAsWritten(KString("Hello"), 1, 3, 2) == Returned('l')
    ensures CharSubSequence(KString("Hello"), 1, 3).Get(2).Thrown?
  {
  }

  /** The same for tokens. */
  lemma TokenSubGetReadsPastEnd()
    ensures TokenSubSequence(ListAsTokenSequence(KList("Hello")), 1, 3).Length() == 2
    ensures TokenSubGetAsWritten(ListAsTokenSequence(KList("Hello")), 1, 3, 2) == Returned('l')
    ensures TokenSubSequence(ListAsTokenSequence(KList("Hello")), 1, 3).Get(2).Thrown?
  {
  }

  /** Below the length, the check as written and the corrected one agree. */
  lemma SubGetAgreesBelowLength(c: CharSeq, t: TokenSeq, from: int, to: int, i: int)
    requires i != to - from
    ensures CharSubGetAsWritten(c, from, to, i) == CharSubSequence(c, from, to).Get(i)
    ensures TokenSubGetAsWritten(t, from, to, i) == TokenSubSequence(t, from, to).Get(i)
  {
  }

  // ------------------------------------------------ the wrappers of `Input.kt`

  /**
   * `StringAsList` of `Input.kt`: the characters of a char sequence shown as
   * a list; `size` is the sequence's length and `get` reads it.
   */
  datatype StringAsList = StringAsList(inner: string)
  {
    function Size(): int
    {
      |inner|
    }

    /** `get`: the sequence's own `get`, which throws outside its indices. */
    function Get(index: int): (r: Outcome<char>)
      ensures r.Returned? <==> 0 <= index < Size()
      ensures r.Returned? ==> r.value == inner[index]
    {
      if 0 <= index < |inner| then Returned(inner[index]) else Thrown(INDEX_OUT_OF_BOUNDS)
    }

    /** `toString`: `joinToString(prefix = "[", postfix = "]", separator = ", ")`. */
    function ToString(): string
    {
      "[" + CommaJoined(inner) + "]"
    }
  }

  /** The characters separated by `", "`. */
  function CommaJoined(w: string): (r: string)
    ensures |r| == if |w| == 0 then 0 else 3 * |w| - 2
    ensures forall i :: 0 <= i < |w| ==> r[3 * i] == w[i] && (i > 0 ==> r[3 * i - 2] == ',' && r[3 * i - 1] == ' ')
  {
    if |w| <= 1 then w else [w[0]] + ", " + CommaJoined(w[1..])
  }

  /**
   * `ListAsCharseq` of `Input.kt`: a list of characters shown as a char
   * sequence; `length` is the list's size, `get` reads the list.
   */
  datatype ListAsCharseq = ListAsCharseq(inner: seq<char>)
  {
    function Length(): int
    {
      |inner|
    }

    function Get(index: int): (r: Outcome<char>)
      ensures r.Returned? <==> 0 <= index < Length()
      ensures r.Returned? ==> r.value == inner[index]
    {
      if 0 <= index < |inner| then Returned(inner[index]) else Thrown(INDEX_OUT_OF_BOUNDS)
    }

    /** `subSequence`: the list's `subList`, which throws on bounds out of order or out of range. */
    function SubSequence(startIndex: int, endIndex: int): (r: Outcome<ListAsCharseq>)
      ensures r.Returned? <==> 0 <= startIndex <= endIndex <= Length()
      ensures r.Returned? ==> r.value.Length() == endIndex - startIndex &&
                              forall i :: 0 <= i < endIndex - startIndex ==> r.value.Get(i) == Get(startIndex + i)
    {
      if 0 <= startIndex <= endIndex <= |inner| then Returned(ListAsCharseq(inner[startIndex..endIndex]))
      else Thrown(INDEX_OUT_OF_BOUNDS)
    }

    /** `toString`: `joinToString("")`, the characters themselves. */
    function ToString(): string
    {
      inner
    }
  }

  /**
   * A string shown as a list and that list shown as a char sequence have
   * the string's length and characters, and the char sequence prints as
   * the string again.
   */
  lemma InputWrappersKeepCharacters(w: string)
    ensures var l := StringAsList(w);
            var c := ListAsCharseq(l.inner);
            l.Size() == |w| && c.Length() == |w| &&
            (forall i :: l.Get(i) == c.Get(i)) &&
            c.ToString() == w
  {
  }

  /** A string shown as a list prints as its characters between brackets, separated by `", "`. */
  lemma StringAsListShowsCharacters(w: string)
    ensures var shown := StringAsList(w).ToString();
            |shown| == (if |w| == 0 then 2 else 3 * |w|) &&
            forall i :: 0 <= i < |w| ==> shown[3 * i + 1] == w[i]
  {
    var joined := CommaJoined(w);
    forall i | 0 <= i < |w| ensures StringAsList(w).ToString()[3 * i + 1] == w[i] {
      Bracketed(joined, 3 * i);
    }
    Bracketed(joined, 0);
  }

  /** Between brackets, every character moves one place to the right. */
  lemma Bracketed(j: string, k: nat)
    ensures |"[" + j + "]"| == |j| + 2
    ensures k < |j| ==> ("[" + j + "]")[k + 1] == j[k]
  {
  }
}
