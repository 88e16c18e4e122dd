/**
 * The abstract syntax of TIP, the small imperative language of the TIP
 * example (`examples/tip/Ast.kt`), and its pretty-printer: expressions,
 * statements, blocks, functions and programs, each with `pprint`.
 * Line separators are written as a line feed.
 */
module Ast {
  import opened Strings
  import opened Results

  /** Kotlin's `Int`. */
  type Int32 = x: int | -0x8000_0000 <= x < 0x8000_0000

  datatype BinaryOperator = PLUS | MINUS | MULT | DIV | GT | EQ
  {
    /** `rep`, the operator's symbol, which is what `pprint` prints. */
    function Rep(): (r: string)
      ensures 1 <= |r| <= 2
    {
      match this
      case PLUS => "+"
      case MINUS => "-"
      case MULT => "*"
      case DIV => "/"
      case GT => ">"
      case EQ => "=="
    }

    /** The enum constant's name, which `toString` prints. */
    function Name(): string
    {
      match this
      case PLUS => "PLUS"
      case MINUS => "MINUS"
      case MULT => "MULT"
      case DIV => "DIV"
      case GT => "GT"
      case EQ => "EQ"
    }
  }

  /** `InCall.function` is named `callee` here, `function` being a keyword. */
  datatype Expr =
    | Constant(value: Int32)
    | Variable(name: string)
    | Binary(lhv: Expr, op: BinaryOperator, rhv: Expr)
    | Input
    | Load(ptr: Expr)
    | Alloc
    | TakePtr(variable: string)
    | Null
    | Call(fname: string, args: seq<Expr>)
    | InCall(callee: Expr, args: seq<Expr>)

  datatype Block = Block(statements: seq<Stmt>)

  datatype Stmt =
    | Assignment(name: string, value: Expr)
    | Output(expr: Expr)
    | If(condition: Expr, trueBranch: Block, falseBranch: Option<Block>)
    | While(condition: Expr, body: Block)
    | Store(name: string, value: Expr)

  datatype Function = Function(name: string, args: seq<string>, vars: seq<string>, body: Block, ret: Expr)

  datatype Program = Program(functions: seq<Function>)

  // ------------------------------------------------------------ expressions

  /** `pprint` of an expression. */
  function Pprint(e: Expr): string
  {
    match e
    case Constant(v) => IntToString(v)
    case Variable(name) => name
    case Binary(l, op, r) => "(" + Pprint(l) + " " + op.Rep() + " " + Pprint(r) + ")"
    case Input => "input"
    case Load(p) => "*(" + Pprint(p) + ")"
    case Alloc => "alloc"
    case TakePtr(v) => "&(" + v + ")"
    case Null => "null"
    case Call(f, args) => f + "(" + ShowArgs(args) + ")"
    case InCall(g, args) => "(" + Pprint(g) + ")(" + ShowArgs(args) + ")"
  }

  /**
   * `toString` of an expression: the data-class rendering, `Input` for
   * `Input`, and `Null` for both `Null` and `Alloc`.  `Call` and `InCall`
   * print their arguments this way.
   */
  function Show(e: Expr): string
  {
    match e
    case Constant(v) => "Constant(value=" + IntToString(v) + ")"
    case Variable(name) => "Variable(name=" + name + ")"
    case Binary(l, op, r) => "Binary(lhv=" + Show(l) + ", op=" + op.Name() + ", rhv=" + Show(r) + ")"
    case Input => "Input"
    case Load(p) => "Load(ptr=" + Show(p) + ")"
    case Alloc => "Null"
    case TakePtr(v) => "TakePtr(variable=" + v + ")"
    case Null => "Null"
    case Call(f, args) => "Call(fname=" + f + ", args=[" + ShowArgs(args) + "])"
    case InCall(g, args) => "InCall(function=" + Show(g) + ", args=[" + ShowArgs(args) + "])"
  }

  /** `joinToString(", ")` of the arguments' `toString`s. */
  function ShowArgs(args: seq<Expr>): string
  {
    if args == [] then ""
    else if |args| == 1 then Show(args[0])
    else Show(args[0]) + ", " + ShowArgs(args[1..])
  }

  // ------------------------------------------------------------------ lines

  /**
   * `lines()`: the text cut at each line feed.  There is always at least
   * one line, and a final line feed leaves an empty last line.
   */
  function Lines(s: string): (ls: seq<string>)
    ensures |ls| >= 1
    ensures forall i :: 0 <= i < |ls| ==> '\n' !in ls[i]
  {
    if s == [] then [""]
    else if s[0] == '\n' then [""] + Lines(s[1..])
    else var rest := Lines(s[1..]); [[s[0]] + rest[0]] + rest[1..]
  }

  /** `Char.isWhitespace`: the controls 9-13 and 28-31, and the Unicode space, line and paragraph separators. */
  predicate IsWhitespace(c: char)
  {
    c == ' ' || '\t' <= c <= '\r' || '\U{1C}' <= c <= '\U{1F}' || c == '\U{A0}' || c == '\U{1680}' ||
    '\U{2000}' <= c <= '\U{200A}' || c == '\U{2028}' || c == '\U{2029}' || c == '\U{202F}' ||
    c == '\U{205F}' || c == '\U{3000}'
  }

  /** `isBlank`: nothing but whitespace. */
  predicate IsBlank(l: string)
  {
    forall i :: 0 <= i < |l| ==> IsWhitespace(l[i])
  }

  /**
   * What `prependIndent` makes of one line: a non-blank line gets the
   * indent in front; a blank line shorter than the indent becomes the
   * indent, and a longer one is kept.
   */
  function IndentLine(l: string, indent: string): string
  {
    if IsBlank(l) then (if |l| < |indent| then indent else l) else indent + l
  }

  function IndentAll(ls: seq<string>, indent: string): (r: seq<string>)
    ensures |r| == |ls|
  {
    seq(|ls|, i requires 0 <= i < |ls| => IndentLine(ls[i], indent))
  }

  /** `prependIndent(indent)`: every line of the text indented, joined again with line feeds. */
  function PrependIndent(s: string, indent: string): string
  {
    Join(IndentAll(Lines(s), indent), "\n")
  }

  // ------------------------------------------------------ statements, blocks

  /** `pprint` of a statement. */
  function PprintStmt(s: Stmt): string
  {
    match s
    case Assignment(name, value) => name + " = " + Pprint(value) + ";"
    case Output(e) => "output " + Pprint(e) + ";"
    case If(c, t, f) => "if (" + Pprint(c) + ") " + PprintBlock(t) + " " + (if f.Some? then PprintBlock(f.value) else "")
    case While(c, body) => "while (" + Pprint(c) + ") " + PprintBlock(body)
    case Store(name, value) => "*" + name + " = " + Pprint(value)
  }

  /** The printed statements of a list, in order. */
  function PprintStmts(ss: seq<Stmt>): (ps: seq<string>)
    ensures |ps| == |ss|
  {
    if ss == [] then [] else PprintStmts(ss[..|ss| - 1]) + [PprintStmt(ss[|ss| - 1])]
  }

  /**
   * `pprint` of a block: an opening brace and a line feed, the statements
   * one after another on their own lines indented by three spaces, and the
   * closing brace right after the last of them.
   */
  function PprintBlock(b: Block): string
  {
    "{\n" + PrependIndent(Join(PprintStmts(b.statements), "\n"), "   ") + "}"
  }

  // -------------------------------------------------------------- functions

  /** The first line of `Function.pprint`: the name and the arguments. */
  function Header(f: Function): string
  {
    f.name + " (" + Join(f.args, ", ") + ") {"
  }

  /** The declaration of the local variables, separated by bare commas. */
  function VarLine(vars: seq<string>): string
  {
    "var " + Join(vars, ",") + ";"
  }

  function ReturnLine(f: Function): string
  {
    "return " + Pprint(f.ret) + ";"
  }

  /** The declaration line, present only when there are local variables. */
  function Decl(f: Function): seq<string>
  {
    if |f.vars| > 0 then [VarLine(f.vars)] else []
  }

  /** Each text followed by a line feed, as `appendln` writes it. */
  function Terminated(ps: seq<string>): string
  {
    if ps == [] then "" else Terminated(ps[..|ps| - 1]) + ps[|ps| - 1] + "\n"
  }

  /** The lines of each text, one text after another. */
  function LinesOfAll(ps: seq<string>): seq<string>
  {
    if ps == [] then [] else LinesOfAll(ps[..|ps| - 1]) + Lines(ps[|ps| - 1])
  }

  /** The body of a function before it is indented: the declaration and the statements, each on its own line, then the return. */
  function BodyText(f: Function): string
  {
    Terminated(Decl(f) + PprintStmts(f.body.statements)) + ReturnLine(f)
  }

  /** A header line, a body indented by four spaces, and a closing brace on a line of its own. */
  function Framed(header: string, body: string): string
  {
    header + "\n" + PrependIndent(body, "    ") + "\n" + "}\n"
  }

  /** The text `Function.pprint` builds. */
  function FunctionText(f: Function): string
  {
    Framed(Header(f), BodyText(f))
  }

  /** The lines of a function's body: declaration, statements, return. */
  function BodyLines(f: Function): seq<string>
  {
    LinesOfAll(Decl(f) + PprintStmts(f.body.statements)) + Lines(ReturnLine(f))
  }

  /**
   * `Function.pprint`: the header line into one buffer; the declaration
   * line, each statement and the return line into a second buffer, which
   * is appended indented by four spaces; then a line feed and the closing
   * brace on its own line.
   */
  method PprintFunction(f: Function) returns (text: string)
    ensures text == FunctionText(f)
    ensures Lines(text) == Lines(Header(f)) + IndentAll(BodyLines(f), "    ") + ["}", ""]
  {
    var sb := Header(f) + "\n";
    var sbody := PprintBody(f);
    sb := sb + PrependIndent(sbody, "    ");
    sb := sb + "\n";
    sb := sb + "}\n";
    text := sb;
    FunctionTextLines(f);
  }

  /** The inner buffer of `Function.pprint`: declaration, statements, return. */
  method PprintBody(f: Function) returns (sbody: string)
    ensures sbody == BodyText(f)
  {
    sbody := "";
    if |f.vars| > 0 {
      sbody := sbody + VarLine(f.vars) + "\n";
    }
    var statements := f.body.statements;
    var i := 0;
    while i < |statements|
      invariant 0 <= i <= |statements|
      invariant sbody == Terminated(Decl(f) + PprintStmts(statements[..i]))
    {
      var line := PprintStmt(statements[i]);
      PprintStmtsSnoc(statements, i);
      TerminatedSnoc(Decl(f) + PprintStmts(statements[..i]), line);
      assert Decl(f) + PprintStmts(statements[..i + 1]) == Decl(f) + PprintStmts(statements[..i]) + [line];
      sbody := sbody + line + "\n";
      i := i + 1;
    }
    assert statements[..i] == statements;
    sbody := sbody + ReturnLine(f);
  }

  /** `Program.pprint`: the functions' texts joined with line feeds. */
  function PprintProgram(p: Program): string
  {
    Join(FunctionTexts(p.functions), "\n")
  }

  function FunctionTexts(fs: seq<Function>): (ts: seq<string>)
    ensures |ts| == |fs|
  {
    if fs == [] then [] else [FunctionText(fs[0])] + FunctionTexts(fs[1..])
  }

  // ------------------------------------------------------ lines, properties

  /** A text without line feeds is one line. */
  lemma {:induction false} OneLine(s: string)
    requires '\n' !in s
    ensures Lines(s) == [s]
  {
    if s != [] {
      OneLine(s[1..]);
      assert s == [s[0]] + s[1..];
    }
  }

  /** Cutting at a line feed: the lines before it, then the lines after it. */
  lemma {:induction false} LinesConcat(a: string, b: string)
    ensures Lines(a + "\n" + b) == Lines(a) + Lines(b)
  {
    if a == [] {
      assert a + "\n" + b == "\n" + b;
    } else {
      assert (a + "\n" + b)[1..] == a[1..] + "\n" + b;
      LinesConcat(a[1..], b);
    }
  }

  /** Joining the lines back with line feeds gives the text again. */
  lemma {:induction false} JoinLines(s: string)
    ensures Join(Lines(s), "\n") == s
  {
    if s != [] {
      JoinLines(s[1..]);
      var rest := Lines(s[1..]);
      if s[0] == '\n' {
        assert Join(Lines(s), "\n") == "" + "\n" + Join(rest, "\n");
      } else {
        var ls := Lines(s);
        assert ls[1..] == rest[1..];
        if |rest| == 1 {
          assert Join(ls, "\n") == [s[0]] + rest[0];
        } else {
          assert Join(ls, "\n") == [s[0]] + rest[0] + "\n" + Join(rest[1..], "\n");
        }
        assert s == [s[0]] + s[1..];
      }
    }
  }

  /** Cutting a join of line-feed-free lines gives those lines back. */
  lemma {:induction false} LinesJoin(ls: seq<string>)
    requires |ls| >= 1
    requires forall i :: 0 <= i < |ls| ==> '\n' !in ls[i]
    ensures Lines(Join(ls, "\n")) == ls
    decreases |ls|
  {
    OneLine(ls[0]);
    if |ls| > 1 {
      LinesJoin(ls[1..]);
      LinesConcat(ls[0], Join(ls[1..], "\n"));
      assert ls == [ls[0]] + ls[1..];
    }
  }

  /** Every line of `prependIndent`'s result is one line of its argument, indented. */
  lemma PrependIndentLines(s: string, indent: string)
    requires '\n' !in indent
    ensures Lines(PrependIndent(s, indent)) == IndentAll(Lines(s), indent)
  {
    var ls := IndentAll(Lines(s), indent);
    forall i | 0 <= i < |ls|
      ensures '\n' !in ls[i]
    {
      assert '\n' !in Lines(s)[i];
    }
    LinesJoin(ls);
  }

  lemma TerminatedSnoc(ps: seq<string>, p: string)
    ensures Terminated(ps + [p]) == Terminated(ps) + p + "\n"
  {
    assert (ps + [p])[..|ps|] == ps;
  }

  lemma PprintStmtsSnoc(ss: seq<Stmt>, i: nat)
    requires i < |ss|
    ensures PprintStmts(ss[..i + 1]) == PprintStmts(ss[..i]) + [PprintStmt(ss[i])]
  {
    assert ss[..i + 1][..i] == ss[..i];
  }

  /** The lines of terminated texts followed by more text. */
  lemma {:induction false} TerminatedLines(ps: seq<string>, r: string)
    ensures Lines(Terminated(ps) + r) == LinesOfAll(ps) + Lines(r)
    decreases |ps|
  {
    if ps != [] {
      var init, p := ps[..|ps| - 1], ps[|ps| - 1];
      assert Terminated(ps) == Terminated(init) + p + "\n";
      assert Terminated(ps) + r == Terminated(init) + (p + "\n" + r);
      TerminatedLines(init, p + "\n" + r);
      LinesConcat(p, r);
      assert LinesOfAll(ps) == LinesOfAll(init) + Lines(p);
      assert LinesOfAll(init) + (Lines(p) + Lines(r)) == (LinesOfAll(init) + Lines(p)) + Lines(r);
    } else {
      assert Terminated(ps) + r == r;
    }
  }

  /** Texts without line feeds are a line each. */
  lemma {:induction false} LinesOfOneLineEach(ps: seq<string>)
    requires forall i :: 0 <= i < |ps| ==> '\n' !in ps[i]
    ensures LinesOfAll(ps) == ps
    decreases |ps|
  {
    if ps != [] {
      var init := ps[..|ps| - 1];
      LinesOfOneLineEach(init);
      OneLine(ps[|ps| - 1]);
      assert ps == init + [ps[|ps| - 1]];
    }
  }

  /** The lines of the body text are the declaration's, the statements' and the return's. */
  lemma BodyTextLines(f: Function)
    ensures Lines(BodyText(f)) == BodyLines(f)
  {
    TerminatedLines(Decl(f) + PprintStmts(f.body.statements), ReturnLine(f));
  }

  /** The lines of a framed body: the header's, the body's indented, the brace, and an empty last line. */
  lemma FramedLines(header: string, body: string)
    ensures Lines(Framed(header, body)) == Lines(header) + IndentAll(Lines(body), "    ") + ["}", ""]
  {
    var indented := PrependIndent(body, "    ");
    assert Framed(header, body) == header + "\n" + (indented + "\n" + "}\n");
    LinesConcat(header, indented + "\n" + "}\n");
    ClosingLines(indented);
    PrependIndentLines(body, "    ");
  }

  /** A text, then a line holding the closing brace and a final line feed. */
  lemma ClosingLines(x: string)
    ensures Lines(x + "\n" + "}\n") == Lines(x) + ["}", ""]
  {
    LinesConcat(x, "}\n");
    assert "}\n" == "}" + "\n" + "";
    LinesConcat("}", "");
    OneLine("}");
  }

  /**
   * The printed function, line by line: the header, every body line
   * indented by four spaces, the closing brace, and the empty line after
   * the final line feed.
   */
  lemma FunctionTextLines(f: Function)
    ensures Lines(FunctionText(f)) == Lines(Header(f)) + IndentAll(BodyLines(f), "    ") + ["}", ""]
  {
    FramedLines(Header(f), BodyText(f));
    BodyTextLines(f);
  }

  /** A line that `prependIndent` simply indents: no line feed, not blank. */
  predicate SingleLine(l: string)
  {
    '\n' !in l && !IsBlank(l)
  }

  /** Lines that are neither blank nor broken are each indented in front. */
  lemma IndentSingleLines(ls: seq<string>, indent: string)
    requires forall i :: 0 <= i < |ls| ==> SingleLine(ls[i])
    ensures forall i :: 0 <= i < |ls| ==> IndentAll(ls, indent)[i] == indent + ls[i]
  {
  }

  /** The statements' texts, one per statement and in order. */
  lemma {:induction false} PprintStmtsAt(ss: seq<Stmt>)
    ensures forall i :: 0 <= i < |ss| ==> PprintStmts(ss)[i] == PprintStmt(ss[i])
    decreases |ss|
  {
    if ss != [] {
      PprintStmtsAt(ss[..|ss| - 1]);
    }
  }

  /**
   * A framed body whose parts and return line are one line each: the
   * header, each part and the return indented, the brace, an empty line.
   */
  lemma FramedOneLineEach(header: string, parts: seq<string>, ret: string)
    requires '\n' !in header && SingleLine(ret)
    requires forall i :: 0 <= i < |parts| ==> SingleLine(parts[i])
    ensures var ls := Lines(Framed(header, Terminated(parts) + ret));
            |ls| == |parts| + 4 && ls[0] == header &&
            (forall i :: 0 <= i < |parts| ==> ls[1 + i] == "    " + parts[i]) &&
            ls[|parts| + 1] == "    " + ret && ls[|parts| + 2] == "}" && ls[|parts| + 3] == ""
  {
    FramedLines(header, Terminated(parts) + ret);
    TerminatedLines(parts, ret);
    OneLine(header);
    OneLine(ret);
    LinesOfOneLineEach(parts);
    IndentSingleLines(parts + [ret], "    ");
  }

  /** The same, with the parts split into an optional declaration and the statements. */
  lemma FramedDeclAndStatements(header: string, decl: seq<string>, ps: seq<string>, ret: string)
    requires '\n' !in header && SingleLine(ret) && |decl| <= 1
    requires forall i :: 0 <= i < |decl| ==> SingleLine(decl[i])
    requires forall i :: 0 <= i < |ps| ==> SingleLine(ps[i])
    ensures var ls, v, n := Lines(Framed(header, Terminated(decl + ps) + ret)), |decl|, |ps|;
            |ls| == v + n + 4 && ls[0] == header &&
            (v == 1 ==> ls[1] == "    " + decl[0]) &&
            (forall i :: 0 <= i < n ==> ls[1 + v + i] == "    " + ps[i]) &&
            ls[1 + v + n] == "    " + ret && ls[v + n + 2] == "}" && ls[v + n + 3] == ""
  {
    var parts := decl + ps;
    assert forall i :: 0 <= i < |parts| ==> SingleLine(parts[i]);
    FramedOneLineEach(header, parts, ret);
    assert forall i :: 0 <= i < |ps| ==> parts[|decl| + i] == ps[i];
    assert |decl| == 1 ==> parts[0] == decl[0];
  }

  /**
   * When the header, the declaration and every statement print on one
   * line each, the function prints as: the header; the declaration (if any
   * variables); one line per statement, in order (`PprintStmtsAt`); the
   * return line; each of those indented by four spaces; then the closing
   * brace and a final line feed.
   */
  lemma FunctionLinesOneStatementEach(f: Function)
    requires '\n' !in Header(f)
    requires |f.vars| > 0 ==> '\n' !in VarLine(f.vars)
    requires '\n' !in Pprint(f.ret)
    requires forall i :: 0 <= i < |f.body.statements| ==> SingleLine(PprintStmts(f.body.statements)[i])
    ensures var ls, v, ps := Lines(FunctionText(f)), |Decl(f)|, PprintStmts(f.body.statements);
            |ls| == v + |ps| + 4 && ls[0] == Header(f) &&
            (v == 1 ==> ls[1] == "    " + VarLine(f.vars)) &&
            (forall i :: 0 <= i < |ps| ==> ls[1 + v + i] == "    " + ps[i]) &&
            ls[1 + v + |ps|] == "    " + ReturnLine(f) && ls[v + |ps| + 2] == "}" && ls[v + |ps| + 3] == ""
  {
    var ss := f.body.statements;
    var ps := PprintStmts(ss);
    assert !IsBlank(ReturnLine(f)) by { assert !IsWhitespace(ReturnLine(f)[0]); }
    if |f.vars| > 0 {
      assert !IsBlank(VarLine(f.vars)) by { assert !IsWhitespace(VarLine(f.vars)[0]); }
    }
    var h, d, r := Header(f), Decl(f), ReturnLine(f);
    assert FunctionText(f) == Framed(h, Terminated(d + ps) + r);
    FramedDeclAndStatements(h, d, ps, r);
  }

  /** Functions are printed one after another; each ends with a line feed, so an empty line separates them. */
  lemma {:induction false} ProgramLines(fs: seq<Function>)
    requires |fs| >= 1
    ensures Lines(PprintProgram(Program(fs))) == FunctionLinesOf(fs)
    decreases |fs|
  {
    if |fs| > 1 {
      var rest := PprintProgram(Program(fs[1..]));
      assert PprintProgram(Program(fs)) == FunctionText(fs[0]) + "\n" + rest;
      LinesConcat(FunctionText(fs[0]), rest);
      ProgramLines(fs[1..]);
    }
  }

  /** The lines of each function's text, one function after another. */
  function FunctionLinesOf(fs: seq<Function>): seq<string>
  {
    if fs == [] then [] else Lines(FunctionText(fs[0])) + FunctionLinesOf(fs[1..])
  }

  /** An empty block prints its indent on the line between the braces. */
  lemma EmptyBlockText()
    ensures PprintBlock(Block([])) == "{\n   }"
  {
    assert Join([], "\n") == "";
    assert Lines("") == [""];
    assert IsBlank("");
  }

  /** `Store` prints as the assignment through the pointer, without the final semicolon. */
  lemma StoreDropsSemicolon(name: string, value: Expr)
    ensures PprintStmt(Assignment(name, value)) == PprintStmt(Store(name, value))[1..] + ";"
  {
    assert PprintStmt(Store(name, value)) == "*" + (name + " = " + Pprint(value));
  }

  /**
   * An `If` prints its false branch right after the true branch and a
   * space, without an `else`; with no false branch, the text ends in that
   * space.
   */
  lemma IfPrintsNoElse(c: Expr, t: Block, f: Block)
    ensures PprintStmt(If(c, t, Some(f))) == PprintStmt(If(c, t, None)) + PprintBlock(f)
    ensures var s := PprintStmt(If(c, t, None)); s[|s| - 1] == ' '
  {
  }

  /** A constant prints as its decimal value, with a minus sign when negative. */
  lemma ConstantPrintsDecimal(v: Int32)
    ensures var s := Pprint(Constant(v)); var digits := if v < 0 then s[1..] else s;
            (v < 0 <==> s[0] == '-') &&
            (forall i :: 0 <= i < |digits| ==> '0' <= digits[i] <= '9') &&
            DigitsValue(digits) == if v < 0 then -(v as int) else v as int
  {
    var s := Pprint(Constant(v));
    if v < 0 {
      assert s == "-" + NatToString(-(v as int));
      assert s[1..] == NatToString(-(v as int));
    } else {
      assert s == NatToString(v);
    }
  }

  /**
   * `Call` prints its arguments with `toString`, not `pprint`: a call of
   * `f` on `x` and `alloc` prints the data-class rendering of `x`, and
   * `alloc` shows as `Null`.
   */
  lemma CallShowsArguments()
    ensures Pprint(Call("f", [Variable("x"), Alloc])) == "f(Variable(name=x), Null)"
  {
    var args := [Variable("x"), Alloc];
    assert ShowArgs(args[1..]) == "Null";
    assert ShowArgs(args) == "Variable(name=x)" + ", " + "Null";
  }

  /** `Alloc` and `Null` print differently but show alike. */
  lemma AllocShowsAsNull()
    ensures Show(Alloc) == Show(Null) && Pprint(Alloc) != Pprint(Null)
  {
  }

  /** Different operators print different symbols. */
  lemma RepIsInjective(a: BinaryOperator, b: BinaryOperator)
    ensures a.Rep() == b.Rep() <==> a == b
  {
  }
}
