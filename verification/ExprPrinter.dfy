/** Call syntax written out: a printer for syntax trees that the parser reads back. */
module ExprPrinter {
  import opened Base
  import opened Text
  import opened Decimal
  import opened CoreExpr
  import opened ExprSyntax

  /** Call syntax before the call names are given a meaning. */
  datatype Tree =
    | TextTree(text: string)
    | IntTree(value: int)
    | FloatTree(digits: string)
    | WordTree(name: string)
    | CallTree(func: string, args: seq<Tree>)

  // ---------------------------------------------------------------- which trees have a text

  predicate AllIdentChars(s: string) {
    forall i :: 0 <= i < |s| ==> IsIdentChar(s[i])
  }

  /** An identifier that does not look like a number. */
  predicate Ident(s: string) {
    s != [] && AllIdentChars(s) && !IsDigit(s[0])
  }

  /** A numeral with a fraction, and nothing else. */
  predicate FloatText(s: string) {
    var n := NumeralLength(s);
    n > 0 && FractionLength(s[n..]) > 0 && n + FractionLength(s[n..]) == |s|
  }

  predicate Writable(t: Tree)
    decreases t
  {
    match t
    case TextTree(_) => true
    case IntTree(n) => I64_MIN <= n <= I64_MAX
    case FloatTree(d) => FloatText(d)
    case WordTree(name) => Ident(name)
    case CallTree(func, args) => Ident(func) && forall i :: 0 <= i < |args| ==> Writable(args[i])
  }

  // ---------------------------------------------------------------- printing and meaning

  function EscapeText(s: string): string {
    if s == [] then []
    else
      (match s[0]
       case '"' => ['\\', '"']
       case '\\' => ['\\', '\\']
       case '\n' => ['\\', 'n']
       case '\t' => ['\\', 't']
       case c => [c]) + EscapeText(s[1..])
  }

  function Print(t: Tree): string
    decreases t
  {
    match t
    case TextTree(text) => ['"'] + EscapeText(text) + ['"']
    case IntTree(n) => IntText(n)
    case FloatTree(d) => d
    case WordTree(name) => name
    case CallTree(func, args) => func + "(" + PrintAll(args) + ")"
  }

  /** Arguments separated by a comma and a space. */
  function PrintAll(ts: seq<Tree>): string
    decreases ts
  {
    if ts == [] then [] else if |ts| == 1 then Print(ts[0]) else Print(ts[0]) + ", " + PrintAll(ts[1..])
  }

  function Meaning(t: Tree): Option<Expr>
    decreases t
  {
    match t
    case TextTree(text) => Some(Text(text))
    case IntTree(n) => Some(Int(n))
    case FloatTree(d) => Some(Float(d))
    case WordTree(name) => Some(Word(name))
    case CallTree(func, args) =>
      match Meanings(args)
      case Some(es) => FromCall(func, es)
      case None => None
  }

  function Meanings(ts: seq<Tree>): Option<seq<Expr>>
    decreases ts
  {
    if ts == [] then Some([])
    else
      match Meaning(ts[0])
      case None => None
      case Some(e) =>
        match Meanings(ts[1..])
        case None => None
        case Some(es) => Some([e] + es)
  }

  // ---------------------------------------------------------------- tokens read back

  /** What may follow an expression: nothing, a comma or a closing parenthesis. */
  predicate Stops(k: string) {
    k == [] || k[0] == ',' || k[0] == ')'
  }

  lemma {:induction false} PrintingChar(c: char)
    requires IsIdentChar(c) || c == '"' || c == '(' || c == ')' || c == ',' || c == '-'
    ensures !IsSpace(c)
  {
    AsciiSpaces(c);
  }

  lemma {:induction false} NoSpaceToSkip(s: string)
    requires s == [] || IsIdentChar(s[0]) || s[0] == '"' || s[0] == '(' || s[0] == ')' || s[0] == ',' || s[0] == '-'
    ensures SkipWs(s) == Read((), s)
  {
    if s != [] {
      PrintingChar(s[0]);
    }
  }

  lemma {:induction false} SpaceSkipped(s: string)
    ensures SkipWs([' '] + s) == SkipWs(s)
  {
    AsciiSpaces(' ');
    assert ([' '] + s)[1..] == s;
  }

  lemma {:induction false} DigitsRead(a: string, k: string)
    requires AllDigits(a) && (k == [] || !IsDigit(k[0]))
    ensures DigitsLength(a + k) == |a|
  {
    if a == [] {
      assert a + k == k;
    } else {
      assert (a + k)[1..] == a[1..] + k;
      DigitsRead(a[1..], k);
    }
  }

  lemma {:induction false} IdentReads(a: string, k: string)
    requires AllIdentChars(a) && (k == [] || !IsIdentChar(k[0]))
    ensures IdentLength(a + k) == |a|
  {
    if a == [] {
      assert a + k == k;
    } else {
      assert (a + k)[1..] == a[1..] + k;
      IdentReads(a[1..], k);
    }
  }

  lemma {:induction false} EscapeReads(text: string, k: string)
    ensures StringBody(EscapeText(text) + ['"'] + k) == Read(text, k)
  {
    var s := EscapeText(text) + ['"'] + k;
    if text != [] {
      var rest := EscapeText(text[1..]) + ['"'] + k;
      EscapeReads(text[1..], k);
      assert text == [text[0]] + text[1..];
      if text[0] in ['"', '\\', '\n', '\t'] {
        assert s[2..] == rest;
      } else {
        assert s[1..] == rest;
      }
    } else {
      assert s[1..] == k;
    }
  }

  lemma {:induction false} IntTextNumeral(n: int)
    ensures Numeral(IntText(n)) && NumeralValue(IntText(n)) == n
    ensures IsDigit(IntText(n)[0]) || IntText(n)[0] == '-'
  {
    SpelledDec(if n < 0 then -n else n);
    if n < 0 {
      assert IntText(n)[1..] == Dec(-n);
    }
  }

  lemma {:induction false} NumeralReads(t: string, k: string)
    requires Numeral(t) && (k == [] || !IsDigit(k[0]))
    ensures NumeralLength(t + k) == |t|
  {
    if t[0] == '-' {
      assert (t + k)[1..] == t[1..] + k;
      DigitsRead(t[1..], k);
    } else {
      DigitsRead(t, k);
    }
  }

  lemma {:induction false} IntReads(n: int, k: string)
    requires I64_MIN <= n <= I64_MAX && Stops(k)
    ensures Number(IntText(n) + k) == Read(Some(Int(n)), k)
  {
    var t := IntText(n);
    IntTextNumeral(n);
    NumeralReads(t, k);
    assert (t + k)[..|t|] == t && (t + k)[|t|..] == k;
  }

  /** A float text splits into a numeral, a point and digits. */
  lemma {:induction false} FloatReads(d: string, k: string)
    requires FloatText(d) && Stops(k)
    ensures Number(d + k) == Read(Some(Float(d)), k)
  {
    var n := NumeralLength(d);
    var whole, fraction := d[..n], d[n..];
    assert d + k == whole + (fraction + k);
    NumeralReads(whole, fraction + k);
    assert (d + k)[n..] == fraction + k;
    FractionReads(fraction, k);
    assert (d + k)[..|d|] == d && (d + k)[|d|..] == k;
  }

  lemma {:induction false} FractionReads(f: string, k: string)
    requires FractionLength(f) > 0 && FractionLength(f) == |f| && Stops(k)
    ensures FractionLength(f + k) == |f|
  {
    assert DigitsLength(f[1..]) == |f[1..]| && f[1..][..|f[1..]|] == f[1..];
    DigitsRead(f[1..], k);
    assert (f + k)[1..] == f[1..] + k;
  }

  lemma {:induction false} NoNumber(s: string)
    requires s != [] && !IsDigit(s[0]) && s[0] != '-'
    ensures Number(s) == Read(None, s)
  {
  }

  // ---------------------------------------------------------------- trees read back

  function Reads<T>(meaning: Option<T>, k: string): Outcome<T> {
    match meaning case Some(x) => Read(x, k) case None => Rejected
  }

  lemma {:induction false} TextReads(text: string, k: string)
    ensures ParseExpr(['"'] + EscapeText(text) + ['"'] + k) == Read(Text(text), k)
  {
    var s := ['"'] + EscapeText(text) + ['"'] + k;
    NoSpaceToSkip(s);
    assert s[1..] == EscapeText(text) + ['"'] + k;
    EscapeReads(text, k);
  }

  lemma {:induction false} NumberReads(s: string, literal: Expr, k: string)
    requires s != [] && (IsDigit(s[0]) || s[0] == '-') && Number(s) == Read(Some(literal), k)
    ensures ParseExpr(s) == Read(literal, k)
  {
    NoSpaceToSkip(s);
  }

  lemma {:induction false} FloatHead(d: string)
    requires FloatText(d)
    ensures d != [] && (IsDigit(d[0]) || d[0] == '-')
  {
    var n := NumeralLength(d);
    assert Numeral(d[..n]);
  }

  lemma {:induction false} NamedReads(s: string)
    requires s != [] && IsIdentChar(s[0]) && !IsDigit(s[0])
    ensures ParseExpr(s) == ParseNamed(s)
  {
    NoSpaceToSkip(s);
    NoNumber(s);
  }

  lemma {:induction false} WordReads(name: string, k: string)
    requires Ident(name) && Stops(k)
    ensures ParseExpr(name + k) == Read(Word(name), k)
  {
    var s := name + k;
    NamedReads(s);
    IdentReads(name, k);
    assert s[..|name|] == name && s[|name|..] == k;
    NoSpaceToSkip(k);
  }

  lemma {:induction false} CallReads(func: string, args: string, es: Option<seq<Expr>>, k: string)
    requires Ident(func) && ParseArgs(args + ")" + k) == Reads(es, k)
    ensures ParseExpr(func + "(" + args + ")" + k) == Reads(if es.Some? then FromCall(func, es.value) else None, k)
  {
    var inside := args + ")" + k;
    assert func + "(" + args + ")" + k == func + (['('] + inside);
    NamedCallReads(func, inside, es, k);
    NamedReads(func + (['('] + inside));
  }

  lemma {:induction false} NamedCallReads(func: string, inside: string, es: Option<seq<Expr>>, k: string)
    requires Ident(func) && ParseArgs(inside) == Reads(es, k)
    ensures ParseNamed(func + (['('] + inside)) == Reads(if es.Some? then FromCall(func, es.value) else None, k)
  {
    var tail := ['('] + inside;
    var s := func + tail;
    IdentReads(func, tail);
    assert s[..|func|] == func && s[|func|..] == tail;
    NoSpaceToSkip(tail);
    assert tail[1..] == inside;
  }

  lemma {:induction false} LeadingSpace(s: string)
    ensures ParseExpr([' '] + s) == ParseExpr(s)
    ensures ParseArgList([' '] + s) == ParseArgList(s)
  {
    SpaceSkipped(s);
  }

  /** Reading a printed tree gives its meaning and leaves what follows. */
  lemma {:induction false} TreeReads(t: Tree, k: string)
    requires Writable(t) && Stops(k)
    ensures ParseExpr(Print(t) + k) == Reads(Meaning(t), k)
    decreases t
  {
    match t
    case TextTree(text) => TextReads(text, k);
    case IntTree(n) =>
      IntReads(n, k);
      IntTextNumeral(n);
      NumberReads(IntText(n) + k, Int(n), k);
    case FloatTree(d) =>
      FloatReads(d, k);
      FloatHead(d);
      NumberReads(d + k, Float(d), k);
    case WordTree(name) => WordReads(name, k);
    case CallTree(func, args) =>
      ArgsRead(args, k);
      CallReads(func, PrintAll(args), Meanings(args), k);
  }

  lemma {:induction false} ArgsRead(ts: seq<Tree>, k: string)
    requires forall i :: 0 <= i < |ts| ==> Writable(ts[i])
    ensures ParseArgs(PrintAll(ts) + ")" + k) == Reads(Meanings(ts), k)
    decreases ts, 1
  {
    var s := PrintAll(ts) + ")" + k;
    if ts == [] {
      assert s == [')'] + k && s[1..] == k;
      NoSpaceToSkip(s);
    } else {
      PrintHead(ts[0]);
      assert s[0] == Print(ts[0])[0];
      NoSpaceToSkip(s);
      ArgListReads(ts, k);
    }
  }

  lemma {:induction false} PrintHead(t: Tree)
    requires Writable(t)
    ensures Print(t) != [] && (IsIdentChar(Print(t)[0]) || Print(t)[0] == '"' || Print(t)[0] == '-')
  {
    match t
    case TextTree(_) =>
    case IntTree(n) => IntTextNumeral(n);
    case FloatTree(d) => FloatHead(d);
    case WordTree(_) =>
    case CallTree(_, _) =>
  }

  lemma {:induction false} LastArgReads(x: string, m: Option<Expr>, k: string)
    requires ParseExpr(x + ([')'] + k)) == Reads(m, [')'] + k)
    ensures ParseArgList(x + ")" + k) == Reads(if m.Some? then Some([m.value]) else None, k)
  {
    var tail := [')'] + k;
    assert x + ")" + k == x + tail;
    NoSpaceToSkip(tail);
    assert tail[1..] == k;
  }

  lemma {:induction false} FirstArgReads(x: string, m: Option<Expr>, others: string, ms: Option<seq<Expr>>, k: string)
    requires ParseExpr(x + ([','] + ([' '] + others))) == Reads(m, [','] + ([' '] + others))
    requires ParseArgList(others) == Reads(ms, k)
    ensures ParseArgList(x + ([','] + ([' '] + others))) ==
            Reads(if m.Some? && ms.Some? then Some([m.value] + ms.value) else None, k)
  {
    var tail := [','] + ([' '] + others);
    NoSpaceToSkip(tail);
    assert tail[1..] == [' '] + others;
    LeadingSpace(others);
  }

  lemma {:induction false} CommaText(x: string, y: string, k: string)
    ensures x + ", " + y + ")" + k == x + ([','] + ([' '] + (y + ")" + k)))
  {
  }

  lemma {:induction false} ArgListReads(ts: seq<Tree>, k: string)
    requires ts != [] && forall i :: 0 <= i < |ts| ==> Writable(ts[i])
    ensures ParseArgList(PrintAll(ts) + ")" + k) == Reads(Meanings(ts), k)
    decreases ts, 0
  {
    if |ts| == 1 {
      TreeReads(ts[0], [')'] + k);
      LastArgReads(Print(ts[0]), Meaning(ts[0]), k);
      assert ts[1..] == [] && Meanings([]) == Some([]);
      if Meaning(ts[0]).Some? {
        assert [Meaning(ts[0]).value] + [] == [Meaning(ts[0]).value];
      }
    } else {
      var others := PrintAll(ts[1..]) + ")" + k;
      TreeReads(ts[0], [','] + ([' '] + others));
      ArgListReads(ts[1..], k);
      FirstArgReads(Print(ts[0]), Meaning(ts[0]), others, Meanings(ts[1..]), k);
      CommaText(Print(ts[0]), PrintAll(ts[1..]), k);
    }
  }

  /** The whole parser on a printed tree: its meaning, or a rejection when it has none. */
  lemma {:induction false} PrintedTreeParses(t: Tree)
    requires Writable(t)
    ensures Parse(Print(t)) == Reads(Meaning(t), [])
  {
    TreeReads(t, []);
    assert Print(t) + [] == Print(t);
    NoSpaceToSkip([]);
  }
}
