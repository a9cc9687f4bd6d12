/** When the expression parser panics: it steps over white space byte by byte, and so stops dead at
    a white space character that is wider than a byte, unless a string literal holds it. */
module ExprPanics {
  import opened Text
  import opened Decimal
  import opened CoreExpr
  import opened ExprSyntax

  /** White space that takes more than one byte. */
  predicate IsWide(c: char) {
    IsSpace(c) && c as int >= 0x80
  }

  // ---------------------------------------------------------------- blanks in place of wide white space

  /** The text with a blank for every wide white space character outside its string literals, found by
      a scan from left to right over quotes and backslashes. */
  function Narrow(s: string): (r: string)
    ensures |r| == |s|
    decreases |s|
  {
    if s == [] then []
    else if s[0] == '"' then ['"'] + NarrowIn(s[1..])
    else [if IsWide(s[0]) then ' ' else s[0]] + Narrow(s[1..])
  }

  /** The same, starting inside a string literal. */
  function NarrowIn(s: string): (r: string)
    ensures |r| == |s|
    decreases |s|
  {
    if s == [] then []
    else if s[0] == '"' then ['"'] + Narrow(s[1..])
    else if s[0] == '\\' && |s| > 1 then s[..2] + NarrowIn(s[2..])
    else [s[0]] + NarrowIn(s[1..])
  }

  lemma {:induction false} NarrowPlain(s: string)
    requires s != [] && s[0] != '"' && !IsWide(s[0])
    ensures Narrow(s)[0] == s[0] && Narrow(s)[1..] == Narrow(s[1..])
  {
  }

  lemma {:induction false} WideIsSpace(s: string)
    requires s != [] && IsWide(s[0])
    ensures Narrow(s)[0] == ' ' && Narrow(s)[0] != s[0]
  {
    AsciiSpaces(s[0]);
  }

  /** The narrow form never stops the skipping. */
  lemma {:induction false} NarrowHasNoWide(s: string)
    ensures SkipWs(Narrow(s)).Read?
  {
    if s != [] && s[0] != '"' {
      NarrowHasNoWide(s[1..]);
      AsciiSpaces(s[0]);
      assert Narrow(s)[1..] == Narrow(s[1..]);
    } else if s != [] {
      AsciiSpaces(s[0]);
    }
  }

  // ---------------------------------------------------------------- following the narrow form

  /** The last `k` characters. */
  function Last(s: string, k: nat): string
    requires k <= |s|
  {
    s[|s| - k..]
  }

  /** Nothing wide lies in front of the last `k` characters, outside literals. */
  predicate Clean(s: string, k: nat)
    requires k <= |s|
  {
    Narrow(s)[..|s| - k] == s[..|s| - k]
  }

  /** In front of the last `k` characters the scan is outside every literal. */
  predicate Outside(s: string, k: nat)
    requires k <= |s|
  {
    Narrow(Last(s, k)) == Last(Narrow(s), k)
  }

  /** What the parser makes of a text `s`, given what it makes of its narrow form and what that leaves: it
      panics if something wide lies before that, and otherwise does the same. */
  ghost predicate Follows<T(!new)>(o: Outcome<T>, narrow: Outcome<T>, left: string, s: string) {
    && narrow != Panicked && |left| <= |s| && left == Last(Narrow(s), |left|)
    && (narrow.Read? ==> narrow.rest == left && Outside(s, |left|))
    && o == if !Clean(s, |left|) then Panicked
            else if narrow.Read? then Read(narrow.value, Last(s, |left|)) else Rejected
  }

  lemma {:induction false} LastOfLast(s: string, j: nat, k: nat)
    requires j <= k <= |s|
    ensures Last(Last(s, k), j) == Last(s, j)
    ensures Last(s, k)[..k - j] == s[|s| - k..|s| - j]
  {
  }

  lemma {:induction false} CleanSplits(s: string, j: nat, k: nat)
    requires j <= k <= |s| && Outside(s, k)
    ensures Clean(s, j) <==> Clean(s, k) && Clean(Last(s, k), j)
  {
    var m, a, b := Narrow(s), |s| - k, |s| - j;
    LastOfLast(s, j, k);
    LastOfLast(m, j, k);
    assert m[..b] == m[..a] + m[a..b] && s[..b] == s[..a] + s[a..b];
  }

  /** Going on from a position outside every literal. */
  lemma {:induction false} Then<T(!new)>(s: string, k: nat, o: Outcome<T>, narrow: Outcome<T>, left: string)
    requires k <= |s| && Outside(s, k) && Follows(o, narrow, left, Last(s, k))
    ensures Follows(if Clean(s, k) then o else Panicked, narrow, left, s)
  {
    CleanSplits(s, |left|, k);
    LastOfLast(s, |left|, k);
    LastOfLast(Narrow(s), |left|, k);
  }

  /** Stopping at once. */
  lemma {:induction false} StopsHere<T(!new)>(s: string, narrow: Outcome<T>)
    requires narrow.Rejected? || (narrow.Read? && narrow.rest == Narrow(s))
    ensures Follows(if narrow.Read? then Read(narrow.value, s) else Rejected, narrow, Narrow(s), s)
  {
    assert Last(s, |s|) == s && Last(Narrow(s), |s|) == Narrow(s);
    assert Narrow(s)[..0] == s[..0];
  }

  lemma {:induction false} SkipWsFollows(s: string)
    ensures Follows(SkipWs(s), SkipWs(Narrow(s)), SkipLeft(Narrow(s)), s)
  {
    var m := Narrow(s);
    if s != [] && IsSpace(m[0]) && m[0] as int < 0x80 {
      FirstNotQuote(s);
      assert m[1..] == Narrow(s[1..]) && Last(s, |s| - 1) == s[1..] && Last(m, |s| - 1) == m[1..];
      SkipWsFollows(s[1..]);
      Then(s, |s| - 1, SkipWs(s[1..]), SkipWs(m[1..]), SkipLeft(m[1..]));
      FirstClean(s);
      SpaceUnderneath(s);
    } else {
      NotSkipped(s);
      StopsHere(s, SkipWs(m));
    }
  }

  /** The first character is clean unless it is wide. */
  lemma {:induction false} FirstClean(s: string)
    requires s != []
    ensures Clean(s, |s| - 1) <==> Narrow(s)[0] == s[0]
  {
    assert Narrow(s)[..1] == [Narrow(s)[0]] && s[..1] == [s[0]];
  }

  /** A space in the narrow form comes from a space, or from a wide one. */
  lemma {:induction false} SpaceUnderneath(s: string)
    requires s != [] && IsSpace(Narrow(s)[0])
    ensures IsSpace(s[0]) && (Narrow(s)[0] == s[0] <==> s[0] as int < 0x80)
  {
    AsciiSpaces(s[0]);
    AsciiSpaces('"');
  }

  lemma {:induction false} NotSkipped(s: string)
    requires s == [] || !IsSpace(Narrow(s)[0]) || Narrow(s)[0] as int >= 0x80
    ensures SkipWs(s) == Read((), s) && SkipWs(Narrow(s)) == Read((), Narrow(s))
  {
    if s != [] {
      AsciiSpaces(s[0]);
      AsciiSpaces('"');
    }
  }

  lemma {:induction false} FirstNotQuote(s: string)
    requires s != [] && IsSpace(Narrow(s)[0])
    ensures s[0] != '"' && Narrow(s)[1..] == Narrow(s[1..])
  {
    AsciiSpaces('"');
  }

  // ---------------------------------------------------------------- tokens

  /** Inside a literal nothing changes, and behind it the scan is outside again. */
  lemma {:induction false} StringBodyFollows(s: string)
    ensures var t := NarrowIn(s);
            var o, narrow, k := StringBody(s), StringBody(t), |StringLeft(t)|;
            && StringLeft(t) == Last(t, k) && t[..|s| - k] == s[..|s| - k]
            && (narrow.Read? <==> o.Read?)
            && (narrow.Read? ==>
                  && o.value == narrow.value && o.rest == Last(s, k)
                  && narrow.rest == Last(t, k) && Narrow(Last(s, k)) == Last(t, k))
    decreases |s|
  {
    var t := NarrowIn(s);
    if s == [] {
    } else if s[0] == '"' {
      assert t[1..] == Narrow(s[1..]) && t[..1] == s[..1];
    } else if s[0] == '\\' {
      if |s| > 1 {
        assert t[0] == s[0] && t[1] == s[1] && t[2..] == NarrowIn(s[2..]);
        StringBodyFollows(s[2..]);
        LiteralStep(s, t, 2, |StringLeft(t[2..])|);
      }
      assert t[..1] == s[..1];
    } else {
      assert t[0] == s[0] && t[1..] == NarrowIn(s[1..]);
      StringBodyFollows(s[1..]);
      LiteralStep(s, t, 1, |StringLeft(t[1..])|);
    }
  }

  lemma {:induction false} LiteralStep(s: string, t: string, n: nat, k: nat)
    requires |s| == |t| && n + k <= |s| && t[..n] == s[..n] && t[n..][..|s| - n - k] == s[n..][..|s| - n - k]
    ensures t[..|s| - k] == s[..|s| - k] && Last(s[n..], k) == Last(s, k) && Last(t[n..], k) == Last(t, k)
  {
    assert t[..|s| - k] == t[..n] + t[n..][..|s| - n - k] && s[..|s| - k] == s[..n] + s[n..][..|s| - n - k];
  }

  /** A run of characters that are neither quotes nor wide. */
  predicate PlainRun(s: string, n: nat)
    requires n <= |s|
  {
    forall i :: 0 <= i < n ==> s[i] != '"' && !IsWide(s[i])
  }

  lemma {:induction false} NarrowRun(s: string, n: nat)
    requires n <= |s| && PlainRun(s, n)
    ensures Narrow(s)[..n] == s[..n] && Narrow(s)[n..] == Narrow(s[n..])
  {
    if n > 0 {
      NarrowPlain(s);
      NarrowRun(s[1..], n - 1);
      RunStep(s, Narrow(s), n);
      assert s[1..][n - 1..] == s[n..];
    } else {
      assert s[n..] == s;
    }
  }

  lemma {:induction false} RunStep(s: string, t: string, n: nat)
    requires 0 < n <= |s| && |s| == |t| && t[0] == s[0] && t[1..][..n - 1] == s[1..][..n - 1]
    ensures t[..n] == s[..n] && t[n..] == t[1..][n - 1..]
  {
    assert t[..n] == [t[0]] + t[1..][..n - 1] && s[..n] == [s[0]] + s[1..][..n - 1];
  }

  lemma {:induction false} IdentCharPlain(c: char)
    requires IsIdentChar(c) || c == '-'
    ensures c != '"' && !IsWide(c)
  {
    AsciiSpaces(c);
  }

  lemma {:induction false} IdentLengthNarrow(s: string)
    ensures IdentLength(Narrow(s)) == IdentLength(s) && PlainRun(s, IdentLength(s))
  {
    if s != [] {
      if IsIdentChar(s[0]) {
        IdentCharPlain(s[0]);
        NarrowPlain(s);
        IdentLengthNarrow(s[1..]);
        assert forall i :: 0 < i < IdentLength(s) ==> s[i] == s[1..][i - 1];
      } else if IsWide(s[0]) {
        WideIsSpace(s);
      }
    }
  }

  lemma {:induction false} DigitsLengthNarrow(s: string)
    ensures DigitsLength(Narrow(s)) == DigitsLength(s) && PlainRun(s, DigitsLength(s))
  {
    if s != [] {
      if IsDigit(s[0]) {
        IdentCharPlain(s[0]);
        NarrowPlain(s);
        DigitsLengthNarrow(s[1..]);
        assert forall i :: 0 < i < DigitsLength(s) ==> s[i] == s[1..][i - 1];
      } else if IsWide(s[0]) {
        WideIsSpace(s);
      }
    }
  }

  lemma {:induction false} NumeralLengthNarrow(s: string)
    ensures NumeralLength(Narrow(s)) == NumeralLength(s) && PlainRun(s, NumeralLength(s))
  {
    DigitsLengthNarrow(s);
    if s != [] && s[0] == '-' {
      IdentCharPlain('-');
      NarrowPlain(s);
      DigitsLengthNarrow(s[1..]);
      assert forall i :: 0 < i < NumeralLength(s) ==> s[i] == s[1..][i - 1];
    } else if s != [] && IsWide(s[0]) {
      WideIsSpace(s);
    }
  }

  lemma {:induction false} FractionLengthNarrow(s: string)
    ensures FractionLength(Narrow(s)) == FractionLength(s) && PlainRun(s, FractionLength(s))
  {
    if s != [] && s[0] == '.' {
      IdentCharPlain('.');
      NarrowPlain(s);
      DigitsLengthNarrow(s[1..]);
      assert |s| > 1 ==> Narrow(s)[1] == Narrow(s[1..])[0] && (IsDigit(s[1]) <==> IsDigit(Narrow(s)[1])) by {
        if |s| > 1 && IsWide(s[1]) {
          WideIsSpace(s[1..]);
        }
      }
      assert forall i :: 0 < i < FractionLength(s) ==> s[i] == s[1..][i - 1];
    } else if s != [] && IsWide(s[0]) {
      WideIsSpace(s);
    }
  }

  lemma {:induction false} NumberLengthNarrow(s: string)
    ensures NumeralLength(Narrow(s)) == NumeralLength(s) && NumberLength(Narrow(s)) == NumberLength(s)
    ensures PlainRun(s, NumberLength(s))
  {
    var n := NumeralLength(s);
    NumeralLengthNarrow(s);
    NarrowRun(s, n);
    FractionLengthNarrow(s[n..]);
    if n > 0 {
      RunsJoin(s, n, FractionLength(s[n..]));
    }
  }

  lemma {:induction false} RunsJoin(s: string, n: nat, m: nat)
    requires n + m <= |s| && PlainRun(s, n) && PlainRun(s[n..], m)
    ensures PlainRun(s, n + m)
  {
    assert forall i :: n <= i < n + m ==> s[i] == s[n..][i - n];
  }

  /** A number depends on nothing behind it. */
  lemma {:induction false} NumberSame(s: string, t: string)
    requires NumeralLength(s) == NumeralLength(t) && NumberLength(s) == NumberLength(t)
    requires s[..NumberLength(s)] == t[..NumberLength(s)]
    ensures Number(s).Read? <==> Number(t).Read?
    ensures Number(t).Read? ==> Number(s).value == Number(t).value
  {
    var n := NumeralLength(s);
    assert s[..NumberLength(s)][..n] == s[..n] && t[..NumberLength(s)][..n] == t[..n];
  }

  /** A run of plain characters is clean, and the scan is outside behind it. */
  lemma {:induction false} RunClean(s: string, n: nat)
    requires n <= |s| && PlainRun(s, n)
    ensures Clean(s, |s| - n) && Outside(s, |s| - n)
    ensures Last(Narrow(s), |s| - n) == Narrow(s)[n..] && Last(s, |s| - n) == s[n..]
  {
    NarrowRun(s, n);
  }

  lemma {:induction false} NumberFollows(s: string)
    ensures Follows(Number(s), Number(Narrow(s)), Narrow(s)[NumberLength(Narrow(s))..], s)
  {
    NumberLengthNarrow(s);
    RunClean(s, NumberLength(s));
    NarrowRun(s, NumberLength(s));
    NumberSame(s, Narrow(s));
  }

  // ---------------------------------------------------------------- expressions

  /** What an expression makes of the text behind white space. */
  function Operand(t: string): Outcome<Expr> {
    if t == [] then Rejected
    else if t[0] == '"' then
      (match StringBody(t[1..])
       case Read(text, rest) => Read(CoreExpr.Text(text), rest)
       case Rejected => Rejected)
    else
      match Number(t)
      case Rejected => Rejected
      case Read(Some(literal), rest) => Read(literal, rest)
      case Read(None, _) => ParseNamed(t)
  }

  function OperandLeft(t: string): string {
    if t == [] then t
    else if t[0] == '"' then StringLeft(t[1..])
    else if Number(t).Read? && Number(t).value.None? then NamedLeft(t)
    else t[NumberLength(t)..]
  }

  lemma {:induction false} ExprIsOperand(s: string)
    ensures SkipWs(s).Read? ==> ParseExpr(s) == Operand(SkipWs(s).rest) && ExprLeft(s) == OperandLeft(SkipWs(s).rest)
  {
  }

  lemma {:induction false} LiteralFollows(t: string)
    requires t != [] && t[0] == '"'
    ensures Follows(Operand(t), Operand(Narrow(t)), OperandLeft(Narrow(t)), t)
  {
    var m := Narrow(t);
    assert m[1..] == NarrowIn(t[1..]) && m[0] == '"' && m[..1] == t[..1];
    StringBodyFollows(t[1..]);
    LiteralStep(t, m, 1, |StringLeft(m[1..])|);
  }

  lemma {:induction false} HeadNotQuote(s: string)
    requires s != [] && s[0] != '"'
    ensures Narrow(s)[0] != '"'
  {
  }

  lemma {:induction false} OperandFollows(t: string)
    ensures Follows(Operand(t), Operand(Narrow(t)), OperandLeft(Narrow(t)), t)
    decreases |t|, 1
  {
    if t == [] {
    } else if t[0] == '"' {
      LiteralFollows(t);
    } else {
      HeadNotQuote(t);
      NumberFollows(t);
      NumberLengthNarrow(t);
      if Number(Narrow(t)).Read? && Number(Narrow(t)).value.None? {
        ParseNamedFollows(t);
      }
    }
  }

  lemma {:induction false} ParseExprFollows(s: string)
    ensures Follows(ParseExpr(s), ParseExpr(Narrow(s)), ExprLeft(Narrow(s)), s)
    decreases |s|, 2
  {
    SkipWsFollows(s);
    NarrowHasNoWide(s);
    var k := |SkipLeft(Narrow(s))|;
    var t := Last(s, k);
    OperandFollows(t);
    Then(s, k, Operand(t), Operand(Narrow(t)), OperandLeft(Narrow(t)));
    ExprIsOperand(s);
    ExprIsOperand(Narrow(s));
  }

  /** What a name and the white space behind it turn into. */
  function AfterName(name: string, t: string): Outcome<Expr> {
    if t == [] || t[0] != '(' then Read(Word(name), t)
    else
      match ParseArgs(t[1..])
      case Panicked => Panicked
      case Rejected => Rejected
      case Read(args, rest) =>
        match FromCall(name, args)
        case Some(e) => Read(e, rest)
        case None => Rejected
  }

  function AfterNameLeft(t: string): string {
    if t == [] || t[0] != '(' then t else ArgsLeft(t[1..])
  }

  lemma {:induction false} NamedIsAfterName(s: string)
    ensures var n := IdentLength(s);
            n > 0 && SkipWs(s[n..]).Read? ==>
              && ParseNamed(s) == AfterName(s[..n], SkipWs(s[n..]).rest)
              && NamedLeft(s) == AfterNameLeft(SkipWs(s[n..]).rest)
  {
  }

  lemma {:induction false} AfterNameFollows(name: string, t: string)
    ensures Follows(AfterName(name, t), AfterName(name, Narrow(t)), AfterNameLeft(Narrow(t)), t)
    decreases |t|, 0
  {
    SameHead(t, '(');
    if t != [] && t[0] == '(' {
      ParseArgsFollows(t[1..]);
      StepIn(t, ParseArgs(t[1..]), ParseArgs(Narrow(t)[1..]), ArgsLeft(Narrow(t)[1..]));
    } else {
      StopsHere(t, AfterName(name, Narrow(t)));
    }
  }

  /** Going on behind one plain character. */
  lemma {:induction false} StepIn<T(!new)>(t: string, o: Outcome<T>, narrow: Outcome<T>, left: string)
    requires t != [] && PlainRun(t, 1) && Follows(o, narrow, left, t[1..])
    ensures Follows(o, narrow, left, t)
  {
    RunClean(t, 1);
    Then(t, |t| - 1, o, narrow, left);
  }

  lemma {:induction false} ParseNamedFollows(s: string)
    ensures Follows(ParseNamed(s), ParseNamed(Narrow(s)), NamedLeft(Narrow(s)), s)
    decreases |s|, 0
  {
    var n := IdentLength(s);
    IdentLengthNarrow(s);
    NarrowRun(s, n);
    if n > 0 {
      RunClean(s, n);
      NameThen(s, n);
    } else {
      StopsHere(s, ParseNamed(Narrow(s)));
    }
  }

  lemma {:induction false} NameThen(s: string, n: nat)
    requires n == IdentLength(s) == IdentLength(Narrow(s)) && n > 0 && Narrow(s)[..n] == s[..n]
    requires Clean(s, |s| - n) && Outside(s, |s| - n) && Narrow(s)[n..] == Narrow(s[n..])
    ensures Follows(ParseNamed(s), ParseNamed(Narrow(s)), NamedLeft(Narrow(s)), s)
    decreases |s| - n, 1
  {
    var u, name := s[n..], s[..n];
    assert Last(s, |s| - n) == u;
    SkipWsFollows(u);
    NarrowHasNoWide(u);
    var k := |SkipLeft(Narrow(u))|;
    var t := Last(u, k);
    AfterNameFollows(name, t);
    Then(u, k, AfterName(name, t), AfterName(name, Narrow(t)), AfterNameLeft(Narrow(t)));
    var o := if Clean(u, k) then AfterName(name, t) else Panicked;
    Then(s, |s| - n, o, AfterName(name, Narrow(t)), AfterNameLeft(Narrow(t)));
    NamedIsAfterName(s);
    NamedIsAfterName(Narrow(s));
  }

  /** A plain character at the front of one is at the front of the other. */
  lemma {:induction false} SameHead(s: string, c: char)
    requires '!' <= c <= '~' && c != '"'
    ensures s != [] && s[0] == c <==> Narrow(s) != [] && Narrow(s)[0] == c
    ensures s != [] && s[0] == c ==> PlainRun(s, 1) && Narrow(s)[1..] == Narrow(s[1..])
  {
    AsciiSpaces(c);
    if s != [] && s[0] == c {
      NarrowPlain(s);
    }
  }

  /** What an argument list makes of the text behind white space. */
  function AfterParen(t: string): Outcome<seq<Expr>> {
    if t != [] && t[0] == ')' then Read([], t[1..]) else ParseArgList(t)
  }

  function AfterParenLeft(t: string): string {
    if t != [] && t[0] == ')' then t[1..] else ArgListLeft(t)
  }

  lemma {:induction false} AfterParenFollows(t: string)
    ensures Follows(AfterParen(t), AfterParen(Narrow(t)), AfterParenLeft(Narrow(t)), t)
    decreases |t|, 4
  {
    SameHead(t, ')');
    if t != [] && t[0] == ')' {
      RunClean(t, 1);
    } else {
      ParseArgListFollows(t);
    }
  }

  lemma {:induction false} ParseArgsFollows(s: string)
    ensures Follows(ParseArgs(s), ParseArgs(Narrow(s)), ArgsLeft(Narrow(s)), s)
    decreases |s|, 5
  {
    SkipWsFollows(s);
    NarrowHasNoWide(s);
    var k := |SkipLeft(Narrow(s))|;
    var t := Last(s, k);
    AfterParenFollows(t);
    Then(s, k, AfterParen(t), AfterParen(Narrow(t)), AfterParenLeft(Narrow(t)));
  }

  /** What follows an argument and the white space behind it. */
  function AfterArg(e: Expr, t: string): Outcome<seq<Expr>> {
    if t == [] then Rejected
    else if t[0] == ')' then Read([e], t[1..])
    else if t[0] != ',' then Rejected
    else
      match ParseArgList(t[1..])
      case Panicked => Panicked
      case Rejected => Rejected
      case Read(es, end) => Read([e] + es, end)
  }

  function AfterArgLeft(t: string): string {
    if t == [] then t
    else if t[0] == ')' then t[1..]
    else if t[0] != ',' then t
    else ArgListLeft(t[1..])
  }

  lemma {:induction false} ListIsAfterArg(s: string)
    ensures ParseExpr(s).Read? && SkipWs(ParseExpr(s).rest).Read? ==>
              var t := SkipWs(ParseExpr(s).rest).rest;
              ParseArgList(s) == AfterArg(ParseExpr(s).value, t) && ArgListLeft(s) == AfterArgLeft(t)
  {
  }

  lemma {:induction false} AfterArgFollows(e: Expr, t: string)
    ensures Follows(AfterArg(e, t), AfterArg(e, Narrow(t)), AfterArgLeft(Narrow(t)), t)
    decreases |t|, 0
  {
    SameHead(t, ')');
    SameHead(t, ',');
    if t != [] && t[0] == ')' {
      RunClean(t, 1);
    } else if t != [] && t[0] == ',' {
      ParseArgListFollows(t[1..]);
      StepIn(t, ParseArgList(t[1..]), ParseArgList(Narrow(t)[1..]), ArgListLeft(Narrow(t)[1..]));
    } else {
      StopsHere(t, AfterArg(e, Narrow(t)));
    }
  }

  lemma {:induction false} ParseArgListFollows(s: string)
    ensures Follows(ParseArgList(s), ParseArgList(Narrow(s)), ArgListLeft(Narrow(s)), s)
    decreases |s|, 3
  {
    ParseExprFollows(s);
    var narrow := ParseExpr(Narrow(s));
    if narrow.Read? {
      var j := |narrow.rest|;
      var u := Last(s, j);
      SkipWsFollows(u);
      NarrowHasNoWide(u);
      var k := |SkipLeft(Narrow(u))|;
      var t := Last(u, k);
      var e := narrow.value;
      AfterArgFollows(e, t);
      Then(u, k, AfterArg(e, t), AfterArg(e, Narrow(t)), AfterArgLeft(Narrow(t)));
      Then(s, j, if Clean(u, k) then AfterArg(e, t) else Panicked, AfterArg(e, Narrow(t)), AfterArgLeft(Narrow(t)));
      ListIsAfterArg(s);
      ListIsAfterArg(Narrow(s));
    }
  }

  // ---------------------------------------------------------------- the panic

  /** What a whole text turns into behind its expression. */
  function AtEnd(e: Expr, t: string): Outcome<Expr> {
    if t == [] then Read(e, []) else Rejected
  }

  lemma {:induction false} AtEndFollows(e: Expr, t: string)
    ensures Follows(AtEnd(e, t), AtEnd(e, Narrow(t)), Narrow(t), t)
  {
    StopsHere(t, AtEnd(e, Narrow(t)));
  }

  lemma {:induction false} ParseIsAtEnd(s: string)
    ensures ParseExpr(s).Read? && SkipWs(ParseExpr(s).rest).Read? ==>
              var t := SkipWs(ParseExpr(s).rest).rest;
              Parse(s) == AtEnd(ParseExpr(s).value, t) && ParseLeft(s) == t
  {
  }

  lemma {:induction false} ParseFollows(s: string)
    ensures Follows(Parse(s), Parse(Narrow(s)), ParseLeft(Narrow(s)), s)
  {
    ParseExprFollows(s);
    var narrow := ParseExpr(Narrow(s));
    if narrow.Read? {
      EndThen(s, narrow.value, |narrow.rest|);
    }
  }

  lemma {:induction false} EndThen(s: string, e: Expr, j: nat)
    requires ParseExpr(Narrow(s)).Read? && ParseExpr(Narrow(s)).value == e && |ParseExpr(Narrow(s)).rest| == j
    requires Follows(ParseExpr(s), ParseExpr(Narrow(s)), ExprLeft(Narrow(s)), s)
    ensures Follows(Parse(s), Parse(Narrow(s)), ParseLeft(Narrow(s)), s)
  {
    var u := Last(s, j);
    SkipWsFollows(u);
    NarrowHasNoWide(u);
    var k := |SkipLeft(Narrow(u))|;
    var t := Last(u, k);
    AtEndFollows(e, t);
    Then(u, k, AtEnd(e, t), AtEnd(e, Narrow(t)), Narrow(t));
    Then(s, j, if Clean(u, k) then AtEnd(e, t) else Panicked, AtEnd(e, Narrow(t)), Narrow(t));
    ParseIsAtEnd(s);
    ParseIsAtEnd(Narrow(s));
  }

  /** Exactly when the parser panics, for every text: if and only if a wide white space character lies,
      outside the string literals, before the point at which the parse of the narrow form stops; and
      otherwise it answers what it answers for the narrow form. That one never panics, and a text that
      it reads is read to its end. */
  lemma {:induction false} PanicIff(s: string)
    ensures Parse(Narrow(s)) != Panicked
    ensures Parse(s) == if Clean(s, |ParseLeft(Narrow(s))|) then Parse(Narrow(s)) else Panicked
    ensures Parse(Narrow(s)).Read? ==> (Parse(s) == Panicked <==> Narrow(s) != s)
  {
    ParseFollows(s);
    if Parse(Narrow(s)).Read? {
      assert s[..|s|] == s && Narrow(s)[..|s|] == Narrow(s);
    }
  }

  /** Whatever else is wrong with a text, only wide white space outside its string literals can make the
      parser panic. */
  lemma {:induction false} NoWideNoPanic(s: string)
    requires Narrow(s) == s
    ensures Parse(s) != Panicked
  {
    PanicIff(s);
  }
}
