/** The grammar of call-syntax expressions, as functions on the text that is still to be read. */
module ExprSyntax {
  import opened Base
  import opened Text
  import opened Decimal
  import opened CoreExpr

  /** A result with the rest of the text; a rejection; or a panic of the parser. */
  datatype Outcome<+T> = Read(value: T, rest: string) | Rejected | Panicked

  predicate Shorter<T>(o: Outcome<T>, s: string) {
    o.Read? ==> |o.rest| < |s|
  }

  // ---------------------------------------------------------------- tokens

  /** Skipping white space steps one byte at a time, so a wider white space character stops the parser dead. */
  function SkipWs(s: string): (o: Outcome<()>)
    ensures o != Rejected
    ensures o.Read? ==> |o.rest| <= |s|
  {
    if s == [] || !IsSpace(s[0]) then Read((), s)
    else if s[0] as int < 0x80 then SkipWs(s[1..])
    else Panicked
  }

  predicate IsIdentChar(c: char) {
    'a' <= c <= 'z' || 'A' <= c <= 'Z' || IsDigit(c) || c == '_' || c == '.'
  }

  /** The length of the identifier at the front. */
  function IdentLength(s: string): (n: nat)
    ensures n <= |s|
  {
    if s == [] || !IsIdentChar(s[0]) then 0 else 1 + IdentLength(s[1..])
  }

  /** The length of the run of digits at the front. */
  function DigitsLength(s: string): (n: nat)
    ensures n <= |s| && AllDigits(s[..n])
  {
    if s == [] || !IsDigit(s[0]) then 0
    else
      assert s[..1 + DigitsLength(s[1..])] == [s[0]] + s[1..][..DigitsLength(s[1..])];
      1 + DigitsLength(s[1..])
  }

  const I64_MIN: int := -0x8000_0000_0000_0000
  const I64_MAX: int := 0x7FFF_FFFF_FFFF_FFFF

  /** The length of the numeral at the front: digits, perhaps after a minus. */
  function NumeralLength(s: string): (n: nat)
    ensures n <= |s| && (n > 0 ==> Numeral(s[..n]))
  {
    if s != [] && s[0] == '-' then
      var n := DigitsLength(s[1..]);
      assert n > 0 ==> s[..1 + n][1..] == s[1..][..n];
      if n == 0 then 0 else 1 + n
    else DigitsLength(s)
  }

  predicate Numeral(t: string) {
    t != [] && if t[0] == '-' then |t| > 1 && AllDigits(t[1..]) else AllDigits(t)
  }

  function NumeralValue(t: string): int
    requires Numeral(t)
  {
    if t[0] == '-' then 0 - Spelled(t[1..]) else Spelled(t)
  }

  /** The length of the fraction at the front: a point and at least one digit. */
  function FractionLength(s: string): (n: nat)
    ensures n <= |s|
  {
    if |s| >= 2 && s[0] == '.' && IsDigit(s[1]) then 1 + DigitsLength(s[1..]) else 0
  }

  function IntLiteral(t: string): Option<Expr>
    requires Numeral(t)
  {
    if I64_MIN <= NumeralValue(t) <= I64_MAX then Some(Int(NumeralValue(t))) else None
  }

  /** A number at the front: `None` when there is none; out-of-range integers are rejected. */
  function Number(s: string): (o: Outcome<Option<Expr>>)
    ensures o.Read? && o.value.Some? ==> |o.rest| < |s|
    ensures o.Read? && o.value.None? ==> o.rest == s
    ensures o != Panicked
  {
    var n := NumeralLength(s);
    var f := FractionLength(s[n..]);
    if n == 0 then Read(None, s)
    else if f > 0 then Read(Some(Float(s[..n + f])), s[n + f..])
    else match IntLiteral(s[..n]) case Some(e) => Read(Some(e), s[n..]) case None => Rejected
  }

  /** The character an escape stands for. */
  function Unescape(c: char): Option<char> {
    match c
    case '"' => Some('"')
    case '\\' => Some('\\')
    case 'n' => Some('\n')
    case 't' => Some('\t')
    case _ => None
  }

  /** The rest of a string literal after its opening quote. */
  function StringBody(s: string): (o: Outcome<string>)
    ensures o != Panicked && Shorter(o, s)
    decreases |s|
  {
    if s == [] then Rejected
    else if s[0] == '"' then Read([], s[1..])
    else if s[0] == '\\' then
      if |s| < 2 || Unescape(s[1]).None? then Rejected
      else
        match StringBody(s[2..])
        case Read(t, rest) => Read([Unescape(s[1]).value] + t, rest)
        case Rejected => Rejected
    else
      match StringBody(s[1..])
      case Read(t, rest) => Read([s[0]] + t, rest)
      case Rejected => Rejected
  }

  // ---------------------------------------------------------------- expressions

  function Word(name: string): Expr {
    if name == "true" then Bool(true) else if name == "false" then Bool(false) else Var(name)
  }

  function ParseExpr(s: string): (o: Outcome<Expr>)
    ensures Shorter(o, s)
    decreases |s|, 1
  {
    match SkipWs(s)
    case Panicked => Panicked
    case Read(_, t) =>
      if t == [] then Rejected
      else if t[0] == '"' then
        (match StringBody(t[1..])
         case Read(text, rest) => Read(Text(text), rest)
         case Rejected => Rejected)
      else
        match Number(t)
        case Rejected => Rejected
        case Read(Some(literal), rest) => Read(literal, rest)
        case Read(None, _) => ParseNamed(t)
  }

  /** An identifier, alone or with arguments. */
  function ParseNamed(s: string): (o: Outcome<Expr>)
    ensures Shorter(o, s)
    decreases |s|, 0
  {
    var n := IdentLength(s);
    if n == 0 then Rejected
    else
      match SkipWs(s[n..])
      case Panicked => Panicked
      case Read(_, t) =>
        if t == [] || t[0] != '(' then Read(Word(s[..n]), t)
        else
          match ParseArgs(t[1..])
          case Panicked => Panicked
          case Rejected => Rejected
          case Read(args, rest) =>
            match FromCall(s[..n], args)
            case Some(e) => Read(e, rest)
            case None => Rejected
  }

  /** The arguments after an opening parenthesis. */
  function ParseArgs(s: string): (o: Outcome<seq<Expr>>)
    ensures Shorter(o, s)
    decreases |s|, 3
  {
    match SkipWs(s)
    case Panicked => Panicked
    case Read(_, t) => if t != [] && t[0] == ')' then Read([], t[1..]) else ParseArgList(t)
  }

  /** One or more arguments up to the closing parenthesis. */
  function ParseArgList(s: string): (o: Outcome<seq<Expr>>)
    ensures Shorter(o, s)
    decreases |s|, 2
  {
    match ParseExpr(s)
    case Panicked => Panicked
    case Rejected => Rejected
    case Read(e, rest) =>
      match SkipWs(rest)
      case Panicked => Panicked
      case Read(_, t) =>
        if t == [] then Rejected
        else if t[0] == ')' then Read([e], t[1..])
        else if t[0] != ',' then Rejected
        else
          match ParseArgList(t[1..])
          case Panicked => Panicked
          case Rejected => Rejected
          case Read(es, end) => Read([e] + es, end)
  }

  /** A whole text. */
  function Parse(s: string): Outcome<Expr> {
    match ParseExpr(s)
    case Panicked => Panicked
    case Rejected => Rejected
    case Read(e, rest) =>
      match SkipWs(rest)
      case Panicked => Panicked
      case Read(_, t) => if t == [] then Read(e, []) else Rejected
  }

  // ---------------------------------------------------------------- how far the parser gets

  /** What is left when the skipping of white space stops, be it at a character it cannot step over. */
  function SkipLeft(s: string): (left: string)
    ensures |left| <= |s|
    ensures SkipWs(s).Read? ==> left == SkipWs(s).rest
  {
    if s != [] && IsSpace(s[0]) && s[0] as int < 0x80 then SkipLeft(s[1..]) else s
  }

  /** How far a number reaches. */
  function NumberLength(s: string): (n: nat)
    ensures n <= |s|
    ensures Number(s).Read? ==> Number(s).rest == s[n..]
  {
    var n := NumeralLength(s);
    if n == 0 then 0 else n + FractionLength(s[n..])
  }

  /** What is left when the reading of a string literal stops. */
  function StringLeft(s: string): (left: string)
    ensures |left| <= |s|
    decreases |s|
  {
    if s == [] then s
    else if s[0] == '"' then s[1..]
    else if s[0] == '\\' then if |s| < 2 || Unescape(s[1]).None? then s[1..] else StringLeft(s[2..])
    else StringLeft(s[1..])
  }

  /** What lies behind the parser's cursor after an expression, a rejection or a panic. */
  function ExprLeft(s: string): (left: string)
    ensures |left| <= |s|
    decreases |s|, 1
  {
    match SkipWs(s)
    case Panicked => SkipLeft(s)
    case Read(_, t) =>
      if t == [] then t
      else if t[0] == '"' then StringLeft(t[1..])
      else if Number(t).Read? && Number(t).value.None? then NamedLeft(t)
      else t[NumberLength(t)..]
  }

  function NamedLeft(s: string): (left: string)
    ensures |left| <= |s|
    decreases |s|, 0
  {
    var n := IdentLength(s);
    if n == 0 then s
    else
      match SkipWs(s[n..])
      case Panicked => SkipLeft(s[n..])
      case Read(_, t) => if t == [] || t[0] != '(' then t else ArgsLeft(t[1..])
  }

  function ArgsLeft(s: string): (left: string)
    ensures |left| <= |s|
    decreases |s|, 3
  {
    match SkipWs(s)
    case Panicked => SkipLeft(s)
    case Read(_, t) => if t != [] && t[0] == ')' then t[1..] else ArgListLeft(t)
  }

  function ArgListLeft(s: string): (left: string)
    ensures |left| <= |s|
    decreases |s|, 2
  {
    match ParseExpr(s)
    case Panicked => ExprLeft(s)
    case Rejected => ExprLeft(s)
    case Read(_, rest) =>
      match SkipWs(rest)
      case Panicked => SkipLeft(rest)
      case Read(_, t) =>
        if t == [] then t
        else if t[0] == ')' then t[1..]
        else if t[0] != ',' then t
        else ArgListLeft(t[1..])
  }

  function ParseLeft(s: string): (left: string)
    ensures |left| <= |s|
    ensures Parse(s).Read? ==> left == []
  {
    match ParseExpr(s)
    case Read(_, rest) => SkipLeft(rest)
    case _ => ExprLeft(s)
  }

  lemma {:induction false} StringLeaves(s: string)
    ensures StringBody(s).Read? ==> StringBody(s).rest == StringLeft(s)
    decreases |s|
  {
    if s != [] && s[0] == '\\' {
      if |s| >= 2 && Unescape(s[1]).Some? {
        StringLeaves(s[2..]);
      }
    } else if s != [] && s[0] != '"' {
      StringLeaves(s[1..]);
    }
  }

  /** What an expression leaves is what lies behind the cursor; and so for its parts. */
  lemma {:induction false} ExprLeaves(s: string)
    ensures ParseExpr(s).Read? ==> ParseExpr(s).rest == ExprLeft(s)
    decreases |s|, 1
  {
    if SkipWs(s).Read? {
      var t := SkipWs(s).rest;
      if t != [] && t[0] == '"' {
        StringLeaves(t[1..]);
      } else if t != [] && Number(t).Read? && Number(t).value.None? {
        NamedLeaves(t);
      }
    }
  }

  lemma {:induction false} NamedLeaves(s: string)
    ensures ParseNamed(s).Read? ==> ParseNamed(s).rest == NamedLeft(s)
    decreases |s|, 0
  {
    var n := IdentLength(s);
    if n > 0 && SkipWs(s[n..]).Read? {
      var t := SkipWs(s[n..]).rest;
      if t != [] && t[0] == '(' {
        ArgsLeave(t[1..]);
      }
    }
  }

  lemma {:induction false} ArgsLeave(s: string)
    ensures ParseArgs(s).Read? ==> ParseArgs(s).rest == ArgsLeft(s)
    decreases |s|, 3
  {
    if SkipWs(s).Read? {
      ArgListLeaves(SkipWs(s).rest);
    }
  }

  lemma {:induction false} ArgListLeaves(s: string)
    ensures ParseArgList(s).Read? ==> ParseArgList(s).rest == ArgListLeft(s)
    decreases |s|, 2
  {
    if ParseExpr(s).Read? && SkipWs(ParseExpr(s).rest).Read? {
      var t := SkipWs(ParseExpr(s).rest).rest;
      if t != [] && t[0] == ',' {
        ArgListLeaves(t[1..]);
      }
    }
  }
}
