/** The recursive-descent parser as it runs: one cursor over the input, against the grammar. */
module ExprParser {
  import opened Base
  import opened Text
  import opened Decimal
  import opened CoreExpr
  import Grammar = ExprSyntax

  /** What a parsing step answers; the cursor says how far it got. */
  datatype Reply<+T> = Value(value: T) | Reject | Crash

  /** The reply and the text left over are what the grammar says. */
  predicate Agrees<T(==)>(expected: Grammar.Outcome<T>, reply: Reply<T>, rest: string) {
    match expected
    case Read(v, r) => reply == Value(v) && rest == r
    case Rejected => reply == Reject
    case Panicked => reply == Crash
  }

  /** What was read before, put in front of what is read next. */
  function Prepend<T>(done: seq<T>, o: Grammar.Outcome<seq<T>>): Grammar.Outcome<seq<T>> {
    match o
    case Read(more, rest) => Grammar.Read(done + more, rest)
    case Rejected => Grammar.Rejected
    case Panicked => Grammar.Panicked
  }

  lemma {:induction false} PrependNothing<T>(o: Grammar.Outcome<seq<T>>)
    ensures Prepend([], o) == o
  {
    if o.Read? {
      assert [] + o.value == o.value;
    }
  }

  lemma {:induction false} PrependOne<T>(done: seq<T>, x: T, o: Grammar.Outcome<seq<T>>)
    ensures Prepend(done + [x], o) == Prepend(done, Prepend([x], o))
  {
    if o.Read? {
      assert done + [x] + o.value == done + ([x] + o.value);
    }
  }

  /** The same for the pairs of a special form. */
  function Collect<T>(done: seq<T>, o: Option<seq<T>>): Option<seq<T>> {
    match o case Some(more) => Some(done + more) case None => None
  }

  lemma {:induction false} CollectNothing<T>(o: Option<seq<T>>)
    ensures Collect([], o) == o
  {
    if o.Some? {
      assert [] + o.value == o.value;
    }
  }

  lemma {:induction false} CollectOne<T>(done: seq<T>, x: T, o: Option<seq<T>>)
    ensures Collect(done + [x], o) == Collect(done, Collect([x], o))
  {
    if o.Some? {
      assert done + [x] + o.value == done + ([x] + o.value);
    }
  }

  class Parser {
    const input: string
    var pos: nat

    constructor (text: string)
      ensures input == text && pos == 0 && Valid()
    {
      input := text;
      pos := 0;
    }

    ghost predicate Valid()
      reads this
    {
      pos <= |input|
    }

    function Rest(): string
      requires Valid()
      reads this
    {
      input[pos..]
    }

    predicate At(c: char)
      requires Valid()
      reads this
    {
      pos < |input| && input[pos] == c
    }

    method SkipWs() returns (reply: Reply<()>)
      requires Valid()
      modifies `pos
      ensures Valid() && pos >= old(pos)
      ensures Agrees(Grammar.SkipWs(old(Rest())), reply, Rest())
      ensures Rest() == Grammar.SkipLeft(old(Rest()))
    {
      ghost var start := Rest();
      while pos < |input| && IsSpace(input[pos])
        invariant Valid() && pos >= old(pos)
        invariant Grammar.SkipWs(Rest()) == Grammar.SkipWs(start) && Grammar.SkipLeft(Rest()) == Grammar.SkipLeft(start)
      {
        if input[pos] as int >= 0x80 {
          return Crash;
        }
        assert Rest()[1..] == input[pos + 1..];
        pos := pos + 1;
      }
      return Value(());
    }

    method Consume(c: char) returns (taken: bool)
      requires Valid()
      modifies `pos
      ensures Valid()
      ensures taken <==> old(Rest()) != [] && old(Rest())[0] == c
      ensures taken ==> pos == old(pos) + 1 && Rest() == old(Rest())[1..]
      ensures !taken ==> pos == old(pos)
    {
      taken := At(c);
      if taken {
        pos := pos + 1;
      }
    }

    /** Reads an identifier; without one the cursor stays where it is. */
    method ParseIdent() returns (name: string)
      requires Valid()
      modifies `pos
      ensures Valid() && pos == old(pos) + |name|
      ensures var n := Grammar.IdentLength(old(Rest())); name == old(Rest())[..n] && Rest() == old(Rest())[n..]
    {
      ghost var start := Rest();
      var from := pos;
      while pos < |input| && Grammar.IsIdentChar(input[pos])
        invariant Valid() && pos >= old(pos)
        invariant Grammar.IdentLength(start) == pos - from + Grammar.IdentLength(Rest())
      {
        assert Rest()[1..] == input[pos + 1..];
        pos := pos + 1;
      }
      name := input[from..pos];
    }

    method SkipDigits()
      requires Valid()
      modifies `pos
      ensures Valid() && pos == old(pos) + Grammar.DigitsLength(old(Rest()))
    {
      ghost var start, from := Rest(), pos;
      while pos < |input| && IsDigit(input[pos])
        invariant Valid() && pos >= from
        invariant Grammar.DigitsLength(start) == pos - from + Grammar.DigitsLength(Rest())
      {
        assert Rest()[1..] == input[pos + 1..];
        pos := pos + 1;
      }
    }

    /** Reads digits, perhaps after a minus; a minus alone is not taken. */
    method SkipNumeral()
      requires Valid()
      modifies `pos
      ensures Valid() && pos == old(pos) + Grammar.NumeralLength(old(Rest()))
    {
      var start := pos;
      if At('-') {
        pos := pos + 1;
        assert Rest() == old(Rest())[1..];
      }
      var digitsStart := pos;
      SkipDigits();
      if digitsStart == pos {
        pos := start;
      }
    }

    method SkipFraction()
      requires Valid()
      modifies `pos
      ensures Valid() && pos == old(pos) + Grammar.FractionLength(old(Rest()))
    {
      if At('.') && pos + 1 < |input| && IsDigit(input[pos + 1]) {
        pos := pos + 1;
        assert Rest() == old(Rest())[1..];
        SkipDigits();
      }
    }

    method ParseNumber() returns (reply: Reply<Option<Expr>>)
      requires Valid()
      modifies `pos
      ensures Valid() && pos >= old(pos)
      ensures Agrees(Grammar.Number(old(Rest())), reply, Rest())
      ensures Rest() == old(Rest())[Grammar.NumberLength(old(Rest()))..]
    {
      ghost var s := Rest();
      var start := pos;
      SkipNumeral();
      if pos == start {
        return Value(None);
      }
      var end := pos;
      assert Rest() == s[end - start..] && input[start..end] == s[..end - start];
      SkipFraction();
      if pos > end {
        assert Rest() == s[pos - start..] && input[start..pos] == s[..pos - start];
        return Value(Some(Float(input[start..pos])));
      }
      match Grammar.IntLiteral(input[start..pos]) {
        case Some(e) => return Value(Some(e));
        case None => return Reject;
      }
    }

    /** Reads a string literal; the cursor is on its opening quote. */
    method ParseStringLiteral() returns (reply: Reply<string>)
      requires Valid() && At('"')
      modifies `pos
      ensures Valid() && pos > old(pos)
      ensures Agrees(Grammar.StringBody(old(Rest())[1..]), reply, Rest())
      ensures Rest() == Grammar.StringLeft(old(Rest())[1..])
    {
      Grammar.StringLeaves(Rest()[1..]);
      pos := pos + 1;
      ghost var body := Rest();
      var result := "";
      PrependNothing(Grammar.StringBody(body));
      while true
        invariant Valid() && pos > old(pos)
        invariant Prepend(result, Grammar.StringBody(Rest())) == Grammar.StringBody(body)
        invariant Grammar.StringLeft(Rest()) == Grammar.StringLeft(body)
        decreases |input| - pos
      {
        ghost var here := Rest();
        if pos == |input| {
          return Reject;
        }
        var c := input[pos];
        pos := pos + 1;
        assert Rest() == here[1..];
        if c == '"' {
          assert result + [] == result;
          return Value(result);
        }
        if c == '\\' {
          if pos == |input| || Grammar.Unescape(input[pos]).None? {
            return Reject;
          }
          c := Grammar.Unescape(input[pos]).value;
          pos := pos + 1;
          assert Rest() == here[2..];
        }
        PrependOne(result, c, Grammar.StringBody(Rest()));
        result := result + [c];
      }
    }

    method ParseExpr() returns (reply: Reply<Expr>)
      requires Valid()
      modifies `pos
      ensures Valid() && pos >= old(pos)
      ensures Agrees(Grammar.ParseExpr(old(Rest())), reply, Rest())
      ensures Rest() == Grammar.ExprLeft(old(Rest()))
      decreases |input| - pos, 1
    {
      Grammar.ExprLeaves(Rest());
      var skipped := SkipWs();
      if skipped == Crash {
        return Crash;
      }
      if pos == |input| {
        return Reject;
      }
      if At('"') {
        var text := ParseStringLiteral();
        match text {
          case Value(t) => return Value(Text(t));
          case _ => return Reject;
        }
      }
      var number := ParseNumber();
      match number {
        case Value(Some(literal)) => return Value(literal);
        case Value(None) =>
        case _ => return Reject;
      }
      reply := ParseNamed();
    }

    /** Reads an identifier, alone or with arguments. */
    method ParseNamed() returns (reply: Reply<Expr>)
      requires Valid()
      modifies `pos
      ensures Valid() && pos >= old(pos)
      ensures Agrees(Grammar.ParseNamed(old(Rest())), reply, Rest())
      ensures Rest() == Grammar.NamedLeft(old(Rest()))
      decreases |input| - pos, 0
    {
      Grammar.NamedLeaves(Rest());
      var ident := ParseIdent();
      if ident == [] {
        return Reject;
      }
      var skipped := SkipWs();
      if skipped == Crash {
        return Crash;
      }
      var isCall := Consume('(');
      if !isCall {
        return Value(Grammar.Word(ident));
      }
      var args := ParseArgs();
      match args {
        case Reject => return Reject;
        case Crash => return Crash;
        case Value(es) =>
          var e := ExprFromCall(ident, es);
          return if e.Some? then Value(e.value) else Reject;
      }
    }

    method ParseArgs() returns (reply: Reply<seq<Expr>>)
      requires Valid()
      modifies `pos
      ensures Valid() && pos >= old(pos)
      ensures Agrees(Grammar.ParseArgs(old(Rest())), reply, Rest())
      ensures Rest() == Grammar.ArgsLeft(old(Rest()))
      decreases |input| - pos, 3
    {
      Grammar.ArgsLeave(Rest());
      var skipped := SkipWs();
      if skipped == Crash {
        return Crash;
      }
      var closed := Consume(')');
      if closed {
        return Value([]);
      }
      reply := ParseArgList();
    }

    /** Reads arguments and commas up to the closing parenthesis. */
    method ParseArgList() returns (reply: Reply<seq<Expr>>)
      requires Valid()
      modifies `pos
      ensures Valid() && pos >= old(pos)
      ensures Agrees(Grammar.ParseArgList(old(Rest())), reply, Rest())
      ensures Rest() == Grammar.ArgListLeft(old(Rest()))
      decreases |input| - pos, 2
    {
      Grammar.ArgListLeaves(Rest());
      ghost var list := Rest();
      var args: seq<Expr> := [];
      PrependNothing(Grammar.ParseArgList(list));
      while true
        invariant Valid() && pos >= old(pos)
        invariant Prepend(args, Grammar.ParseArgList(Rest())) == Grammar.ParseArgList(list)
        invariant Grammar.ArgListLeft(Rest()) == Grammar.ArgListLeft(list)
        decreases |input| - pos
      {
        var arg := ParseExpr();
        match arg {
          case Reject => return Reject;
          case Crash => return Crash;
          case Value(e) =>
            var skipped := SkipWs();
            if skipped == Crash {
              return Crash;
            }
            var closed := Consume(')');
            if closed {
              return Value(args + [e]);
            }
            var more := Consume(',');
            if !more {
              return Reject;
            }
            PrependOne(args, e, Grammar.ParseArgList(Rest()));
            args := args + [e];
        }
      }
    }
  }

  /** A whole text: it must be used up. */
  method Parse(text: string) returns (reply: Reply<Expr>)
    ensures Agrees(Grammar.Parse(text), reply, [])
  {
    var parser := new Parser(text);
    assert parser.Rest() == text;
    reply := parser.ParseExpr();
    if reply.Value? {
      var skipped := parser.SkipWs();
      if skipped == Crash {
        return Crash;
      }
      if parser.pos != |text| {
        return Reject;
      }
    }
  }

  // ---------------------------------------------------------------- special forms

  method ExprFromCall(func: string, args: seq<Expr>) returns (e: Option<Expr>)
    ensures e == FromCall(func, args)
  {
    match FormOf(func) {
      case MatchForm => e := ParseMatchCall(args);
      case RecordForm => e := ParseRecordCall(args);
      case form => e := FromForm(form, func, args);
    }
  }

  method ParseMatchCall(args: seq<Expr>) returns (e: Option<Expr>)
    ensures e == FromForm(MatchForm, "match", args)
  {
    if |args| < 3 || |args| % 2 == 0 {
      return None;
    }
    var arms: seq<Arm> := [];
    var i := 1;
    CollectNothing(Arms(args[1..]));
    while i < |args|
      invariant 1 <= i <= |args| && i % 2 == 1
      invariant Collect(arms, Arms(args[i..])) == Arms(args[1..])
    {
      var pattern := RenderPattern(args[i]);
      if pattern == None {
        return None;
      }
      assert args[i..][2..] == args[i + 2..];
      CollectOne(arms, Arm(pattern.value, args[i + 1]), Arms(args[i + 2..]));
      arms := arms + [Arm(pattern.value, args[i + 1])];
      i := i + 2;
    }
    assert args[i..] == [] && arms + [] == arms;
    e := Some(Match(args[0], arms));
  }

  method ParseRecordCall(args: seq<Expr>) returns (e: Option<Expr>)
    ensures e == FromForm(RecordForm, "record", args)
  {
    if |args| % 2 != 0 {
      return None;
    }
    var fields: seq<Field> := [];
    var i := 0;
    assert args[0..] == args;
    CollectNothing(Fields(args));
    while i < |args|
      invariant 0 <= i <= |args| && i % 2 == 0
      invariant Collect(fields, Fields(args[i..])) == Fields(args)
    {
      if !args[i].Var? {
        return None;
      }
      assert args[i..][2..] == args[i + 2..];
      CollectOne(fields, Field(args[i].name, args[i + 1]), Fields(args[i + 2..]));
      fields := fields + [Field(args[i].name, args[i + 1])];
      i := i + 2;
    }
    assert args[i..] == [] && fields + [] == fields;
    e := Some(Record(fields));
  }
}
