/** Which expressions have a text, the text that parses back to them, and that the parser builds no others. */
module ExprLaws {
  import opened Base
  import opened Decimal
  import opened CoreExpr
  import opened ExprSyntax
  import opened ExprPrinter

  // ---------------------------------------------------------------- the language of the parser

  /** A name that reads as a variable. */
  predicate VarName(s: string) {
    Ident(s) && s != "true" && s != "false"
  }

  /** A name that is called rather than built in. */
  predicate CallName(s: string) {
    Ident(s) && FormOf(s) == CallForm
  }

  /** The expressions that stand for match patterns. */
  predicate PatternExpr(e: Expr)
    decreases e
  {
    match e
    case Var(name) => VarName(name)
    case Bool(_) => true
    case Int(n) => I64_MIN <= n <= I64_MAX
    case Call(func, args) => CallName(func) && forall i :: 0 <= i < |args| ==> PatternExpr(args[i])
    case Variant(tag, payload) => VarName(tag) && (payload.Some? ==> PatternExpr(payload.value))
    case _ => false
  }

  ghost predicate PatternText(p: string) {
    exists q :: PatternExpr(q) && RenderPattern(q) == Some(p)
  }

  predicate FitsArity(op: Operator, n: nat) {
    Arity(op) == None || Arity(op) == Some(n)
  }

  /** The expressions that have a text. */
  ghost predicate Expressible(e: Expr)
    decreases e
  {
    match e
    case Text(_) => true
    case Int(n) => I64_MIN <= n <= I64_MAX
    case Float(d) => FloatText(d)
    case Bool(_) => true
    case Var(name) => VarName(name)
    case Node(op, es) => FitsArity(op, |es|) && forall i :: 0 <= i < |es| ==> Expressible(es[i])
    case Let(b, init, body) => VarName(b) && Expressible(init) && Expressible(body)
    case Match(s, arms) =>
      && arms != [] && Expressible(s)
      && forall i :: 0 <= i < |arms| ==> PatternText(arms[i].pattern) && Expressible(arms[i].body)
    case Record(fields) => forall i :: 0 <= i < |fields| ==> VarName(fields[i].name) && Expressible(fields[i].value)
    case FieldGet(r, f) => Expressible(r) && VarName(f)
    case FieldUpdate(r, f, v) => Expressible(r) && VarName(f) && Expressible(v)
    case Variant(tag, payload) => VarName(tag) && (payload.Some? ==> Expressible(payload.value))
    case Abort(_) => true
    case EffectCall(c, o, args) => VarName(c) && VarName(o) && forall i :: 0 <= i < |args| ==> Expressible(args[i])
    case Lambda(params, body) => Expressible(body) && forall i :: 0 <= i < |params| ==> VarName(params[i])
    case ForEach(b, c, body) => VarName(b) && Expressible(c) && Expressible(body)
    case MapNew(entries) =>
      forall i :: 0 <= i < |entries| ==> Expressible(entries[i].key) && Expressible(entries[i].value)
    case Call(func, args) => CallName(func) && forall i :: 0 <= i < |args| ==> Expressible(args[i])
  }

  // ---------------------------------------------------------------- call names

  function Keyword(op: Operator): string {
    match op
    case If => "if" case Unit => "unit" case Tuple => "tuple" case List => "list" case SetNew => "set"
    case Index => "index" case Add => "add" case Sub => "sub" case Mul => "mul" case Div => "div" case Mod => "mod"
    case Eq => "eq" case Ne => "ne" case Lt => "lt" case Le => "le" case Gt => "gt" case Ge => "ge"
    case Not => "not" case And => "and" case Or => "or" case Loop => "loop" case While => "while"
    case Break => "break" case Continue => "continue" case Return => "return" case Fold => "fold"
    case CellNew => "cell_new" case CellGet => "cell_get" case CellSet => "cell_set"
  }

  lemma {:induction false} ShortKeywordForm(op: Operator)
    requires |Keyword(op)| == 2
    ensures FormOf(Keyword(op)) == OperatorForm(op)
  {
  }

  lemma {:induction false} MediumKeywordForm(op: Operator)
    requires |Keyword(op)| == 3
    ensures FormOf(Keyword(op)) == OperatorForm(op)
  {
  }

  lemma {:induction false} LongKeywordForm(op: Operator)
    requires |Keyword(op)| > 3
    ensures FormOf(Keyword(op)) == OperatorForm(op)
  {
  }

  /** An operator's call name means that operator. */
  lemma {:induction false} KeywordForm(op: Operator)
    ensures FormOf(Keyword(op)) == OperatorForm(op)
  {
    if |Keyword(op)| == 2 {
      ShortKeywordForm(op);
    } else if |Keyword(op)| == 3 {
      MediumKeywordForm(op);
    } else {
      LongKeywordForm(op);
    }
  }

  lemma {:induction false} KeywordIdent(op: Operator)
    ensures Ident(Keyword(op))
  {
  }

  /** The call name of a special form that is written with its own name. */
  function SpecialName(form: Form): string {
    match form
    case LetForm => "let" case MatchForm => "match" case RecordForm => "record" case FieldForm => "field"
    case UpdateForm => "update" case VariantForm => "variant" case AbortForm => "abort"
    case EffectForm => "effect_call" case LambdaForm => "lambda" case ForEachForm => "foreach" case MapForm => "map"
    case _ => ""
  }

  lemma {:induction false} SpecialForm(form: Form)
    requires SpecialName(form) != ""
    ensures FormOf(SpecialName(form)) == form
  {
  }

  lemma {:induction false} SpecialIdent(form: Form)
    requires SpecialName(form) != ""
    ensures Ident(SpecialName(form))
  {
  }

  // ---------------------------------------------------------------- quoting

  /** The syntax tree of a pattern expression. */
  function QuotePattern(e: Expr): Tree
    requires PatternExpr(e)
    decreases e
  {
    match e
    case Var(name) => WordTree(name)
    case Bool(b) => WordTree(if b then "true" else "false")
    case Int(n) => IntTree(n)
    case Call(func, args) => CallTree(func, QuotePatterns(args))
    case Variant(tag, payload) =>
      CallTree("variant", [WordTree(tag)] + if payload.Some? then [QuotePattern(payload.value)] else [])
  }

  function QuotePatterns(es: seq<Expr>): (ts: seq<Tree>)
    requires forall i :: 0 <= i < |es| ==> PatternExpr(es[i])
    decreases es
  {
    if es == [] then [] else [QuotePattern(es[0])] + QuotePatterns(es[1..])
  }

  /** Some pattern expression with this text. */
  ghost function PatternOf(p: string): (q: Expr)
    requires PatternText(p)
    ensures PatternExpr(q) && RenderPattern(q) == Some(p)
  {
    var q :| PatternExpr(q) && RenderPattern(q) == Some(p);
    q
  }

  function Words(names: seq<string>): seq<Tree> {
    if names == [] then [] else [WordTree(names[0])] + Words(names[1..])
  }

  /** The syntax tree of an expression. */
  ghost function Quote(e: Expr): Tree
    requires Expressible(e)
    decreases e
  {
    match e
    case Text(t) => TextTree(t)
    case Int(n) => IntTree(n)
    case Float(d) => FloatTree(d)
    case Bool(b) => WordTree(if b then "true" else "false")
    case Var(name) => WordTree(name)
    case Node(op, es) => CallTree(Keyword(op), QuoteAll(es))
    case Let(b, init, body) => CallTree("let", [WordTree(b), Quote(init), Quote(body)])
    case Match(s, arms) => CallTree("match", [Quote(s)] + QuoteArms(arms))
    case Record(fields) => CallTree("record", QuoteFields(fields))
    case FieldGet(r, f) => CallTree("field", [Quote(r), WordTree(f)])
    case FieldUpdate(r, f, v) => CallTree("update", [Quote(r), WordTree(f), Quote(v)])
    case Variant(tag, payload) =>
      CallTree("variant", [WordTree(tag)] + if payload.Some? then [Quote(payload.value)] else [])
    case Abort(m) => CallTree("abort", [TextTree(m)])
    case EffectCall(c, o, args) => CallTree("effect_call", [WordTree(c), WordTree(o)] + QuoteAll(args))
    case Lambda(params, body) => CallTree("lambda", Words(params) + [Quote(body)])
    case ForEach(b, c, body) => CallTree("foreach", [WordTree(b), Quote(c), Quote(body)])
    case MapNew(entries) => CallTree("map", QuoteEntries(entries))
    case Call(func, args) => CallTree(func, QuoteAll(args))
  }

  ghost function QuoteAll(es: seq<Expr>): seq<Tree>
    requires forall i :: 0 <= i < |es| ==> Expressible(es[i])
    decreases es
  {
    if es == [] then [] else [Quote(es[0])] + QuoteAll(es[1..])
  }

  ghost function QuoteArms(arms: seq<Arm>): seq<Tree>
    requires forall i :: 0 <= i < |arms| ==> PatternText(arms[i].pattern) && Expressible(arms[i].body)
    decreases arms
  {
    if arms == [] then []
    else [QuotePattern(PatternOf(arms[0].pattern)), Quote(arms[0].body)] + QuoteArms(arms[1..])
  }

  ghost function QuoteFields(fields: seq<Field>): seq<Tree>
    requires forall i :: 0 <= i < |fields| ==> Expressible(fields[i].value)
    decreases fields
  {
    if fields == [] then [] else [WordTree(fields[0].name), Quote(fields[0].value)] + QuoteFields(fields[1..])
  }

  ghost function QuoteEntry(entry: MapEntry): seq<Tree>
    requires Expressible(entry.key) && Expressible(entry.value)
    decreases entry
  {
    [Quote(entry.key), Quote(entry.value)]
  }

  ghost function QuoteEntries(entries: seq<MapEntry>): seq<Tree>
    requires forall i :: 0 <= i < |entries| ==> Expressible(entries[i].key) && Expressible(entries[i].value)
    decreases entries
  {
    if entries == [] then [] else QuoteEntry(entries[0]) + QuoteEntries(entries[1..])
  }

  // ---------------------------------------------------------------- a quoted expression means the expression

  ghost predicate AllWritable(ts: seq<Tree>) {
    forall i :: 0 <= i < |ts| ==> Writable(ts[i])
  }

  /** The tree has a text, and the text means `e`. */
  ghost predicate Denotes(t: Tree, e: Expr) {
    Writable(t) && Meaning(t) == Some(e)
  }

  ghost predicate DenoteAll(ts: seq<Tree>, es: seq<Expr>) {
    AllWritable(ts) && Meanings(ts) == Some(es)
  }

  lemma {:induction false} DenoteNone()
    ensures DenoteAll([], [])
  {
  }

  lemma {:induction false} DenoteCons(t: Tree, e: Expr, ts: seq<Tree>, es: seq<Expr>)
    requires Denotes(t, e) && DenoteAll(ts, es)
    ensures DenoteAll([t] + ts, [e] + es)
  {
    assert ([t] + ts)[1..] == ts;
  }

  lemma {:induction false} DenoteOne(t: Tree, e: Expr)
    requires Denotes(t, e)
    ensures DenoteAll([t], [e])
  {
    DenoteNone();
    DenoteCons(t, e, [], []);
    assert [t] + [] == [t] && [e] + [] == [e];
  }

  lemma {:induction false} DenoteTwo(t: Tree, e: Expr, u: Tree, f: Expr)
    requires Denotes(t, e) && Denotes(u, f)
    ensures DenoteAll([t, u], [e, f])
  {
    DenoteOne(u, f);
    DenoteCons(t, e, [u], [f]);
    assert [t] + [u] == [t, u] && [e] + [f] == [e, f];
  }

  lemma {:induction false} DenoteThree(t: Tree, e: Expr, u: Tree, f: Expr, v: Tree, g: Expr)
    requires Denotes(t, e) && Denotes(u, f) && Denotes(v, g)
    ensures DenoteAll([t, u, v], [e, f, g])
  {
    DenoteTwo(u, f, v, g);
    DenoteCons(t, e, [u, v], [f, g]);
    assert [t] + [u, v] == [t, u, v] && [e] + [f, g] == [e, f, g];
  }

  lemma {:induction false} DenoteConcat(ts: seq<Tree>, es: seq<Expr>, us: seq<Tree>, fs: seq<Expr>)
    requires DenoteAll(ts, es) && DenoteAll(us, fs)
    ensures DenoteAll(ts + us, es + fs)
  {
    if ts == [] {
      assert ts + us == us && es + fs == fs;
    } else {
      assert Meaning(ts[0]).Some? && Meanings(ts[1..]).Some?;
      var e, rest := Meaning(ts[0]).value, Meanings(ts[1..]).value;
      DenoteConcat(ts[1..], rest, us, fs);
      DenoteCons(ts[0], e, ts[1..] + us, rest + fs);
      assert [ts[0]] + (ts[1..] + us) == ts + us && [e] + (rest + fs) == es + fs;
    }
  }

  lemma {:induction false} DenoteCall(func: string, ts: seq<Tree>, es: seq<Expr>, e: Expr)
    requires Ident(func) && DenoteAll(ts, es) && FromCall(func, es) == Some(e)
    ensures Denotes(CallTree(func, ts), e)
  {
  }

  lemma {:induction false} DenoteSpecial(form: Form, ts: seq<Tree>, es: seq<Expr>, e: Expr)
    requires SpecialName(form) != "" && DenoteAll(ts, es) && FromForm(form, SpecialName(form), es) == Some(e)
    ensures Denotes(CallTree(SpecialName(form), ts), e)
  {
    SpecialForm(form);
    SpecialIdent(form);
    DenoteCall(SpecialName(form), ts, es, e);
  }

  lemma {:induction false} WordDenotes(name: string)
    requires VarName(name)
    ensures Denotes(WordTree(name), Var(name))
  {
  }

  lemma {:induction false} BoolDenotes(b: bool)
    ensures Denotes(WordTree(if b then "true" else "false"), Bool(b))
  {
  }

  lemma {:induction false} VariantDenotes(tag: string, ts: seq<Tree>, payload: Option<Expr>)
    requires VarName(tag) && DenoteAll(ts, if payload.Some? then [payload.value] else [])
    ensures Denotes(CallTree("variant", [WordTree(tag)] + ts), Variant(tag, payload))
  {
    WordDenotes(tag);
    var es := if payload.Some? then [payload.value] else [];
    DenoteCons(WordTree(tag), Var(tag), ts, es);
    DenoteSpecial(VariantForm, [WordTree(tag)] + ts, [Var(tag)] + es, Variant(tag, payload));
  }

  lemma {:induction false} PatternDenotes(e: Expr)
    requires PatternExpr(e)
    ensures Denotes(QuotePattern(e), e)
    decreases e
  {
    match e
    case Var(name) => WordDenotes(name);
    case Bool(b) => BoolDenotes(b);
    case Int(n) =>
    case Call(func, args) =>
      PatternsDenote(args);
      DenoteCall(func, QuotePatterns(args), args, e);
    case Variant(tag, payload) =>
      if payload.Some? {
        PatternDenotes(payload.value);
        DenoteOne(QuotePattern(payload.value), payload.value);
      } else {
        DenoteNone();
      }
      VariantDenotes(tag, if payload.Some? then [QuotePattern(payload.value)] else [], payload);
  }

  lemma {:induction false} PatternsDenote(es: seq<Expr>)
    requires forall i :: 0 <= i < |es| ==> PatternExpr(es[i])
    ensures DenoteAll(QuotePatterns(es), es)
    decreases es
  {
    if es == [] {
      DenoteNone();
    } else {
      PatternDenotes(es[0]);
      PatternsDenote(es[1..]);
      DenoteCons(QuotePattern(es[0]), es[0], QuotePatterns(es[1..]), es[1..]);
      assert [es[0]] + es[1..] == es;
    }
  }

  // ---- the special forms, from what their arguments denote

  lemma {:induction false} BindingsBuilt(func: string, b: string, e: Expr, f: Expr)
    ensures FromForm(LetForm, func, [Var(b), e, f]) == Some(Let(b, e, f))
    ensures FromForm(ForEachForm, func, [Var(b), e, f]) == Some(ForEach(b, e, f))
    ensures FromForm(UpdateForm, func, [e, Var(b), f]) == Some(FieldUpdate(e, b, f))
  {
  }

  lemma {:induction false} NodeDenotes(op: Operator, ts: seq<Tree>, es: seq<Expr>)
    requires DenoteAll(ts, es) && FitsArity(op, |es|)
    ensures Denotes(CallTree(Keyword(op), ts), Node(op, es))
  {
    KeywordForm(op);
    KeywordIdent(op);
    DenoteCall(Keyword(op), ts, es, Node(op, es));
  }

  lemma {:induction false} LetDenotes(b: string, t: Tree, e: Expr, u: Tree, f: Expr)
    requires VarName(b) && Denotes(t, e) && Denotes(u, f)
    ensures Denotes(CallTree("let", [WordTree(b), t, u]), Let(b, e, f))
  {
    WordDenotes(b);
    DenoteThree(WordTree(b), Var(b), t, e, u, f);
    BindingsBuilt(SpecialName(LetForm), b, e, f);
    DenoteSpecial(LetForm, [WordTree(b), t, u], [Var(b), e, f], Let(b, e, f));
  }

  lemma {:induction false} ForEachDenotes(b: string, t: Tree, e: Expr, u: Tree, f: Expr)
    requires VarName(b) && Denotes(t, e) && Denotes(u, f)
    ensures Denotes(CallTree("foreach", [WordTree(b), t, u]), ForEach(b, e, f))
  {
    WordDenotes(b);
    DenoteThree(WordTree(b), Var(b), t, e, u, f);
    BindingsBuilt(SpecialName(ForEachForm), b, e, f);
    DenoteSpecial(ForEachForm, [WordTree(b), t, u], [Var(b), e, f], ForEach(b, e, f));
  }

  lemma {:induction false} FieldGetDenotes(t: Tree, e: Expr, name: string)
    requires VarName(name) && Denotes(t, e)
    ensures Denotes(CallTree("field", [t, WordTree(name)]), FieldGet(e, name))
  {
    WordDenotes(name);
    DenoteTwo(t, e, WordTree(name), Var(name));
    DenoteSpecial(FieldForm, [t, WordTree(name)], [e, Var(name)], FieldGet(e, name));
  }

  lemma {:induction false} FieldUpdateDenotes(t: Tree, e: Expr, name: string, u: Tree, f: Expr)
    requires VarName(name) && Denotes(t, e) && Denotes(u, f)
    ensures Denotes(CallTree("update", [t, WordTree(name), u]), FieldUpdate(e, name, f))
  {
    WordDenotes(name);
    DenoteThree(t, e, WordTree(name), Var(name), u, f);
    BindingsBuilt(SpecialName(UpdateForm), name, e, f);
    DenoteSpecial(UpdateForm, [t, WordTree(name), u], [e, Var(name), f], FieldUpdate(e, name, f));
  }

  lemma {:induction false} AbortDenotes(message: string)
    ensures Denotes(CallTree("abort", [TextTree(message)]), Abort(message))
  {
    DenoteOne(TextTree(message), Text(message));
    DenoteSpecial(AbortForm, [TextTree(message)], [Text(message)], Abort(message));
  }

  lemma {:induction false} EffectDenotes(c: string, o: string, ts: seq<Tree>, es: seq<Expr>)
    requires VarName(c) && VarName(o) && DenoteAll(ts, es)
    ensures Denotes(CallTree("effect_call", [WordTree(c), WordTree(o)] + ts), EffectCall(c, o, es))
  {
    WordDenotes(c);
    WordDenotes(o);
    DenoteTwo(WordTree(c), Var(c), WordTree(o), Var(o));
    DenoteConcat([WordTree(c), WordTree(o)], [Var(c), Var(o)], ts, es);
    assert ([Var(c), Var(o)] + es)[2..] == es;
    DenoteSpecial(EffectForm, [WordTree(c), WordTree(o)] + ts, [Var(c), Var(o)] + es, EffectCall(c, o, es));
  }

  function Vars(names: seq<string>): (es: seq<Expr>)
    ensures |es| == |names| && forall i :: 0 <= i < |es| ==> es[i] == Var(names[i])
  {
    if names == [] then [] else [Var(names[0])] + Vars(names[1..])
  }

  lemma {:induction false} WordsDenote(names: seq<string>)
    requires forall i :: 0 <= i < |names| ==> VarName(names[i])
    ensures DenoteAll(Words(names), Vars(names))
  {
    if names == [] {
      DenoteNone();
    } else {
      WordDenotes(names[0]);
      WordsDenote(names[1..]);
      DenoteCons(WordTree(names[0]), Var(names[0]), Words(names[1..]), Vars(names[1..]));
    }
  }

  lemma {:induction false} LambdaDenotes(params: seq<string>, t: Tree, e: Expr)
    requires (forall i :: 0 <= i < |params| ==> VarName(params[i])) && Denotes(t, e)
    ensures Denotes(CallTree("lambda", Words(params) + [t]), Lambda(params, e))
  {
    WordsDenote(params);
    DenoteOne(t, e);
    DenoteConcat(Words(params), Vars(params), [t], [e]);
    var es := Vars(params) + [e];
    assert es[..|es| - 1] == Vars(params) && Names(Vars(params)) == params;
    DenoteSpecial(LambdaForm, Words(params) + [t], es, Lambda(params, e));
  }

  // ---- pairs

  ghost function ArmExprs(arms: seq<Arm>): (es: seq<Expr>)
    requires forall i :: 0 <= i < |arms| ==> PatternText(arms[i].pattern)
    ensures |es| == 2 * |arms|
  {
    if arms == [] then [] else [PatternOf(arms[0].pattern), arms[0].body] + ArmExprs(arms[1..])
  }

  lemma {:induction false} ArmsOfExprs(arms: seq<Arm>)
    requires forall i :: 0 <= i < |arms| ==> PatternText(arms[i].pattern)
    ensures Arms(ArmExprs(arms)) == Some(arms)
  {
    if arms != [] {
      ArmsOfExprs(arms[1..]);
      assert ArmExprs(arms)[2..] == ArmExprs(arms[1..]);
      assert [arms[0]] + arms[1..] == arms;
    }
  }

  function FieldExprs(fields: seq<Field>): (es: seq<Expr>)
    ensures |es| == 2 * |fields|
  {
    if fields == [] then [] else [Var(fields[0].name), fields[0].value] + FieldExprs(fields[1..])
  }

  lemma {:induction false} FieldsOfExprs(fields: seq<Field>)
    ensures Fields(FieldExprs(fields)) == Some(fields)
  {
    if fields != [] {
      FieldsOfExprs(fields[1..]);
      assert FieldExprs(fields)[2..] == FieldExprs(fields[1..]);
      assert [fields[0]] + fields[1..] == fields;
    }
  }

  function EntryExprs(entries: seq<MapEntry>): (es: seq<Expr>)
    ensures |es| == 2 * |entries|
  {
    if entries == [] then [] else [entries[0].key, entries[0].value] + EntryExprs(entries[1..])
  }

  lemma {:induction false} EntriesOfExprs(entries: seq<MapEntry>)
    ensures MapEntries(EntryExprs(entries)) == entries
  {
    if entries != [] {
      EntriesOfExprs(entries[1..]);
      assert EntryExprs(entries)[2..] == EntryExprs(entries[1..]);
      assert [entries[0]] + entries[1..] == entries;
    }
  }

  lemma {:induction false} MatchDenotes(t: Tree, e: Expr, ts: seq<Tree>, arms: seq<Arm>)
    requires arms != [] && forall i :: 0 <= i < |arms| ==> PatternText(arms[i].pattern)
    requires Denotes(t, e) && DenoteAll(ts, ArmExprs(arms))
    ensures Denotes(CallTree("match", [t] + ts), Match(e, arms))
  {
    DenoteCons(t, e, ts, ArmExprs(arms));
    MatchBuilt(SpecialName(MatchForm), e, arms);
    DenoteSpecial(MatchForm, [t] + ts, [e] + ArmExprs(arms), Match(e, arms));
  }

  lemma {:induction false} MatchBuilt(func: string, e: Expr, arms: seq<Arm>)
    requires arms != [] && forall i :: 0 <= i < |arms| ==> PatternText(arms[i].pattern)
    ensures FromForm(MatchForm, func, [e] + ArmExprs(arms)) == Some(Match(e, arms))
  {
    assert ([e] + ArmExprs(arms))[1..] == ArmExprs(arms);
    ArmsOfExprs(arms);
  }

  lemma {:induction false} RecordDenotes(ts: seq<Tree>, fields: seq<Field>)
    requires DenoteAll(ts, FieldExprs(fields))
    ensures Denotes(CallTree("record", ts), Record(fields))
  {
    FieldsOfExprs(fields);
    DenoteSpecial(RecordForm, ts, FieldExprs(fields), Record(fields));
  }

  lemma {:induction false} MapDenotes(ts: seq<Tree>, entries: seq<MapEntry>)
    requires DenoteAll(ts, EntryExprs(entries))
    ensures Denotes(CallTree("map", ts), MapNew(entries))
  {
    EntriesOfExprs(entries);
    DenoteSpecial(MapForm, ts, EntryExprs(entries), MapNew(entries));
  }

  // ---- every expression

  /** The quoted tree of an expression has a text and means the expression. */
  lemma {:induction false} QuoteDenotes(e: Expr)
    requires Expressible(e)
    ensures Denotes(Quote(e), e)
    decreases e
  {
    match e
    case Text(_) =>
    case Int(_) =>
    case Float(_) =>
    case Bool(b) => BoolDenotes(b);
    case Var(name) => WordDenotes(name);
    case Node(op, es) =>
      QuoteAllDenotes(es);
      NodeDenotes(op, QuoteAll(es), es);
    case Let(b, init, body) =>
      QuoteDenotes(init);
      QuoteDenotes(body);
      LetDenotes(b, Quote(init), init, Quote(body), body);
    case Match(s, arms) =>
      QuoteDenotes(s);
      QuoteArmsDenote(arms);
      MatchDenotes(Quote(s), s, QuoteArms(arms), arms);
    case Record(fields) =>
      QuoteFieldsDenote(fields);
      RecordDenotes(QuoteFields(fields), fields);
    case FieldGet(r, f) =>
      QuoteDenotes(r);
      FieldGetDenotes(Quote(r), r, f);
    case FieldUpdate(r, f, v) =>
      QuoteDenotes(r);
      QuoteDenotes(v);
      FieldUpdateDenotes(Quote(r), r, f, Quote(v), v);
    case Variant(tag, None) =>
      DenoteNone();
      VariantDenotes(tag, [], None);
    case Variant(tag, Some(inner)) =>
      QuoteDenotes(inner);
      DenoteOne(Quote(inner), inner);
      VariantDenotes(tag, [Quote(inner)], Some(inner));
    case Abort(m) => AbortDenotes(m);
    case EffectCall(c, o, args) =>
      QuoteAllDenotes(args);
      EffectDenotes(c, o, QuoteAll(args), args);
    case Lambda(params, body) =>
      QuoteDenotes(body);
      LambdaDenotes(params, Quote(body), body);
    case ForEach(b, c, body) =>
      QuoteDenotes(c);
      QuoteDenotes(body);
      ForEachDenotes(b, Quote(c), c, Quote(body), body);
    case MapNew(entries) =>
      QuoteEntriesDenote(entries);
      MapDenotes(QuoteEntries(entries), entries);
    case Call(func, args) =>
      QuoteAllDenotes(args);
      DenoteCall(func, QuoteAll(args), args, e);
  }

  lemma {:induction false} QuoteAllDenotes(es: seq<Expr>)
    requires forall i :: 0 <= i < |es| ==> Expressible(es[i])
    ensures DenoteAll(QuoteAll(es), es)
    decreases es
  {
    if es == [] {
      DenoteNone();
    } else {
      QuoteDenotes(es[0]);
      QuoteAllDenotes(es[1..]);
      DenoteCons(Quote(es[0]), es[0], QuoteAll(es[1..]), es[1..]);
      assert [es[0]] + es[1..] == es;
    }
  }

  lemma {:induction false} QuoteArmsDenote(arms: seq<Arm>)
    requires forall i :: 0 <= i < |arms| ==> PatternText(arms[i].pattern) && Expressible(arms[i].body)
    ensures DenoteAll(QuoteArms(arms), ArmExprs(arms))
    decreases arms
  {
    if arms == [] {
      DenoteNone();
    } else {
      var q := PatternOf(arms[0].pattern);
      PatternDenotes(q);
      QuoteDenotes(arms[0].body);
      QuoteArmsDenote(arms[1..]);
      DenoteTwo(QuotePattern(q), q, Quote(arms[0].body), arms[0].body);
      DenoteConcat([QuotePattern(q), Quote(arms[0].body)], [q, arms[0].body], QuoteArms(arms[1..]),
        ArmExprs(arms[1..]));
    }
  }

  lemma {:induction false} QuoteFieldsDenote(fields: seq<Field>)
    requires forall i :: 0 <= i < |fields| ==> VarName(fields[i].name) && Expressible(fields[i].value)
    ensures DenoteAll(QuoteFields(fields), FieldExprs(fields))
    decreases fields
  {
    if fields == [] {
      DenoteNone();
    } else {
      var Field(name, value) := fields[0];
      WordDenotes(name);
      QuoteDenotes(fields[0].value);
      QuoteFieldsDenote(fields[1..]);
      DenoteTwo(WordTree(name), Var(name), Quote(value), value);
      DenoteConcat([WordTree(name), Quote(value)], [Var(name), value], QuoteFields(fields[1..]),
        FieldExprs(fields[1..]));
    }
  }

  lemma {:induction false} QuoteEntryDenotes(entry: MapEntry)
    requires Expressible(entry.key) && Expressible(entry.value)
    ensures DenoteAll(QuoteEntry(entry), [entry.key, entry.value])
    decreases entry
  {
    QuoteDenotes(entry.key);
    QuoteDenotes(entry.value);
    DenoteTwo(Quote(entry.key), entry.key, Quote(entry.value), entry.value);
  }

  lemma {:induction false} QuoteEntriesDenote(entries: seq<MapEntry>)
    requires forall i :: 0 <= i < |entries| ==> Expressible(entries[i].key) && Expressible(entries[i].value)
    ensures DenoteAll(QuoteEntries(entries), EntryExprs(entries))
    decreases entries
  {
    if entries == [] {
      DenoteNone();
    } else {
      QuoteEntryDenotes(entries[0]);
      QuoteEntriesDenote(entries[1..]);
      DenoteConcat(QuoteEntry(entries[0]), [entries[0].key, entries[0].value],
                   QuoteEntries(entries[1..]), EntryExprs(entries[1..]));
    }
  }

  /** Parsing inverts printing on the whole language of the parser. */
  lemma {:induction false} ParseInvertsPrint(e: Expr)
    requires Expressible(e)
    ensures Parse(Print(Quote(e))) == Read(e, [])
  {
    QuoteDenotes(e);
    PrintedTreeParses(Quote(e));
  }

  // ---------------------------------------------------------------- the parser builds nothing else

  ghost predicate AllExpressible(es: seq<Expr>) {
    forall i :: 0 <= i < |es| ==> Expressible(es[i])
  }

  /** An expressible expression that renders as a pattern is a pattern expression. */
  lemma {:induction false} RenderedIsPattern(e: Expr)
    requires Expressible(e) && RenderPattern(e).Some?
    ensures PatternExpr(e)
    decreases e
  {
    match e
    case Call(func, args) => RenderedArePatterns(args);
    case Variant(tag, Some(inner)) => RenderedIsPattern(inner);
    case _ =>
  }

  lemma {:induction false} RenderedArePatterns(es: seq<Expr>)
    requires AllExpressible(es) && RenderPatterns(es).Some?
    ensures forall i :: 0 <= i < |es| ==> PatternExpr(es[i])
    decreases es
  {
    if es != [] {
      RenderedIsPattern(es[0]);
      RenderedArePatterns(es[1..]);
      assert forall i :: 1 <= i < |es| ==> es[i] == es[1..][i - 1];
    }
  }

  lemma {:induction false} ArmsExpressible(es: seq<Expr>)
    requires |es| % 2 == 0 && AllExpressible(es) && Arms(es).Some?
    ensures var arms := Arms(es).value;
            |arms| == |es| / 2
            && forall i :: 0 <= i < |arms| ==> PatternText(arms[i].pattern) && Expressible(arms[i].body)
  {
    if es != [] {
      RenderedIsPattern(es[0]);
      ArmsExpressible(es[2..]);
      assert Arms(es).value == [Arm(RenderPattern(es[0]).value, es[1])] + Arms(es[2..]).value;
    }
  }

  lemma {:induction false} FieldsExpressible(es: seq<Expr>)
    requires |es| % 2 == 0 && AllExpressible(es) && Fields(es).Some?
    ensures var fields := Fields(es).value;
            forall i :: 0 <= i < |fields| ==> VarName(fields[i].name) && Expressible(fields[i].value)
  {
    if es != [] {
      FieldsExpressible(es[2..]);
      assert Expressible(es[0]);
      assert Fields(es).value == [Field(es[0].name, es[1])] + Fields(es[2..]).value;
    }
  }

  lemma {:induction false} EntriesExpressible(es: seq<Expr>)
    requires |es| % 2 == 0 && AllExpressible(es)
    ensures Expressible(MapNew(MapEntries(es)))
  {
    if es != [] {
      EntriesExpressible(es[2..]);
      MapExpressible(MapEntry(es[0], es[1]), MapEntries(es[2..]));
    }
  }

  lemma {:induction false} MapExpressible(entry: MapEntry, entries: seq<MapEntry>)
    requires Expressible(entry.key) && Expressible(entry.value) && Expressible(MapNew(entries))
    ensures Expressible(MapNew([entry] + entries))
  {
    var all := [entry] + entries;
    forall i | 0 <= i < |all| ensures Expressible(all[i].key) && Expressible(all[i].value) {
      if i > 0 {
        assert all[i] == entries[i - 1];
      }
    }
  }

  lemma {:induction false} BuiltInNames()
    ensures VarName("None") && VarName("Some") && VarName("Ok") && VarName("Err")
    ensures VarName("log.write") && VarName("write")
  {
  }

  lemma {:induction false} NamedFormExpressible(form: Form, func: string, args: seq<Expr>)
    requires form in {LetForm, FieldForm, UpdateForm, ForEachForm, AbortForm, EffectForm}
    requires AllExpressible(args) && FromForm(form, func, args).Some?
    ensures Expressible(FromForm(form, func, args).value)
  {
  }

  lemma {:induction false} VariantFormExpressible(form: Form, func: string, args: seq<Expr>)
    requires form in {VariantForm, NoneForm, SomeForm, OkForm, ErrForm, PrintForm}
    requires AllExpressible(args) && FromForm(form, func, args).Some?
    ensures Expressible(FromForm(form, func, args).value)
  {
    BuiltInNames();
  }

  lemma {:induction false} PairFormExpressible(form: Form, func: string, args: seq<Expr>)
    requires form in {MatchForm, RecordForm, MapForm}
    requires AllExpressible(args) && FromForm(form, func, args).Some?
    ensures Expressible(FromForm(form, func, args).value)
  {
    if form == MatchForm {
      ArmsExpressible(args[1..]);
    } else if form == RecordForm {
      FieldsExpressible(args);
    } else {
      EntriesExpressible(args);
    }
  }

  lemma {:induction false} PlainFormExpressible(form: Form, func: string, args: seq<Expr>)
    requires form.OperatorForm? || (form.CallForm? && CallName(func))
    requires AllExpressible(args) && FromForm(form, func, args).Some?
    ensures Expressible(FromForm(form, func, args).value)
  {
  }

  /** A call of expressible arguments is expressible. */
  lemma {:induction false} CallExpressible(form: Form, func: string, args: seq<Expr>)
    requires Ident(func) && form == FormOf(func) && AllExpressible(args) && FromForm(form, func, args).Some?
    ensures Expressible(FromForm(form, func, args).value)
  {
    if form in {LetForm, FieldForm, UpdateForm, ForEachForm, AbortForm, EffectForm} {
      NamedFormExpressible(form, func, args);
    } else if form in {VariantForm, NoneForm, SomeForm, OkForm, ErrForm, PrintForm} {
      VariantFormExpressible(form, func, args);
    } else if form in {MatchForm, RecordForm, MapForm} {
      PairFormExpressible(form, func, args);
    } else if form == LambdaForm {
      LambdaExpressible(args);
    } else {
      PlainFormExpressible(form, func, args);
    }
  }

  lemma {:induction false} LambdaExpressible(args: seq<Expr>)
    requires args != [] && AllExpressible(args) && AllNames(args[..|args| - 1])
    ensures Expressible(Lambda(Names(args[..|args| - 1]), args[|args| - 1]))
  {
    var names := args[..|args| - 1];
    forall i | 0 <= i < |names| ensures VarName(Names(names)[i]) {
      assert Expressible(names[i]);
    }
  }

  lemma {:induction false} IdentRead(s: string)
    ensures AllIdentChars(s[..IdentLength(s)])
  {
    if s != [] && IsIdentChar(s[0]) {
      IdentRead(s[1..]);
      assert s[..IdentLength(s)] == [s[0]] + s[1..][..IdentLength(s[1..])];
    }
  }

  /** Without a number at the front the text does not start with a digit. */
  lemma {:induction false} NoNumberNoDigit(s: string)
    requires s != [] && Number(s).Read? && Number(s).value == None
    ensures !IsDigit(s[0])
  {
  }

  lemma {:induction false} DigitsReadAll(s: string)
    requires AllDigits(s)
    ensures DigitsLength(s) == |s|
  {
    DigitsRead(s, []);
    assert s + [] == s;
  }

  /** A number that is read is an integer in range or a float text. */
  lemma {:induction false} NumberExpressible(s: string)
    requires Number(s).Read? && Number(s).value.Some?
    ensures Expressible(Number(s).value.value)
  {
    var n := NumeralLength(s);
    var f := FractionLength(s[n..]);
    if f > 0 {
      FloatExpressible(s, n, f);
    }
  }

  lemma {:induction false} FloatExpressible(s: string, n: nat, f: nat)
    requires n == NumeralLength(s) && n > 0 && f == FractionLength(s[n..]) && f > 0
    ensures Expressible(Float(s[..n + f]))
  {
    var d := s[..n + f];
    var fraction := s[n..][..f];
    assert d == s[..n] + fraction && d[n..] == fraction;
    NumeralReads(s[..n], fraction);
    assert fraction[1..] == s[n..][1..][..f - 1];
    DigitsReadAll(fraction[1..]);
  }

  /** Whatever the parser returns is expressible. */
  lemma {:induction false} ParsedExpressible(s: string)
    requires ParseExpr(s).Read?
    ensures Expressible(ParseExpr(s).value)
    decreases |s|, 1
  {
    var t := SkipWs(s).rest;
    if t[0] != '"' {
      var number := Number(t);
      if number.value.Some? {
        NumberExpressible(t);
      } else {
        NoNumberNoDigit(t);
        NamedExpressible(t);
      }
    }
  }

  lemma {:induction false} NamedExpressible(s: string)
    requires s != [] && !IsDigit(s[0]) && ParseNamed(s).Read?
    ensures Expressible(ParseNamed(s).value)
    decreases |s|, 0
  {
    var n := IdentLength(s);
    IdentRead(s);
    var name := s[..n];
    var t := SkipWs(s[n..]).rest;
    if t != [] && t[0] == '(' {
      ArgsExpressible(t[1..]);
      CallExpressible(FormOf(name), name, ParseArgs(t[1..]).value);
    }
  }

  lemma {:induction false} ArgsExpressible(s: string)
    requires ParseArgs(s).Read?
    ensures AllExpressible(ParseArgs(s).value)
    decreases |s|, 3
  {
    var t := SkipWs(s).rest;
    if !(t != [] && t[0] == ')') {
      ArgListExpressible(t);
    }
  }

  lemma {:induction false} ArgListExpressible(s: string)
    requires ParseArgList(s).Read?
    ensures AllExpressible(ParseArgList(s).value)
    decreases |s|, 2
  {
    ParsedExpressible(s);
    var e := ParseExpr(s);
    var t := SkipWs(e.rest).rest;
    if t[0] == ',' {
      ArgListExpressible(t[1..]);
      assert ParseArgList(s).value == [e.value] + ParseArgList(t[1..]).value;
    }
  }

  /** The expressible expressions are exactly what the parser can return. */
  lemma {:induction false} ImageOfParser(e: Expr)
    ensures Expressible(e) <==> exists s :: Parse(s) == Read(e, [])
  {
    if Expressible(e) {
      ParseInvertsPrint(e);
    }
    forall s | Parse(s) == Read(e, []) ensures Expressible(e) {
      ParsedExpressible(s);
    }
  }
}
