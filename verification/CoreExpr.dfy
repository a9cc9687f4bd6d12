/** Core expressions in call syntax: what each call name builds. */
module CoreExpr {
  import opened Base
  import opened Decimal

  /** The operators whose operands are all expressions. */
  datatype Operator =
    | If | Unit | Tuple | List | SetNew | Index
    | Add | Sub | Mul | Div | Mod | Eq | Ne | Lt | Le | Gt | Ge | Not | And | Or
    | Loop | While | Break | Continue | Return | Fold | CellNew | CellGet | CellSet

  /** How many operands; `None` is any number. */
  function Arity(op: Operator): Option<nat> {
    match op
    case If => Some(3)
    case Fold => Some(3)
    case Unit => Some(0)
    case Continue => Some(0)
    case Tuple => None
    case List => None
    case SetNew => None
    case Not => Some(1)
    case Loop => Some(1)
    case Break => Some(1)
    case Return => Some(1)
    case CellNew => Some(1)
    case CellGet => Some(1)
    case _ => Some(2)
  }

  datatype Arm = Arm(pattern: string, body: Expr)
  datatype Field = Field(name: string, value: Expr)
  datatype MapEntry = MapEntry(key: Expr, value: Expr)

  /** The expressions the parser can build. A float literal keeps its text. */
  datatype Expr =
    | Text(text: string)
    | Int(value: int)
    | Float(digits: string)
    | Bool(truth: bool)
    | Var(name: string)
    | Node(op: Operator, operands: seq<Expr>)
    | Let(bound: string, init: Expr, body: Expr)
    | Match(scrutinee: Expr, arms: seq<Arm>)
    | Record(fields: seq<Field>)
    | FieldGet(record: Expr, field: string)
    | FieldUpdate(record: Expr, field: string, fieldValue: Expr)
    | Variant(tag: string, payload: Option<Expr>)
    | Abort(message: string)
    | EffectCall(capability: string, operation: string, effectArgs: seq<Expr>)
    | Lambda(params: seq<string>, body: Expr)
    | ForEach(binding: string, collection: Expr, body: Expr)
    | MapNew(entries: seq<MapEntry>)
    | Call(func: string, args: seq<Expr>)

  /** What a call name stands for. */
  datatype Form =
    | LetForm | MatchForm | RecordForm | FieldForm | UpdateForm | VariantForm | NoneForm | SomeForm | OkForm | ErrForm
    | AbortForm | PrintForm | EffectForm | LambdaForm | ForEachForm | MapForm
    | OperatorForm(op: Operator)
    | CallForm

  function FormOf(func: string): Form {
    match |func|
    case 2 =>
      if func == "if" then OperatorForm(If) else if func == "eq" then OperatorForm(Eq)
      else if func == "ne" then OperatorForm(Ne) else if func == "lt" then OperatorForm(Lt)
      else if func == "le" then OperatorForm(Le) else if func == "gt" then OperatorForm(Gt)
      else if func == "ge" then OperatorForm(Ge) else if func == "ok" then OkForm
      else if func == "or" then OperatorForm(Or) else CallForm
    case 3 =>
      if func == "let" then LetForm else if func == "add" then OperatorForm(Add)
      else if func == "sub" then OperatorForm(Sub) else if func == "mul" then OperatorForm(Mul)
      else if func == "div" then OperatorForm(Div) else if func == "mod" then OperatorForm(Mod)
      else if func == "not" then OperatorForm(Not) else if func == "err" then ErrForm
      else if func == "and" then OperatorForm(And) else if func == "map" then MapForm
      else if func == "set" then OperatorForm(SetNew) else CallForm
    case 4 =>
      if func == "unit" then OperatorForm(Unit) else if func == "list" then OperatorForm(List)
      else if func == "none" then NoneForm else if func == "some" then SomeForm
      else if func == "loop" then OperatorForm(Loop) else if func == "fold" then OperatorForm(Fold)
      else CallForm
    case 5 =>
      if func == "match" then MatchForm else if func == "field" then FieldForm
      else if func == "tuple" then OperatorForm(Tuple) else if func == "abort" then AbortForm
      else if func == "while" then OperatorForm(While) else if func == "break" then OperatorForm(Break)
      else if func == "print" then PrintForm else if func == "index" then OperatorForm(Index)
      else CallForm
    case 6 =>
      if func == "record" then RecordForm else if func == "update" then UpdateForm
      else if func == "return" then OperatorForm(Return) else if func == "lambda" then LambdaForm
      else CallForm
    case 7 => if func == "variant" then VariantForm else if func == "foreach" then ForEachForm else CallForm
    case 8 =>
      if func == "continue" then OperatorForm(Continue) else if func == "cell_new" then OperatorForm(CellNew)
      else if func == "cell_get" then OperatorForm(CellGet) else if func == "cell_set" then OperatorForm(CellSet)
      else CallForm
    case 11 => if func == "effect_call" then EffectForm else CallForm
    case _ => CallForm
  }

  // ---------------------------------------------------------------- building from a call

  function NameOf(e: Expr): Option<string> {
    if e.Var? then Some(e.name) else None
  }

  predicate AllNames(es: seq<Expr>) {
    forall i :: 0 <= i < |es| ==> es[i].Var?
  }

  /** The names of variables, in order. */
  function Names(es: seq<Expr>): (r: seq<string>)
    requires AllNames(es)
    ensures |r| == |es| && forall i :: 0 <= i < |es| ==> r[i] == es[i].name
  {
    seq(|es|, i requires 0 <= i < |es| => es[i].name)
  }

  /** `-` and decimal digits. */
  function IntText(n: int): string {
    if n < 0 then "-" + Dec(-n) else Dec(n)
  }

  function Join(parts: seq<string>): string {
    if parts == [] then [] else if |parts| == 1 then parts[0] else parts[0] + ", " + Join(parts[1..])
  }

  /** The text of a match pattern; only names, booleans, integers and constructors are patterns. */
  function RenderPattern(e: Expr): Option<string>
    decreases e
  {
    match e
    case Var(name) => Some(name)
    case Bool(b) => Some(if b then "true" else "false")
    case Int(n) => Some(IntText(n))
    case Call(func, args) =>
      (match RenderPatterns(args)
       case Some(parts) => Some(func + "(" + Join(parts) + ")")
       case None => None)
    case Variant(tag, None) => Some(tag)
    case Variant(tag, Some(inner)) =>
      (match RenderPattern(inner)
       case Some(part) => Some(tag + "(" + part + ")")
       case None => None)
    case _ => None
  }

  function RenderPatterns(es: seq<Expr>): (r: Option<seq<string>>)
    ensures r.Some? ==> |r.value| == |es|
    decreases es
  {
    if es == [] then Some([])
    else
      match RenderPattern(es[0])
      case None => None
      case Some(p) =>
        match RenderPatterns(es[1..])
        case None => None
        case Some(ps) => Some([p] + ps)
  }

  /** Pattern and body pairs. */
  function Arms(es: seq<Expr>): Option<seq<Arm>>
    requires |es| % 2 == 0
  {
    if es == [] then Some([])
    else
      match RenderPattern(es[0])
      case None => None
      case Some(p) =>
        match Arms(es[2..])
        case None => None
        case Some(rest) => Some([Arm(p, es[1])] + rest)
  }

  /** Name and value pairs. */
  function Fields(es: seq<Expr>): Option<seq<Field>>
    requires |es| % 2 == 0
  {
    if es == [] then Some([])
    else if !es[0].Var? then None
    else
      match Fields(es[2..])
      case None => None
      case Some(rest) => Some([Field(es[0].name, es[1])] + rest)
  }

  function MapEntries(es: seq<Expr>): seq<MapEntry>
    requires |es| % 2 == 0
  {
    if es == [] then [] else [MapEntry(es[0], es[1])] + MapEntries(es[2..])
  }

  function FromForm(form: Form, func: string, args: seq<Expr>): Option<Expr> {
    match form
    case LetForm => if |args| == 3 && args[0].Var? then Some(Let(args[0].name, args[1], args[2])) else None
    case MatchForm =>
      if |args| < 3 || |args| % 2 == 0 then None
      else (match Arms(args[1..]) case Some(arms) => Some(Match(args[0], arms)) case None => None)
    case RecordForm =>
      if |args| % 2 != 0 then None
      else (match Fields(args) case Some(fields) => Some(Record(fields)) case None => None)
    case FieldForm => if |args| == 2 && args[1].Var? then Some(FieldGet(args[0], args[1].name)) else None
    case UpdateForm =>
      if |args| == 3 && args[1].Var? then Some(FieldUpdate(args[0], args[1].name, args[2])) else None
    case VariantForm =>
      if 1 <= |args| <= 2 && args[0].Var?
      then Some(Variant(args[0].name, if |args| == 2 then Some(args[1]) else None)) else None
    case NoneForm => if args == [] then Some(Variant("None", None)) else None
    case SomeForm => if |args| == 1 then Some(Variant("Some", Some(args[0]))) else None
    case OkForm => if |args| == 1 then Some(Variant("Ok", Some(args[0]))) else None
    case ErrForm => if |args| == 1 then Some(Variant("Err", Some(args[0]))) else None
    case AbortForm =>
      if |args| != 1 then None
      else if args[0].Text? then Some(Abort(args[0].text))
      else if args[0].Var? then Some(Abort(args[0].name))
      else None
    case PrintForm => if |args| == 1 && args[0].Text? then Some(EffectCall("log.write", "write", args)) else None
    case EffectForm =>
      if |args| >= 2 && args[0].Var? && args[1].Var?
      then Some(EffectCall(args[0].name, args[1].name, args[2..])) else None
    case LambdaForm =>
      if args == [] then None
      else
        var params := args[..|args| - 1];
        if AllNames(params) then Some(Lambda(Names(params), args[|args| - 1])) else None
    case ForEachForm => if |args| == 3 && args[0].Var? then Some(ForEach(args[0].name, args[1], args[2])) else None
    case MapForm => if |args| % 2 == 0 then Some(MapNew(MapEntries(args))) else None
    case OperatorForm(op) =>
      if Arity(op) == None || Arity(op) == Some(|args|) then Some(Node(op, args)) else None
    case CallForm => Some(Call(func, args))
  }

  /** The expression a call stands for, or `None` for a malformed special form. */
  function FromCall(func: string, args: seq<Expr>): Option<Expr> {
    FromForm(FormOf(func), func, args)
  }
}
