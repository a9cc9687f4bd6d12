/** The line machine that reads an ACL change document. */
module AclDocument {
  import opened Base
  import opened Text
  import opened Decimal
  import opened Hex
  import opened Phases
  import opened Verbs
  import opened KvArgs

  // ---------------------------------------------------------------- pieces of a line

  /** A line cut at its first space. */
  datatype Line = Line(word: string, rest: Option<string>)

  function Cut(s: string): Line {
    if s == [] then Line([], None)
    else if s[0] == ' ' then Line([], Some(s[1..]))
    else
      var tail := Cut(s[1..]);
      Line([s[0]] + tail.word, tail.rest)
  }

  /** The length of the run of characters that are not white space. */
  function TokenLength(s: string): (n: nat)
    ensures n <= |s|
    ensures s != [] && !IsSpace(s[0]) ==> n > 0
  {
    if s == [] || IsSpace(s[0]) then 0 else 1 + TokenLength(s[1..])
  }

  /** The tokens between white space. */
  function Tokens(s: string): seq<string>
    decreases |s|
  {
    var t := TrimStart(s);
    TrimStartHead(s);
    var _ := TrimStartLength(s);
    if t == [] then [] else [t[..TokenLength(t)]] + Tokens(t[TokenLength(t)..])
  }

  function StripPrefix(s: string, prefix: string): Option<string> {
    if prefix <= s then Some(s[|prefix|..]) else None
  }

  /** An unsigned number: digits, perhaps after a plus, that fit the type. */
  function ParseUint(s: string, max: nat): Option<nat> {
    var digits := if s != [] && s[0] == '+' then s[1..] else s;
    if digits != [] && AllDigits(digits) && Spelled(digits) <= max then Some(Spelled(digits)) else None
  }

  function SnapshotIdOf(raw: string): Option<nat> {
    ParseUint(StripPrefix(raw, "snapshot_").GetOr(raw), U64_MAX)
  }

  /** The value of the first `key=value` token with this key. */
  function TokenValue(tokens: seq<string>, key: string): Option<string> {
    if tokens == [] then None
    else
      match StripPrefix(tokens[0], key + "=")
      case Some(v) => Some(ExtractString(v))
      case None => TokenValue(tokens[1..], key)
  }

  // ---------------------------------------------------------------- what a document holds

  datatype Section = TopLevel | Metadata | Requires | Ops | Expect | Approval | InBlock | InVerify

  datatype Precondition =
    | AssertExists(node: nat)
    | AssertHash(node: nat, hash: seq<Byte>)
    | AssertExistsByName(name: string)
    | AssertHashByName(name: string, hash: seq<Byte>)
    | AssertContext(name: string, contextHash: Option<string>)

  datatype ParsedBlock = ParsedBlock(kind: string, blockRef: string, content: string, hash: Option<string>)

  /** Metadata; schema versions and composition lists are kept under the name of their directive. */
  datatype Meta = Meta(author: Option<string>, description: Option<string>, base: Option<nat>, aclVersion: string,
                       schemas: map<string, string>, composition: map<string, seq<string>>)

  /** Everything the scan keeps from line to line. */
  datatype State = State(section: Section, inVerify: bool, inChange: bool, block: Option<ParsedBlock>, meta: Meta,
                         ops: seq<ChangeSetOp>, parsedOps: seq<ParsedOp>, preconditions: seq<Precondition>,
                         claims: seq<string>, approval: seq<string>, blocks: seq<ParsedBlock>, verify: seq<string>)

  const START := State(TopLevel, false, false, None, Meta(None, None, None, "1.0", map[], map[]),
                       [], [], [], [], [], [], [])

  // ---------------------------------------------------------------- lines inside a section

  const SCHEMAS: set<string> :=
    {"op_schema", "graph_schema", "core_ir_schema", "diagnostics_schema", "verification_schema"}
  const COMPOSITION: set<string> := {"depends_on", "supersedes", "conflicts_with", "part_of", "blocks"}

  function Append(m: map<string, seq<string>>, key: string, v: string): map<string, seq<string>> {
    m[key := (if key in m then m[key] else []) + [v]]
  }

  /** A metadata directive: a word, a space and a value. */
  function MetadataLine(m: Meta, line: Line): Option<Meta> {
    match line.rest
    case None => None
    case Some(rest) =>
      var v := Trim(rest);
      if line.word == "author" then Some(m.(author := Some(v)))
      else if line.word == "description" then Some(m.(description := Some(v)))
      else if line.word == "intent" then Some(m.(description := Some(ExtractString(v))))
      else if line.word == "base" then
        (match SnapshotIdOf(v) case Some(id) => Some(m.(base := Some(id))) case None => None)
      else if line.word == "language" then
        (match StripPrefix(v, "acl/") case Some(ver) => Some(m.(aclVersion := ver)) case None => Some(m))
      else if line.word == "acl_version" then Some(m.(aclVersion := StripPrefix(v, "acl/").GetOr(v)))
      else if line.word in SCHEMAS then Some(m.(schemas := m.schemas[line.word := v]))
      else if line.word in COMPOSITION then Some(m.(composition := Append(m.composition, line.word, v)))
      else if line.word == "author_role" || line.word == "reason" then Some(m)
      else None
  }

  function PreconditionLine(line: Line): Option<Precondition> {
    match line.rest
    case None => None
    case Some(rest) =>
      if line.word == "assert_exists" then
        var id := Trim(rest);
        (match ParseUint(id, U32_MAX) case Some(n) => Some(AssertExists(n)) case None => Some(AssertExistsByName(id)))
      else if line.word == "assert_hash" then HashPrecondition(Cut(rest))
      else if line.word == "assert_context" then ContextPrecondition(Cut(rest))
      else None
  }

  /** A hash has 64 digits. */
  function HashPrecondition(args: Line): Option<Precondition> {
    var id := Trim(args.word);
    match TokenValue(Tokens(args.rest.GetOr("")), "sig")
    case None => None
    case Some(hex) =>
      if |hex| != 64 then None
      else
        match FromHex(hex)
        case None => None
        case Some(hash) =>
          match ParseUint(id, U32_MAX)
          case Some(n) => Some(AssertHash(n, hash))
          case None => Some(AssertHashByName(id, hash))
  }

  function ContextPrecondition(args: Line): Option<Precondition> {
    var name := Trim(args.word);
    var tokens := Tokens(args.rest.GetOr(""));
    if name == [] then None
    else Some(AssertContext(name, TokenValue(tokens, "hash").OrElse(TokenValue(tokens, "context_hash"))))
  }

  /** The verb and the arguments after `op `, cut at the first white space. */
  function OpLine(rest: string): Option<ParsedOp> {
    var n := TokenLength(rest);
    var verb := rest[..n];
    var args := if n == |rest| then "" else rest[n + 1..];
    match MapVerb(verb)
    case None => None
    case Some(kind) => Some(ParsedOp(kind, verb, Enter(map[], Pairs(Trim(Trim(args))))))
  }

  /** Attributes of the `change` line; unknown ones are ignored. */
  function ChangeAttrs(tokens: seq<string>, m: Meta): Option<Meta> {
    if tokens == [] then Some(m)
    else
      match StripPrefix(tokens[0], "acl=")
      case Some(v) => ChangeAttrs(tokens[1..], m.(aclVersion := v))
      case None =>
        match StripPrefix(tokens[0], "base=")
        case None => ChangeAttrs(tokens[1..], m)
        case Some(v) =>
          match SnapshotIdOf(v)
          case None => None
          case Some(id) => ChangeAttrs(tokens[1..], m.(base := Some(id)))
  }

  /** `<kind> @ref [attributes]`. */
  function BlockHeader(rest: string): Option<ParsedBlock> {
    var first := Cut(rest);
    if first.word == [] || first.rest.None? then None
    else
      var second := Cut(first.rest.value);
      if second.word == [] || second.word[0] != '@' then None
      else Some(ParsedBlock(first.word, second.word, [], TokenValue(Tokens(second.rest.GetOr("")), "hash")))
  }

  // ---------------------------------------------------------------- one line

  function Opener(line: string): Option<Section> {
    if line == "metadata" then Some(Metadata)
    else if line == "requires" then Some(Requires)
    else if line == "ops" then Some(Ops)
    else if line == "expect" then Some(Expect)
    else if line == "approval" then Some(Approval)
    else None
  }

  /** `end` closes what was opened last. */
  function Close(st: State): State {
    if st.block.Some? then st.(blocks := st.blocks + [st.block.value], block := None)
    else if st.inVerify then st.(inVerify := false, section := TopLevel)
    else if st.section == TopLevel then st.(inChange := false)
    else st.(section := TopLevel)
  }

  function AddContent(b: ParsedBlock, line: string): ParsedBlock {
    b.(content := (if b.content == [] then [] else b.content + ['\n']) + line)
  }

  /** A line for the current section, which is neither a block nor the verify section. */
  function Dispatch(st: State, text: string, line: Line): Option<State> {
    match st.section
    case Metadata =>
      (match MetadataLine(st.meta, line) case Some(m) => Some(st.(meta := m)) case None => None)
    case Requires =>
      (match PreconditionLine(line)
       case Some(p) => Some(st.(preconditions := st.preconditions + [p]))
       case None => None)
    case Expect => Some(st.(claims := st.claims + [text]))
    case Approval => Some(st.(approval := st.approval + [text]))
    case InBlock => Some(st)
    case InVerify => Some(st)
    case _ =>
      if line.word == "op" && line.rest.Some? then
        match OpLine(line.rest.value)
        case Some(op) => Some(st.(ops := st.ops + [op.kind], parsedOps := st.parsedOps + [op]))
        case None => None
      else if st.section == TopLevel then
        match MetadataLine(st.meta, line) case Some(m) => Some(st.(meta := m)) case None => None
      else None
  }

  /** The `change` line that opens a document. */
  function OpenChange(st: State, line: Line): Option<State> {
    if st.inChange then None
    else
      var attrs := if line.rest.None? then "" else Cut(line.rest.value).rest.GetOr("");
      match ChangeAttrs(Tokens(attrs), st.meta)
      case None => None
      case Some(m) => Some(st.(inChange := true, meta := m))
  }

  /** A line outside a block that is not blank, a comment, `change` or `end`. */
  function StepOutside(st: State, text: string, line: Line): Option<State> {
    if line.word == "block" && line.rest.Some? && st.section == TopLevel then
      match BlockHeader(line.rest.value) case Some(b) => Some(st.(block := Some(b))) case None => None
    else if st.section in {TopLevel, InVerify} && text == "verify" then
      Some(st.(inVerify := true, section := InVerify))
    else if st.section in {TopLevel, InVerify} && line.word == "verify" then
      Some(st.(verify := st.verify + [Trim(line.rest.GetOr(""))]))
    else if st.section == InVerify then Some(st.(verify := st.verify + [text]))
    else
      match Opener(text)
      case Some(section) => Some(st.(section := section))
      case None => Dispatch(st, text, line)
  }

  function BlankLine(st: State): State {
    if st.block.Some? then st.(block := Some(st.block.value.(content := st.block.value.content + ['\n']))) else st
  }

  function StepText(st: State, text: string): Option<State> {
    var line := Cut(text);
    if text == [] then Some(BlankLine(st))
    else if text[0] == '#' then Some(st)
    else if line.word == "change" then OpenChange(st, line)
    else if text == "end" then Some(Close(st))
    else if st.block.Some? then Some(st.(block := Some(AddContent(st.block.value, text))))
    else StepOutside(st, text, line)
  }

  /** One line of the document; `None` is a parse error. */
  function Step(st: State, raw: string): Option<State> {
    StepText(st, Trim(raw))
  }

  // ---------------------------------------------------------------- the whole document

  function Run(st: State, lines: seq<string>): Option<State> {
    RunAll(Step, st, lines)
  }

  /** A finished document closes every section and names its author and its base. */
  predicate Complete(st: State) {
    st.block.None? && st.section == TopLevel && st.meta.author.Some? && st.meta.base.Some?
  }

  function Accepted(lines: seq<string>): Option<State> {
    match Run(START, lines)
    case Some(st) => if Complete(st) then Some(st) else None
    case None => None
  }

  /** The operation lists run in parallel, and every kind is the one its verb stands for. */
  ghost predicate Parallel(ops: seq<ChangeSetOp>, parsedOps: seq<ParsedOp>) {
    && |ops| == |parsedOps|
    && (forall i :: 0 <= i < |ops| ==> ops[i] == parsedOps[i].kind)
    && KindsMatch(parsedOps)
  }

  /** An open block lies in the top-level section, the verify flag marks the verify section, and the block section is
      never entered. */
  predicate WellNested(section: Section, inVerify: bool, inBlock: bool) {
    (inBlock ==> section == TopLevel) && (inVerify <==> section == InVerify) && section != InBlock
  }

  ghost predicate Consistent(st: State) {
    WellNested(st.section, st.inVerify, st.block.Some?) && Parallel(st.ops, st.parsedOps)
  }

  lemma {:induction false} OpLineKind(rest: string)
    requires OpLine(rest).Some?
    ensures MapVerb(OpLine(rest).value.verb) == Some(OpLine(rest).value.kind)
  {
  }

  lemma {:induction false} ParallelAppend(ops: seq<ChangeSetOp>, parsedOps: seq<ParsedOp>, op: ParsedOp)
    requires Parallel(ops, parsedOps) && MapVerb(op.verb) == Some(op.kind)
    ensures Parallel(ops + [op.kind], parsedOps + [op])
  {
  }

  /** A dispatched line leaves the nesting alone and adds at most one operation, to both lists. */
  lemma {:induction false} DispatchFrame(st: State, text: string, line: Line)
    requires Dispatch(st, text, line).Some?
    ensures var r := Dispatch(st, text, line).value;
            && r.section == st.section && r.inVerify == st.inVerify && r.block == st.block
            && (|| (r.ops == st.ops && r.parsedOps == st.parsedOps)
                || (&& line.rest.Some? && OpLine(line.rest.value).Some?
                    && var op := OpLine(line.rest.value).value;
                       r.ops == st.ops + [op.kind] && r.parsedOps == st.parsedOps + [op]))
  {
  }

  lemma {:induction false} DispatchConsistent(st: State, text: string, line: Line)
    requires Consistent(st) && Dispatch(st, text, line).Some?
    ensures Consistent(Dispatch(st, text, line).value)
  {
    DispatchFrame(st, text, line);
    if line.rest.Some? && OpLine(line.rest.value).Some? {
      OpLineKind(line.rest.value);
      ParallelAppend(st.ops, st.parsedOps, OpLine(line.rest.value).value);
    }
  }

  lemma {:induction false} CloseConsistent(st: State)
    requires Consistent(st)
    ensures Consistent(Close(st))
  {
  }

  lemma {:induction false} OutsideConsistent(st: State, text: string, line: Line)
    requires Consistent(st) && st.block.None? && StepOutside(st, text, line).Some?
    ensures Consistent(StepOutside(st, text, line).value)
  {
    if Dispatch(st, text, line).Some? {
      DispatchConsistent(st, text, line);
    }
  }

  /** Every line keeps the scan consistent. */
  lemma {:induction false} StepConsistent(st: State, raw: string)
    requires Consistent(st) && Step(st, raw).Some?
    ensures Consistent(Step(st, raw).value)
  {
    var text := Trim(raw);
    CloseConsistent(st);
    if st.block.None? && StepOutside(st, text, Cut(text)).Some? {
      OutsideConsistent(st, text, Cut(text));
    }
  }

  /** The parser: a scan over the lines, consistent throughout. */
  method ParseChangeset(lines: seq<string>) returns (r: Option<State>)
    ensures r == Accepted(lines)
    ensures r.Some? ==> Consistent(r.value) && Complete(r.value)
  {
    var st := START;
    for i := 0 to |lines|
      invariant Run(START, lines[..i]) == Some(st)
      invariant Consistent(st)
    {
      assert lines[..i + 1][..i] == lines[..i];
      var next := Step(st, lines[i]);
      if next == None {
        RunAllFails(Step, START, lines, i + 1);
        return None;
      }
      StepConsistent(st, lines[i]);
      st := next.value;
    }
    assert lines[..|lines|] == lines;
    r := if Complete(st) then Some(st) else None;
  }

  // ---------------------------------------------------------------- runs of lines

  ghost predicate Leads(from: State, lines: seq<string>, to: State) {
    Run(from, lines) == Some(to)
  }

  lemma {:induction false} LeadsNowhere(st: State)
    ensures Leads(st, [], st)
  {
  }

  lemma {:induction false} LeadsOne(st: State, line: string, to: State)
    requires Step(st, line) == Some(to)
    ensures Leads(st, [line], to)
  {
    RunAllOne(Step, st, line);
  }

  lemma {:induction false} LeadsOn(from: State, a: seq<string>, mid: State, b: seq<string>, to: State)
    requires Leads(from, a, mid) && Leads(mid, b, to)
    ensures Leads(from, a + b, to)
  {
    RunAllConcat(Step, from, a, b);
  }

  lemma {:induction false} LeadsFirst(from: State, line: string, mid: State, rest: seq<string>, to: State)
    requires Step(from, line) == Some(mid) && Leads(mid, rest, to)
    ensures Leads(from, [line] + rest, to)
  {
    LeadsOne(from, line, mid);
    LeadsOn(from, [line], mid, rest, to);
  }
}
