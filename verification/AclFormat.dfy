/** The canonical text of a change document, and when the parser reads it back. */
module AclFormat {
  import opened Base
  import opened Text
  import opened Decimal
  import opened Hex
  import opened Phases
  import opened Verbs
  import opened KvArgs
  import opened AclDocument
  import opened AclContent

  /** An operation with its arguments in key order. */
  datatype OpText = OpText(verb: string, args: seq<Pair>)

  /** A block with its content. */
  datatype BlockText = BlockText(kind: string, blockRef: string, hash: Option<string>, content: string)

  /** A canonical change document; schema versions and composition are directive and value. */
  datatype Document = Document(
    version: string, base: nat, author: string, description: Option<string>, schemas: seq<Pair>, composition: seq<Pair>,
    preconditions: seq<Precondition>, ops: seq<OpText>, claims: seq<string>, approval: seq<string>,
    blocks: seq<BlockText>, verify: seq<string>)

  // ---------------------------------------------------------------- rendering

  function DirectiveLine(d: Pair): string {
    d.key + " " + FormatValue(d.value)
  }

  function DirectiveLines(ds: seq<Pair>): seq<string> {
    if ds == [] then [] else [DirectiveLine(ds[0])] + DirectiveLines(ds[1..])
  }

  /** The first word of a precondition line. */
  function PreconditionWord(p: Precondition): string {
    match p
    case AssertExists(_) => "assert_exists"
    case AssertHash(_, _) => "assert_hash"
    case AssertExistsByName(_) => "assert_exists"
    case AssertHashByName(_, _) => "assert_hash"
    case AssertContext(_, _) => "assert_context"
  }

  function PreconditionRest(p: Precondition): string {
    match p
    case AssertExists(n) => Dec(n)
    case AssertHash(n, h) => Dec(n) + " " + ("sig=" + HexText(h))
    case AssertExistsByName(name) => FormatValue(name)
    case AssertHashByName(name, h) => FormatValue(name) + " " + ("sig=" + HexText(h))
    case AssertContext(name, None) => FormatValue(name)
    case AssertContext(name, Some(h)) => FormatValue(name) + " " + ("hash=" + FormatValue(h))
  }

  function PreconditionText(p: Precondition): string {
    PreconditionWord(p) + " " + PreconditionRest(p)
  }

  function PreconditionTexts(ps: seq<Precondition>): seq<string> {
    if ps == [] then [] else [PreconditionText(ps[0])] + PreconditionTexts(ps[1..])
  }

  function OpTextLine(op: OpText): string {
    "op " + (op.verb + KvArgs.Render(op.args))
  }

  function OpLines(ops: seq<OpText>): seq<string> {
    if ops == [] then [] else [OpTextLine(ops[0])] + OpLines(ops[1..])
  }

  function Indented(lines: seq<string>): seq<string> {
    if lines == [] then [] else ["  " + lines[0]] + Indented(lines[1..])
  }

  /** A section with its opening word and its `end`; an empty one is left out. */
  function SectionLines(name: string, lines: seq<string>): seq<string> {
    if lines == [] then [] else [name] + Indented(lines) + ["end"]
  }

  function BlockHeaderLine(b: BlockText): string {
    "block " + (b.kind + " " + (b.blockRef + if b.hash.Some? then " hash=" + FormatValue(b.hash.value) else ""))
  }

  function BlockLines(b: BlockText): seq<string> {
    [BlockHeaderLine(b)] + WrittenLines(b.content) + ["end"]
  }

  function AllBlockLines(bs: seq<BlockText>): seq<string> {
    if bs == [] then [] else BlockLines(bs[0]) + AllBlockLines(bs[1..])
  }

  function HeaderLine(version: string, base: nat): string {
    "change " + ("formatted " + ("acl=" + version + " base=" + Dec(base)))
  }

  function HeadDirectives(d: Document): seq<Pair> {
    [Pair("author", d.author)] + if d.description.Some? then [Pair("description", d.description.value)] else []
  }

  function Head(d: Document): seq<string> {
    [HeaderLine(d.version, d.base)] + DirectiveLines(HeadDirectives(d))
  }

  function Directives(d: Document): seq<string> {
    DirectiveLines(d.schemas) + DirectiveLines(d.composition)
  }

  function Sections(d: Document): seq<string> {
    SectionLines("requires", PreconditionTexts(d.preconditions)) + SectionLines("ops", OpLines(d.ops))
    + SectionLines("expect", d.claims) + SectionLines("approval", d.approval)
  }

  function Tail(d: Document): seq<string> {
    AllBlockLines(d.blocks) + SectionLines("verify", d.verify) + ["end"]
  }

  /** The lines of the canonical text. */
  function Lines(d: Document): seq<string> {
    Head(d) + Directives(d) + Sections(d) + Tail(d)
  }

  // ---------------------------------------------------------------- what should be read back

  function LoadOp(op: OpText): Option<ParsedOp> {
    match MapVerb(op.verb)
    case Some(kind) => Some(ParsedOp(kind, op.verb, Enter(map[], op.args)))
    case None => None
  }

  function LoadBlock(b: BlockText): ParsedBlock {
    ParsedBlock(b.kind, b.blockRef, b.content, b.hash)
  }

  // ---------------------------------------------------------------- lines as written

  /** A value that is written and read without quotes. */
  predicate Plain(v: string) {
    !NeedsQuotes(v)
  }

  lemma {:induction false} PlainTrimmed(v: string)
    requires Plain(v)
    ensures Trimmed(v) && Trim(v) == v && ' ' !in v
  {
    assert !IsSpace(v[0]) && !IsSpace(v[|v| - 1]);
    TrimNothing(v);
    AsciiSpaces(' ');
  }

  lemma {:induction false} IndentTrims(s: string)
    requires Trimmed(s)
    ensures Trim("  " + s) == s
  {
    AsciiSpaces(' ');
    TrimNothing(s);
    assert (" " + s)[1..] == s && TrimStart(" " + s) == s;
    assert ("  " + s)[1..] == " " + s && TrimStart("  " + s) == s;
  }

  lemma {:induction false} CutWord(word: string)
    requires ' ' !in word
    ensures Cut(word) == Line(word, None)
  {
    if word != [] {
      CutWord(word[1..]);
      assert word == [word[0]] + word[1..];
    }
  }

  lemma {:induction false} CutAt(word: string, rest: string)
    requires ' ' !in word
    ensures Cut(word + " " + rest) == Line(word, Some(rest))
  {
    var s := word + " " + rest;
    if word == [] {
      assert s[0] == ' ' && s[1..] == rest;
    } else {
      CutAt(word[1..], rest);
      assert s[1..] == word[1..] + " " + rest;
      assert word == [word[0]] + word[1..];
    }
  }

  /** Between the sections of an open change. */
  predicate Between(st: State) {
    st.section == TopLevel && !st.inVerify && st.block.None? && st.inChange
  }

  /** A line of a word and more that no structural rule catches. */
  predicate PlainWord(word: string) {
    word != [] && ' ' !in word && word[0] != '#' && word !in {"change", "block", "verify"}
  }

  lemma {:induction false} NoOpener(text: string)
    requires ' ' in text
    ensures Opener(text) == None && text != "end" && text != "verify"
  {
  }

  /** Such a line goes to the current section. */
  lemma {:induction false} WordLine(st: State, word: string, rest: string, text: string)
    requires PlainWord(word) && text == word + " " + rest && Trimmed(text)
    requires st.block.None? && st.section != InVerify
    ensures StepText(st, text) == Dispatch(st, text, Line(word, Some(rest)))
  {
    CutAt(word, rest);
    assert text[|word|] == ' ';
    NoOpener(text);
  }

  lemma {:induction false} WordTrimmed(word: string, rest: string)
    requires word != [] && !IsSpace(word[0]) && rest != [] && !IsSpace(rest[|rest| - 1])
    ensures Trimmed(word + " " + rest)
  {
  }

  // ---------------------------------------------------------------- directives

  /** The directives the formatter writes. */
  predicate Directive(word: string) {
    word == "author" || word == "description" || word in SCHEMAS || word in COMPOSITION
  }

  lemma {:induction false} DirectiveWord(word: string)
    requires Directive(word)
    ensures PlainWord(word) && word != "op" && !IsSpace(word[0])
  {
    AsciiSpaces(word[0]);
  }

  function WithDirective(m: Meta, d: Pair): Meta {
    if d.key == "author" then m.(author := Some(d.value))
    else if d.key == "description" then m.(description := Some(d.value))
    else if d.key in SCHEMAS then m.(schemas := m.schemas[d.key := d.value])
    else m.(composition := Append(m.composition, d.key, d.value))
  }

  lemma {:induction false} DirectiveMeta(m: Meta, d: Pair)
    requires Directive(d.key) && Trim(d.value) == d.value
    ensures MetadataLine(m, Line(d.key, Some(d.value))) == Some(WithDirective(m, d))
  {
  }

  lemma {:induction false} DirectiveReads(st: State, d: Pair)
    requires Between(st) && Directive(d.key) && Plain(d.value)
    ensures Step(st, DirectiveLine(d)) == Some(st.(meta := WithDirective(st.meta, d)))
  {
    var text := d.key + " " + d.value;
    PlainTrimmed(d.value);
    DirectiveWord(d.key);
    WordTrimmed(d.key, d.value);
    TrimmedTrims(text);
    WordLine(st, d.key, d.value, text);
    DirectiveMeta(st.meta, d);
  }

  function WithDirectives(m: Meta, ds: seq<Pair>): Meta
    decreases |ds|
  {
    if ds == [] then m else WithDirectives(WithDirective(m, ds[0]), ds[1..])
  }

  predicate DirectivesOk(ds: seq<Pair>) {
    forall i :: 0 <= i < |ds| ==> Directive(ds[i].key) && Plain(ds[i].value)
  }

  lemma {:induction false} DirectivesRead(st: State, ds: seq<Pair>)
    requires Between(st) && DirectivesOk(ds)
    ensures Leads(st, DirectiveLines(ds), st.(meta := WithDirectives(st.meta, ds)))
    decreases |ds|
  {
    if ds == [] {
      LeadsNowhere(st);
    } else {
      DirectiveReads(st, ds[0]);
      var mid := st.(meta := WithDirective(st.meta, ds[0]));
      DirectivesRead(mid, ds[1..]);
      LeadsFirst(st, DirectiveLine(ds[0]), mid, DirectiveLines(ds[1..]), st.(meta := WithDirectives(st.meta, ds)));
    }
  }

  // ---------------------------------------------------------------- free-text sections

  predicate ClaimOk(text: string) {
    FreeText(text) && Opener(text) == None
  }

  predicate AllClaimsOk(lines: seq<string>) {
    forall i :: 0 <= i < |lines| ==> ClaimOk(lines[i])
  }

  predicate VerifyOk(text: string) {
    FreeText(text) && Cut(text).word != "verify"
  }

  lemma {:induction false} ClaimReads(st: State, text: string)
    requires st.section == Expect && st.block.None? && ClaimOk(text)
    ensures Step(st, "  " + text) == Some(st.(claims := st.claims + [text]))
  {
    IndentTrims(text);
  }

  lemma {:induction false} ApprovalReads(st: State, text: string)
    requires st.section == Approval && st.block.None? && ClaimOk(text)
    ensures Step(st, "  " + text) == Some(st.(approval := st.approval + [text]))
  {
    IndentTrims(text);
  }

  lemma {:induction false} VerifyReads(st: State, text: string)
    requires st.section == InVerify && st.block.None? && VerifyOk(text)
    ensures Step(st, "  " + text) == Some(st.(verify := st.verify + [text]))
  {
    IndentTrims(text);
    if text == "verify" {
      CutWord("verify");
    }
  }

  lemma {:induction false} ClaimsRead(st: State, lines: seq<string>)
    requires st.section == Expect && st.block.None? && AllClaimsOk(lines)
    ensures Leads(st, Indented(lines), st.(claims := st.claims + lines))
    decreases |lines|
  {
    if lines == [] {
      LeadsNowhere(st);
      assert st.claims + lines == st.claims;
    } else {
      ClaimReads(st, lines[0]);
      var mid := st.(claims := st.claims + [lines[0]]);
      ClaimsRead(mid, lines[1..]);
      assert mid.claims + lines[1..] == st.claims + lines;
      LeadsFirst(st, "  " + lines[0], mid, Indented(lines[1..]), st.(claims := st.claims + lines));
    }
  }

  lemma {:induction false} ApprovalsRead(st: State, lines: seq<string>)
    requires st.section == Approval && st.block.None? && AllClaimsOk(lines)
    ensures Leads(st, Indented(lines), st.(approval := st.approval + lines))
    decreases |lines|
  {
    if lines == [] {
      LeadsNowhere(st);
      assert st.approval + lines == st.approval;
    } else {
      ApprovalReads(st, lines[0]);
      var mid := st.(approval := st.approval + [lines[0]]);
      ApprovalsRead(mid, lines[1..]);
      assert mid.approval + lines[1..] == st.approval + lines;
      LeadsFirst(st, "  " + lines[0], mid, Indented(lines[1..]), st.(approval := st.approval + lines));
    }
  }

  lemma {:induction false} VerifiesRead(st: State, lines: seq<string>)
    requires st.section == InVerify && st.block.None? && forall i :: 0 <= i < |lines| ==> VerifyOk(lines[i])
    ensures Leads(st, Indented(lines), st.(verify := st.verify + lines))
    decreases |lines|
  {
    if lines == [] {
      LeadsNowhere(st);
      assert st.verify + lines == st.verify;
    } else {
      VerifyReads(st, lines[0]);
      var mid := st.(verify := st.verify + [lines[0]]);
      VerifiesRead(mid, lines[1..]);
      assert mid.verify + lines[1..] == st.verify + lines;
      LeadsFirst(st, "  " + lines[0], mid, Indented(lines[1..]), st.(verify := st.verify + lines));
    }
  }

  // ---------------------------------------------------------------- opening and closing sections

  lemma {:induction false} SectionNames(name: string)
    requires Opener(name).Some? || name == "verify" || name == "end"
    ensures ' ' !in name && Trimmed(name) && name[0] != '#' && name != "change" && name != "block"
  {
    AsciiSpaces(name[0]);
    AsciiSpaces(name[|name| - 1]);
  }

  lemma {:induction false} SectionOpens(st: State, name: string)
    requires Between(st) && Opener(name).Some?
    ensures Step(st, name) == Some(st.(section := Opener(name).value))
  {
    SectionNames(name);
    TrimmedTrims(name);
    CutWord(name);
  }

  lemma {:induction false} VerifyOpens(st: State)
    requires Between(st)
    ensures Step(st, "verify") == Some(st.(section := InVerify, inVerify := true))
  {
    SectionNames("verify");
    TrimmedTrims("verify");
    CutWord("verify");
  }

  lemma {:induction false} EndCloses(st: State)
    ensures Step(st, "end") == Some(Close(st))
  {
    SectionNames("end");
    TrimmedTrims("end");
    CutWord("end");
  }

  /** A section around lines that were read inside it. */
  lemma {:induction false} SectionReads(st: State, name: string, lines: seq<string>, inner: State)
    requires Between(st) && Opener(name).Some? && Opener(name).value != TopLevel && lines != []
    requires Leads(st.(section := Opener(name).value), Indented(lines), inner)
    requires inner.section == Opener(name).value && !inner.inVerify && inner.block.None?
    ensures Leads(st, SectionLines(name, lines), inner.(section := TopLevel))
  {
    var inside := st.(section := Opener(name).value);
    SectionOpens(st, name);
    LeadsOne(st, name, inside);
    LeadsOn(st, [name], inside, Indented(lines), inner);
    EndCloses(inner);
    LeadsOne(inner, "end", inner.(section := TopLevel));
    LeadsOn(st, [name] + Indented(lines), inner, ["end"], inner.(section := TopLevel));
  }

  lemma {:induction false} ClaimSectionReads(st: State, lines: seq<string>)
    requires Between(st) && AllClaimsOk(lines)
    ensures Leads(st, SectionLines("expect", lines), st.(claims := st.claims + lines))
  {
    if lines == [] {
      LeadsNowhere(st);
      assert st.claims + lines == st.claims;
    } else {
      var inside := st.(section := Expect);
      ClaimsRead(inside, lines);
      SectionReads(st, "expect", lines, inside.(claims := st.claims + lines));
    }
  }

  lemma {:induction false} ApprovalSectionReads(st: State, lines: seq<string>)
    requires Between(st) && AllClaimsOk(lines)
    ensures Leads(st, SectionLines("approval", lines), st.(approval := st.approval + lines))
  {
    if lines == [] {
      LeadsNowhere(st);
      assert st.approval + lines == st.approval;
    } else {
      var inside := st.(section := Approval);
      ApprovalsRead(inside, lines);
      SectionReads(st, "approval", lines, inside.(approval := st.approval + lines));
    }
  }

  lemma {:induction false} VerifySectionReads(st: State, lines: seq<string>)
    requires Between(st) && forall i :: 0 <= i < |lines| ==> VerifyOk(lines[i])
    ensures Leads(st, SectionLines("verify", lines), st.(verify := st.verify + lines))
  {
    if lines == [] {
      LeadsNowhere(st);
      assert st.verify + lines == st.verify;
    } else {
      var inside := st.(section := InVerify, inVerify := true);
      var inner := inside.(verify := st.verify + lines);
      VerifyOpens(st);
      LeadsOne(st, "verify", inside);
      VerifiesRead(inside, lines);
      LeadsOn(st, ["verify"], inside, Indented(lines), inner);
      EndCloses(inner);
      LeadsOne(inner, "end", st.(verify := st.verify + lines));
      LeadsOn(st, ["verify"] + Indented(lines), inner, ["end"], st.(verify := st.verify + lines));
    }
  }

  // ---------------------------------------------------------------- operations

  predicate OpVerbOk(verb: string) {
    verb != [] && !HasSpace(verb) && MapVerb(verb).Some?
  }

  ghost predicate OpOk(op: OpText) {
    OpVerbOk(op.verb) && Readable(op.args)
  }

  lemma {:induction false} TokenReads(a: string, k: string)
    requires !HasSpace(a) && (k == [] || IsSpace(k[0]))
    ensures TokenLength(a + k) == |a|
  {
    if a == [] {
      assert a + k == k;
    } else {
      assert (a + k)[1..] == a[1..] + k;
      assert !IsSpace(a[0]);
      NoSpaceTail(a);
      TokenReads(a[1..], k);
    }
  }

  lemma {:induction false} NoSpaceTail(a: string)
    requires !HasSpace(a) && a != []
    ensures !HasSpace(a[1..])
  {
    assert forall i :: 0 <= i < |a[1..]| ==> a[1..][i] == a[i + 1];
  }

  /** Cutting off the leading space of the arguments changes nothing for the scanner. */
  lemma {:induction false} TrimmedArgs(s: string)
    requires s != [] && IsSpace(s[0])
    ensures Trim(Trim(s[1..])) == Trim(s)
  {
    TrimResult(s[1..]);
  }

  lemma {:induction false} OpLineReads(op: OpText)
    requires OpOk(op)
    ensures OpLine(op.verb + Render(op.args)) == LoadOp(op)
  {
    var tail := Render(op.args);
    RenderedFollows(op.args);
    TokenReads(op.verb, tail);
    var rest := op.verb + tail;
    assert rest[..|op.verb|] == op.verb;
    RoundTrip(op.args);
    if tail == [] {
      EmptyArgs();
    } else {
      assert rest[|op.verb| + 1..] == tail[1..];
      TrimmedArgs(tail);
    }
  }

  lemma {:induction false} EmptyArgs()
    ensures Pairs(Trim(Trim(""))) == []
  {
  }

  lemma {:induction false} OpTextTrimmed(op: OpText)
    requires OpOk(op)
    ensures Trimmed("op" + " " + (op.verb + Render(op.args)))
  {
    AsciiSpaces('o');
    var rest := op.verb + Render(op.args);
    assert !IsSpace(op.verb[|op.verb| - 1]);
    if op.args != [] {
      RenderedFollows(op.args);
      RenderEnds(op.args);
    }
    WordTrimmed("op", rest);
  }

  /** An `op` line in the operations section adds its operation. */
  lemma {:induction false} OpDispatches(st: State, text: string, rest: string, op: ParsedOp)
    requires st.section == Ops && OpLine(rest) == Some(op)
    ensures Dispatch(st, text, Line("op", Some(rest)))
            == Some(st.(ops := st.ops + [op.kind], parsedOps := st.parsedOps + [op]))
  {
  }

  lemma {:induction false} IndentedStep(st: State, text: string)
    requires Trimmed(text)
    ensures Step(st, "  " + text) == StepText(st, text)
  {
    IndentTrims(text);
  }

  lemma {:induction false} OpTextReads(st: State, rest: string, loaded: ParsedOp)
    requires st.section == Ops && st.block.None? && rest != [] && OpLine(rest) == Some(loaded)
             && Trimmed("op" + " " + rest)
    ensures Step(st, "  " + ("op" + " " + rest))
            == Some(st.(ops := st.ops + [loaded.kind], parsedOps := st.parsedOps + [loaded]))
  {
    var text := "op" + " " + rest;
    IndentedStep(st, text);
    WordLine(st, "op", rest, text);
    OpDispatches(st, text, rest, loaded);
  }

  lemma {:induction false} OpReads(st: State, op: OpText)
    requires st.section == Ops && st.block.None? && OpOk(op)
    ensures var loaded := LoadOp(op).value;
            Step(st, "  " + OpTextLine(op))
              == Some(st.(ops := st.ops + [loaded.kind], parsedOps := st.parsedOps + [loaded]))
  {
    var rest := op.verb + Render(op.args);
    OpLineReads(op);
    OpTextTrimmed(op);
    OpTextReads(st, rest, LoadOp(op).value);
    assert OpTextLine(op) == "op" + " " + rest;
  }

  ghost predicate OpsOk(ops: seq<OpText>) {
    forall i :: 0 <= i < |ops| ==> OpOk(ops[i])
  }

  ghost function LoadOps(ops: seq<OpText>): seq<ParsedOp>
    requires OpsOk(ops)
  {
    if ops == [] then [] else [LoadOp(ops[0]).value] + LoadOps(ops[1..])
  }

  function Kinds(ops: seq<ParsedOp>): seq<ChangeSetOp> {
    if ops == [] then [] else [ops[0].kind] + Kinds(ops[1..])
  }

  function AddOp(st: State, op: ParsedOp): State {
    st.(ops := st.ops + [op.kind], parsedOps := st.parsedOps + [op])
  }

  function AddOps(st: State, ops: seq<ParsedOp>): State
    decreases |ops|
  {
    if ops == [] then st else AddOps(AddOp(st, ops[0]), ops[1..])
  }

  lemma {:induction false} AddOpsIs(st: State, ops: seq<ParsedOp>)
    ensures AddOps(st, ops) == st.(ops := st.ops + Kinds(ops), parsedOps := st.parsedOps + ops)
    decreases |ops|
  {
    if ops == [] {
      assert st.ops + [] == st.ops && st.parsedOps + [] == st.parsedOps;
    } else {
      AddOpsIs(AddOp(st, ops[0]), ops[1..]);
      assert st.ops + [ops[0].kind] + Kinds(ops[1..]) == st.ops + ([ops[0].kind] + Kinds(ops[1..]));
      assert st.parsedOps + [ops[0]] + ops[1..] == st.parsedOps + ops;
    }
  }

  lemma {:induction false} AddOpsFrame(st: State, ops: seq<ParsedOp>)
    ensures var r := AddOps(st, ops);
            r.section == st.section && r.inVerify == st.inVerify && r.block == st.block && r.inChange == st.inChange
    ensures forall s :: AddOps(st.(section := s), ops) == AddOps(st, ops).(section := s)
  {
    AddOpsIs(st, ops);
    forall s ensures AddOps(st.(section := s), ops) == AddOps(st, ops).(section := s) {
      AddOpsIs(st.(section := s), ops);
    }
  }

  lemma {:induction false} OpsRead(st: State, ops: seq<OpText>)
    requires st.section == Ops && st.block.None? && OpsOk(ops)
    ensures Leads(st, Indented(OpLines(ops)), AddOps(st, LoadOps(ops)))
    decreases |ops|
  {
    if ops == [] {
      LeadsNowhere(st);
    } else {
      var line := "  " + OpTextLine(ops[0]);
      var mid := AddOp(st, LoadOp(ops[0]).value);
      OpReads(st, ops[0]);
      OpsRead(mid, ops[1..]);
      assert OpLines(ops)[1..] == OpLines(ops[1..]);
      assert LoadOps(ops)[1..] == LoadOps(ops[1..]);
      LeadsFirst(st, line, mid, Indented(OpLines(ops[1..])), AddOps(mid, LoadOps(ops[1..])));
    }
  }

  lemma {:induction false} OpSectionReads(st: State, ops: seq<OpText>)
    requires Between(st) && OpsOk(ops)
    ensures Leads(st, SectionLines("ops", OpLines(ops)), AddOps(st, LoadOps(ops)))
  {
    if ops == [] {
      LeadsNowhere(st);
    } else {
      var inside := st.(section := Ops);
      OpsRead(inside, ops);
      AddOpsFrame(st, LoadOps(ops));
      SectionReads(st, "ops", OpLines(ops), AddOps(inside, LoadOps(ops)));
    }
  }

  // ---------------------------------------------------------------- preconditions

  lemma {:induction false} UintReads(n: nat, max: nat)
    requires n <= max
    ensures ParseUint(Dec(n), max) == Some(n)
    ensures Trimmed(Dec(n)) && ' ' !in Dec(n) && !HasSpace(Dec(n))
  {
    SpelledDec(n);
    forall i | 0 <= i < |Dec(n)| ensures !IsSpace(Dec(n)[i]) && Dec(n)[i] != ' ' && Dec(n)[i] != '+' {
      AsciiSpaces(Dec(n)[i]);
    }
  }

  lemma {:induction false} OneToken(t: string)
    requires t != [] && !HasSpace(t)
    ensures Tokens(t) == [t]
  {
    assert !IsSpace(t[0]);
    TokenReads(t, []);
    assert t + [] == t && t[..|t|] == t && t[|t|..] == [];
    assert Tokens([]) == [];
  }

  lemma {:induction false} TwoTokens(a: string, b: string)
    requires a != [] && !HasSpace(a) && b != [] && !HasSpace(b)
    ensures Tokens(a + " " + b) == [a, b]
  {
    var s := a + (" " + b);
    assert a + " " + b == s;
    AsciiSpaces(' ');
    assert !IsSpace(a[0]) && !IsSpace(b[0]);
    TokenReads(a, " " + b);
    assert s[..|a|] == a && s[|a|..] == " " + b;
    OneToken(b);
    SpaceTokens(b);
  }

  lemma {:induction false} SpaceTokens(b: string)
    ensures Tokens(" " + b) == Tokens(b)
  {
    AsciiSpaces(' ');
    assert (" " + b)[1..] == b;
  }

  lemma {:induction false} NoSpaceConcat(a: string, b: string)
    requires !HasSpace(a) && !HasSpace(b)
    ensures !HasSpace(a + b)
  {
    assert forall i :: 0 <= i < |a + b| ==> (a + b)[i] == if i < |a| then a[i] else b[i - |a|];
  }

  lemma {:induction false} HexPlain(h: seq<Byte>)
    ensures !HasSpace(HexText(h)) && '"' !in HexText(h)
  {
    forall i | 0 <= i < |HexText(h)| ensures !IsSpace(HexText(h)[i]) && HexText(h)[i] != '"' {
      HexChars(h, i);
      AsciiSpaces(HexText(h)[i]);
    }
  }

  lemma {:induction false} Unquoted(v: string)
    requires '"' !in v
    ensures ExtractString(v) == v
  {
  }

  /** A single `key=value` token is found under its key. */
  lemma {:induction false} KeyToken(key: string, v: string)
    requires key in {"sig", "hash"} && !HasSpace(v) && '"' !in v
    ensures TokenValue(Tokens(key + "=" + v), key) == Some(v)
    ensures !HasSpace(key + "=" + v)
  {
    var t := key + "=" + v;
    AsciiSpaces('s');
    AsciiSpaces('i');
    AsciiSpaces('g');
    AsciiSpaces('h');
    AsciiSpaces('a');
    AsciiSpaces('=');
    assert !HasSpace(key + "=");
    NoSpaceConcat(key + "=", v);
    OneToken(t);
    assert t[|key + "="|..] == v;
    Unquoted(v);
  }

  /** A value that comes back from a `hash=` attribute, whose quotes are removed but not its escapes. */
  predicate HashValue(h: string) {
    !HasSpace(h) && '"' !in h
  }

  lemma {:induction false} HashToken(h: string)
    requires HashValue(h)
    ensures TokenValue(Tokens("hash" + "=" + FormatValue(h)), "hash") == Some(h)
    ensures FormatValue(h) != [] && !HasSpace(FormatValue(h))
  {
    if Plain(h) {
      KeyToken("hash", h);
    } else {
      EscapeNothing(h);
      AsciiSpaces('"');
      var v := ['"'] + h + ['"'];
      assert FormatValue(h) == v;
      NoSpaceConcat(['"'], h);
      NoSpaceConcat(['"'] + h, ['"']);
      KeyTokenQuoted(v);
      assert v[1..|v| - 1] == h;
    }
  }

  lemma {:induction false} KeyTokenQuoted(v: string)
    requires !HasSpace(v)
    ensures TokenValue(Tokens("hash" + "=" + v), "hash") == Some(ExtractString(v))
  {
    var t := "hash" + "=" + v;
    KeyToken("hash", "");
    assert "hash" + "=" + "" == "hash" + "=";
    NoSpaceConcat("hash" + "=", v);
    OneToken(t);
    assert t[|"hash" + "="|..] == v;
  }

  predicate PreconditionOk(p: Precondition) {
    match p
    case AssertExists(n) => n <= U32_MAX
    case AssertHash(n, h) => n <= U32_MAX && |h| == 32
    case AssertExistsByName(name) => Plain(name) && ParseUint(name, U32_MAX) == None
    case AssertHashByName(name, h) => Plain(name) && ParseUint(name, U32_MAX) == None && |h| == 32
    case AssertContext(name, h) => Plain(name) && (h.Some? ==> HashValue(h.value))
  }

  /** What a signed precondition line says, by its first word and its signature. */
  lemma {:induction false} HashReads(word: string, h: seq<Byte>)
    requires ' ' !in word
    ensures var r := HashPrecondition(Cut(word + " " + ("sig=" + HexText(h))));
            r == if |h| != 32 then None
                 else match ParseUint(Trim(word), U32_MAX)
                      case Some(n) => Some(AssertHash(n, h))
                      case None => Some(AssertHashByName(Trim(word), h))
  {
    CutAt(word, "sig=" + HexText(h));
    HexPlain(h);
    KeyToken("sig", HexText(h));
    assert "sig" + "=" + HexText(h) == "sig=" + HexText(h);
    HexReads(h);
  }

  lemma {:induction false} PreconditionReads(p: Precondition)
    requires PreconditionOk(p)
    ensures PreconditionLine(Line(PreconditionWord(p), Some(PreconditionRest(p)))) == Some(p)
  {
    match p
    case AssertExists(n) =>
      UintReads(n, U32_MAX);
      TrimmedTrims(Dec(n));
    case AssertHash(n, h) =>
      UintReads(n, U32_MAX);
      TrimmedTrims(Dec(n));
      HashReads(Dec(n), h);
    case AssertExistsByName(name) => PlainTrimmed(name);
    case AssertHashByName(name, h) =>
      PlainTrimmed(name);
      HashReads(name, h);
    case AssertContext(name, hash) => ContextReads(name, hash);
  }

  lemma {:induction false} ContextReads(name: string, hash: Option<string>)
    requires Plain(name) && (hash.Some? ==> HashValue(hash.value))
    ensures ContextPrecondition(Cut(PreconditionRest(AssertContext(name, hash)))) == Some(AssertContext(name, hash))
  {
    match hash
    case None => BareContextReads(name);
    case Some(h) => HashedContextReads(name, h);
  }

  lemma {:induction false} BareContextReads(name: string)
    requires Plain(name)
    ensures ContextPrecondition(Cut(name)) == Some(AssertContext(name, None))
  {
    PlainTrimmed(name);
    CutWord(name);
    NoTokenValue();
  }

  lemma {:induction false} HashedContextReads(name: string, h: string)
    requires Plain(name) && HashValue(h)
    ensures ContextPrecondition(Cut(name + " " + ("hash=" + FormatValue(h)))) == Some(AssertContext(name, Some(h)))
  {
    PlainTrimmed(name);
    CutAt(name, "hash=" + FormatValue(h));
    HashToken(h);
    assert "hash" + "=" + FormatValue(h) == "hash=" + FormatValue(h);
  }

  lemma {:induction false} NoTokenValue()
    ensures TokenValue(Tokens(""), "hash") == None && TokenValue(Tokens(""), "context_hash") == None
  {
    assert Tokens("") == [];
  }

  lemma {:induction false} PreconditionWords(p: Precondition)
    ensures PlainWord(PreconditionWord(p)) && !IsSpace(PreconditionWord(p)[0])
  {
    AsciiSpaces('a');
  }

  lemma {:induction false} PreconditionEnds(p: Precondition)
    requires PreconditionOk(p)
    ensures var r := PreconditionRest(p); r != [] && !IsSpace(r[|r| - 1])
  {
    match p
    case AssertExists(n) => UintReads(n, U32_MAX);
    case AssertHash(n, h) => HexEnds(h);
    case AssertExistsByName(name) => PlainTrimmed(name);
    case AssertHashByName(name, h) => HexEnds(h);
    case AssertContext(name, None) => PlainTrimmed(name);
    case AssertContext(name, Some(h)) =>
      HashToken(h);
      var v := FormatValue(h);
      assert !IsSpace(v[|v| - 1]);
  }

  lemma {:induction false} HexEnds(h: seq<Byte>)
    requires h != []
    ensures var t := HexText(h); !IsSpace(t[|t| - 1])
  {
    HexChars(h, |HexText(h)| - 1);
    AsciiSpaces(HexText(h)[|HexText(h)| - 1]);
  }

  lemma {:induction false} RequiresReads(st: State, p: Precondition)
    requires st.section == Requires && st.block.None? && PreconditionOk(p)
    ensures Step(st, "  " + PreconditionText(p)) == Some(st.(preconditions := st.preconditions + [p]))
  {
    var word, rest := PreconditionWord(p), PreconditionRest(p);
    var text := word + " " + rest;
    PreconditionWords(p);
    PreconditionEnds(p);
    WordTrimmed(word, rest);
    IndentTrims(text);
    WordLine(st, word, rest, text);
    PreconditionReads(p);
  }

  predicate PreconditionsOk(ps: seq<Precondition>) {
    forall i :: 0 <= i < |ps| ==> PreconditionOk(ps[i])
  }

  lemma {:induction false} RequiresThen(st: State, p: Precondition, texts: seq<string>, to: State)
    requires st.section == Requires && st.block.None? && PreconditionOk(p)
    requires Leads(st.(preconditions := st.preconditions + [p]), Indented(texts), to)
    ensures Leads(st, Indented([PreconditionText(p)] + texts), to)
  {
    RequiresReads(st, p);
    assert ([PreconditionText(p)] + texts)[1..] == texts;
    LeadsFirst(st, "  " + PreconditionText(p), st.(preconditions := st.preconditions + [p]), Indented(texts), to);
  }

  lemma {:induction false} PreconditionTextsFirst(ps: seq<Precondition>)
    requires ps != []
    ensures PreconditionTexts(ps) == [PreconditionText(ps[0])] + PreconditionTexts(ps[1..])
  {
  }

  lemma {:induction false} PreconditionsRead(st: State, ps: seq<Precondition>, to: State)
    requires st.section == Requires && st.block.None? && PreconditionsOk(ps)
    requires to == st.(preconditions := st.preconditions + ps)
    ensures Leads(st, Indented(PreconditionTexts(ps)), to)
    decreases |ps|
  {
    if ps == [] {
      LeadsNowhere(st);
      assert st.preconditions + ps == st.preconditions;
    } else {
      var first := ps[0];
      assert st.preconditions + [first] + ps[1..] == st.preconditions + ps;
      PreconditionsRead(st.(preconditions := st.preconditions + [first]), ps[1..], to);
      var texts := PreconditionTexts(ps[1..]);
      RequiresThen(st, first, texts, to);
      PreconditionTextsFirst(ps);
    }
  }

  lemma {:induction false} PreconditionSectionReads(st: State, ps: seq<Precondition>)
    requires Between(st) && PreconditionsOk(ps)
    ensures Leads(st, SectionLines("requires", PreconditionTexts(ps)), st.(preconditions := st.preconditions + ps))
  {
    if ps == [] {
      LeadsNowhere(st);
      assert st.preconditions + ps == st.preconditions;
    } else {
      var inside := st.(section := Requires);
      var inner := inside.(preconditions := st.preconditions + ps);
      PreconditionsRead(inside, ps, inner);
      SectionReads(st, "requires", PreconditionTexts(ps), inner);
    }
  }

  // ---------------------------------------------------------------- blocks

  /** What a block header gives back: a kind and a ref without blanks, and a hash. */
  predicate HeaderOk(b: BlockText) {
    && b.kind != [] && ' ' !in b.kind && b.blockRef != [] && b.blockRef[0] == '@' && ' ' !in b.blockRef
    && if b.hash.Some? then HashValue(b.hash.value) else !IsSpace(b.blockRef[|b.blockRef| - 1])
  }

  predicate BlockOk(b: BlockText) {
    HeaderOk(b) && ContentOk(b.content)
  }

  function BlockRest(b: BlockText): string {
    b.blockRef + if b.hash.Some? then " hash=" + FormatValue(b.hash.value) else ""
  }

  lemma {:induction false} BlockRestCuts(b: BlockText)
    requires HeaderOk(b)
    ensures var second := Cut(BlockRest(b));
            second.word == b.blockRef && TokenValue(Tokens(second.rest.GetOr("")), "hash") == b.hash
    ensures var r := BlockRest(b); r != [] && !IsSpace(r[|r| - 1])
  {
    match b.hash
    case None =>
      assert BlockRest(b) == b.blockRef;
      CutWord(b.blockRef);
      NoTokenValue();
    case Some(h) =>
      HashToken(h);
      var v := FormatValue(h);
      assert !IsSpace(v[|v| - 1]);
      assert BlockRest(b) == b.blockRef + " " + ("hash" + "=" + v);
      CutAt(b.blockRef, "hash" + "=" + v);
  }

  lemma {:induction false} BlockHeaderReads(b: BlockText)
    requires HeaderOk(b)
    ensures BlockHeader(b.kind + " " + BlockRest(b)) == Some(ParsedBlock(b.kind, b.blockRef, [], b.hash))
  {
    CutAt(b.kind, BlockRest(b));
    BlockRestCuts(b);
  }

  lemma {:induction false} BlockOpens(st: State, b: BlockText)
    requires Between(st) && HeaderOk(b)
    ensures Step(st, BlockHeaderLine(b)) == Some(st.(block := Some(ParsedBlock(b.kind, b.blockRef, [], b.hash))))
  {
    var rest := b.kind + " " + BlockRest(b);
    var text := "block" + " " + rest;
    assert BlockHeaderLine(b) == text;
    BlockRestCuts(b);
    AsciiSpaces('b');
    assert !IsSpace(rest[|rest| - 1]);
    WordTrimmed("block", rest);
    TrimmedTrims(text);
    CutAt("block", rest);
    assert text[5] == ' ';
    NoOpener(text);
    BlockHeaderReads(b);
  }

  lemma {:induction false} BlockReads(st: State, b: BlockText)
    requires Between(st) && BlockOk(b)
    ensures Leads(st, BlockLines(b), st.(blocks := st.blocks + [LoadBlock(b)]))
  {
    var empty := ParsedBlock(b.kind, b.blockRef, [], b.hash);
    var inside := st.(block := Some(empty));
    var inner := st.(block := Some(LoadBlock(b)));
    BlockOpens(st, b);
    LeadsOne(st, BlockHeaderLine(b), inside);
    var lines := WrittenLines(b.content);
    ContentReads(inside, empty, b.content);
    LeadsOn(st, [BlockHeaderLine(b)], inside, lines, inner);
    EndCloses(inner);
    var out := st.(blocks := st.blocks + [LoadBlock(b)]);
    LeadsOne(inner, "end", out);
    LeadsOn(st, [BlockHeaderLine(b)] + lines, inner, ["end"], out);
  }

  function LoadBlocks(bs: seq<BlockText>): seq<ParsedBlock> {
    if bs == [] then [] else [LoadBlock(bs[0])] + LoadBlocks(bs[1..])
  }

  lemma {:induction false} BlockThen(st: State, b: BlockText, more: seq<string>, to: State)
    requires Between(st) && BlockOk(b) && Leads(st.(blocks := st.blocks + [LoadBlock(b)]), more, to)
    ensures Leads(st, BlockLines(b) + more, to)
  {
    BlockReads(st, b);
    LeadsOn(st, BlockLines(b), st.(blocks := st.blocks + [LoadBlock(b)]), more, to);
  }

  lemma {:induction false} AllBlockLinesFirst(bs: seq<BlockText>)
    requires bs != []
    ensures AllBlockLines(bs) == BlockLines(bs[0]) + AllBlockLines(bs[1..])
    ensures LoadBlocks(bs) == [LoadBlock(bs[0])] + LoadBlocks(bs[1..])
  {
  }

  lemma {:induction false} BlocksRead(st: State, bs: seq<BlockText>, to: State)
    requires Between(st) && forall i :: 0 <= i < |bs| ==> BlockOk(bs[i])
    requires to == st.(blocks := st.blocks + LoadBlocks(bs))
    ensures Leads(st, AllBlockLines(bs), to)
    decreases |bs|
  {
    if bs == [] {
      LeadsNowhere(st);
      assert st.blocks + [] == st.blocks;
    } else {
      AllBlockLinesFirst(bs);
      var first, more, rest := LoadBlock(bs[0]), AllBlockLines(bs[1..]), LoadBlocks(bs[1..]);
      assert st.blocks + [first] + rest == st.blocks + ([first] + rest);
      BlocksRead(st.(blocks := st.blocks + [first]), bs[1..], to);
      BlockThen(st, bs[0], more, to);
    }
  }

  // ---------------------------------------------------------------- the opening line

  lemma {:induction false} SnapshotReads(n: nat)
    requires n <= U64_MAX
    ensures SnapshotIdOf(Dec(n)) == Some(n)
  {
    UintReads(n, U64_MAX);
    SpelledDec(n);
    assert IsDigit(Dec(n)[0]);
  }

  lemma {:induction false} AttrsRead(version: string, n: nat, m: Meta)
    requires n <= U64_MAX
    ensures ChangeAttrs(["acl=" + version, "base=" + Dec(n)], m) == Some(m.(aclVersion := version, base := Some(n)))
  {
    var first, second := "acl=" + version, "base=" + Dec(n);
    assert first[4..] == version && second[5..] == Dec(n);
    assert second[0] == 'b';
    SnapshotReads(n);
    assert [first, second][1..] == [second] && [second][1..] == [];
    var m' := m.(aclVersion := version);
    assert ChangeAttrs([second], m') == Some(m'.(base := Some(n)));
  }

  function Attrs(version: string, n: nat): string {
    "acl=" + version + " base=" + Dec(n)
  }

  lemma {:induction false} AttrTokens(version: string, n: nat)
    requires !HasSpace(version)
    ensures Tokens(Attrs(version, n)) == ["acl=" + version, "base=" + Dec(n)]
  {
    var first, second := "acl=" + version, "base=" + Dec(n);
    UintReads(n, n);
    AttrNames();
    NoSpaceConcat("acl=", version);
    NoSpaceConcat("base=", Dec(n));
    assert Attrs(version, n) == first + " " + second;
    TwoTokens(first, second);
  }

  lemma {:induction false} AttrNames()
    ensures !HasSpace("acl=") && !HasSpace("base=")
  {
    AsciiSpaces('a');
    AsciiSpaces('c');
    AsciiSpaces('l');
    AsciiSpaces('=');
    AsciiSpaces('b');
    AsciiSpaces('s');
    AsciiSpaces('e');
  }

  /** The opening line sets what its attributes say. */
  lemma {:induction false} HeaderIs(st: State, version: string, n: nat)
    requires !st.inChange
    ensures Step(st, HeaderLine(version, n))
            == match ChangeAttrs(Tokens(Attrs(version, n)), st.meta)
               case Some(m) => Some(st.(inChange := true, meta := m))
               case None => None
  {
    var attrs := Attrs(version, n);
    var rest := "formatted" + " " + attrs;
    var text := "change" + " " + rest;
    assert HeaderLine(version, n) == text;
    UintReads(n, n);
    assert rest[|rest| - 1] == Dec(n)[|Dec(n)| - 1];
    AsciiSpaces('c');
    WordTrimmed("change", rest);
    TrimmedTrims(text);
    CutAt("change", rest);
    CutAt("formatted", attrs);
  }

  lemma {:induction false} HeaderReads(st: State, version: string, n: nat)
    requires !st.inChange && !HasSpace(version) && n <= U64_MAX
    ensures Step(st, HeaderLine(version, n))
            == Some(st.(inChange := true, meta := st.meta.(aclVersion := version, base := Some(n))))
  {
    HeaderIs(st, version, n);
    AttrTokens(version, n);
    AttrsRead(version, n, st.meta);
  }

  // ---------------------------------------------------------------- the whole document

  ghost predicate DocumentOk(d: Document) {
    && !HasSpace(d.version) && d.base <= U64_MAX
    && Plain(d.author) && (d.description.Some? ==> Plain(d.description.value))
    && (forall i :: 0 <= i < |d.schemas| ==> d.schemas[i].key in SCHEMAS && Plain(d.schemas[i].value))
    && (forall i :: 0 <= i < |d.composition| ==> d.composition[i].key in COMPOSITION && Plain(d.composition[i].value))
    && PreconditionsOk(d.preconditions) && OpsOk(d.ops)
    && AllClaimsOk(d.claims) && AllClaimsOk(d.approval)
    && (forall i :: 0 <= i < |d.blocks| ==> BlockOk(d.blocks[i]))
    && (forall i :: 0 <= i < |d.verify| ==> VerifyOk(d.verify[i]))
  }

  function Lists(ds: seq<Pair>): map<string, seq<string>> {
    if ds == [] then map[] else Append(Lists(ds[..|ds| - 1]), ds[|ds| - 1].key, ds[|ds| - 1].value)
  }

  ghost function LoadMeta(d: Document): Meta {
    Meta(Some(d.author), d.description, Some(d.base), d.version, Enter(map[], d.schemas), Lists(d.composition))
  }

  /** The scan's result for a document: every field, and nothing left open. */
  ghost function Loaded(d: Document): State
    requires DocumentOk(d)
  {
    START.(meta := LoadMeta(d), ops := Kinds(LoadOps(d.ops)), parsedOps := LoadOps(d.ops),
           preconditions := d.preconditions, claims := d.claims, approval := d.approval,
           blocks := LoadBlocks(d.blocks), verify := d.verify)
  }

  lemma {:induction false} SchemasLoad(m: Meta, ds: seq<Pair>)
    requires forall i :: 0 <= i < |ds| ==> ds[i].key in SCHEMAS
    ensures WithDirectives(m, ds) == m.(schemas := Enter(m.schemas, ds))
    decreases |ds|
  {
    if ds != [] {
      SchemasLoad(WithDirective(m, ds[0]), ds[1..]);
    }
  }

  function AppendAll(c: map<string, seq<string>>, ds: seq<Pair>): map<string, seq<string>>
    decreases |ds|
  {
    if ds == [] then c else AppendAll(Append(c, ds[0].key, ds[0].value), ds[1..])
  }

  lemma {:induction false} AppendAllLast(c: map<string, seq<string>>, ds: seq<Pair>, d: Pair)
    ensures AppendAll(c, ds + [d]) == Append(AppendAll(c, ds), d.key, d.value)
    decreases |ds|
  {
    if ds == [] {
      assert ([] + [d])[1..] == [];
    } else {
      assert (ds + [d])[1..] == ds[1..] + [d];
      AppendAllLast(Append(c, ds[0].key, ds[0].value), ds[1..], d);
    }
  }

  lemma {:induction false} ListsAre(ds: seq<Pair>)
    ensures AppendAll(map[], ds) == Lists(ds)
  {
    if ds != [] {
      var k := |ds| - 1;
      ListsAre(ds[..k]);
      AppendAllLast(map[], ds[..k], ds[k]);
      assert ds == ds[..k] + [ds[k]];
    }
  }

  lemma {:induction false} CompositionKeys(key: string)
    requires key in COMPOSITION
    ensures key != "author" && key != "description" && key !in SCHEMAS
  {
  }

  lemma {:induction false} CompositionLoads(m: Meta, ds: seq<Pair>)
    requires forall i :: 0 <= i < |ds| ==> ds[i].key in COMPOSITION
    ensures WithDirectives(m, ds) == m.(composition := AppendAll(m.composition, ds))
    decreases |ds|
  {
    if ds != [] {
      CompositionKeys(ds[0].key);
      CompositionLoads(WithDirective(m, ds[0]), ds[1..]);
    }
  }

  function HeadMeta(d: Document): Meta {
    START.meta.(aclVersion := d.version, base := Some(d.base), author := Some(d.author), description := d.description)
  }

  lemma {:induction false} HeadReads(d: Document)
    requires DocumentOk(d)
    ensures Leads(START, [HeaderLine(d.version, d.base)] + DirectiveLines(HeadDirectives(d)),
                  START.(inChange := true, meta := HeadMeta(d)))
  {
    var open := START.(inChange := true, meta := START.meta.(aclVersion := d.version, base := Some(d.base)));
    HeaderReads(START, d.version, d.base);
    DirectivesRead(open, HeadDirectives(d));
    HeadMetaIs(d, open.meta);
    LeadsFirst(START, HeaderLine(d.version, d.base), open, DirectiveLines(HeadDirectives(d)),
               START.(inChange := true, meta := HeadMeta(d)));
  }

  lemma {:induction false} HeadMetaIs(d: Document, m: Meta)
    requires m == START.meta.(aclVersion := d.version, base := Some(d.base))
    ensures WithDirectives(m, HeadDirectives(d)) == HeadMeta(d)
  {
    var author := Pair("author", d.author);
    if d.description.Some? {
      var description := Pair("description", d.description.value);
      assert [author, description][1..] == [description] && [description][1..] == [];
      assert HeadDirectives(d) == [author, description];
      var m' := m.(author := Some(d.author));
      assert WithDirectives(m', [description]) == m'.(description := d.description);
    } else {
      assert HeadDirectives(d) == [author] && [author][1..] == [];
    }
  }

  // ---- the parts in turn

  lemma {:induction false} DirectivesPart(d: Document)
    requires DocumentOk(d)
    ensures Leads(START.(inChange := true, meta := HeadMeta(d)), Directives(d),
            START.(inChange := true, meta := LoadMeta(d)))
  {
    var st := START.(inChange := true, meta := HeadMeta(d));
    var mid := st.(meta := st.meta.(schemas := Enter(map[], d.schemas)));
    DirectivesRead(st, d.schemas);
    SchemasLoad(st.meta, d.schemas);
    DirectivesRead(mid, d.composition);
    CompositionLoads(mid.meta, d.composition);
    ListsAre(d.composition);
    LeadsOn(st, DirectiveLines(d.schemas), mid, DirectiveLines(d.composition),
      START.(inChange := true, meta := LoadMeta(d)));
  }

  lemma {:induction false} WorkSections(st: State, ps: seq<Precondition>, ops: seq<OpText>, to: State)
    requires Between(st) && PreconditionsOk(ps) && OpsOk(ops) && st.preconditions == [] && st.ops == []
             && st.parsedOps == []
    requires to == st.(preconditions := ps, ops := Kinds(LoadOps(ops)), parsedOps := LoadOps(ops))
    ensures Leads(st, SectionLines("requires", PreconditionTexts(ps)) + SectionLines("ops", OpLines(ops)), to)
  {
    var mid := st.(preconditions := st.preconditions + ps);
    PreconditionSectionReads(st, ps);
    OpSectionReads(mid, ops);
    AddOpsIs(mid, LoadOps(ops));
    assert [] + ps == ps && [] + Kinds(LoadOps(ops)) == Kinds(LoadOps(ops)) && [] + LoadOps(ops) == LoadOps(ops);
    LeadsOn(st, SectionLines("requires", PreconditionTexts(ps)), mid, SectionLines("ops", OpLines(ops)), to);
  }

  lemma {:induction false} ReviewSections(st: State, claims: seq<string>, approval: seq<string>, to: State)
    requires Between(st) && AllClaimsOk(claims) && AllClaimsOk(approval) && st.claims == [] && st.approval == []
    requires to == st.(claims := claims, approval := approval)
    ensures Leads(st, SectionLines("expect", claims) + SectionLines("approval", approval), to)
  {
    var mid := st.(claims := st.claims + claims);
    ClaimSectionReads(st, claims);
    ApprovalSectionReads(mid, approval);
    assert [] + claims == claims && [] + approval == approval;
    LeadsOn(st, SectionLines("expect", claims), mid, SectionLines("approval", approval), to);
  }

  lemma {:induction false} Reassociate<T>(a: seq<T>, b: seq<T>, c: seq<T>)
    ensures a + (b + c) == a + b + c
  {
  }

  lemma {:induction false} SectionsPart(d: Document, st: State, to: State)
    requires DocumentOk(d) && st == START.(inChange := true, meta := LoadMeta(d))
    requires to == st.(preconditions := d.preconditions, ops := Kinds(LoadOps(d.ops)), parsedOps := LoadOps(d.ops),
                       claims := d.claims, approval := d.approval)
    ensures Leads(st, Sections(d), to)
  {
    var mid := st.(preconditions := d.preconditions, ops := Kinds(LoadOps(d.ops)), parsedOps := LoadOps(d.ops));
    var work := SectionLines("requires", PreconditionTexts(d.preconditions)) + SectionLines("ops", OpLines(d.ops));
    var review := SectionLines("expect", d.claims) + SectionLines("approval", d.approval);
    WorkSections(st, d.preconditions, d.ops, mid);
    ReviewSections(mid, d.claims, d.approval, to);
    LeadsOn(st, work, mid, review, to);
    Reassociate(work, SectionLines("expect", d.claims), SectionLines("approval", d.approval));
  }

  lemma {:induction false} TailPart(d: Document, st: State)
    requires DocumentOk(d) && Between(st) && st.blocks == [] && st.verify == []
    ensures Leads(st, Tail(d), st.(blocks := LoadBlocks(d.blocks), verify := d.verify, inChange := false))
  {
    var s1 := st.(blocks := st.blocks + LoadBlocks(d.blocks));
    BlocksRead(st, d.blocks, s1);
    var s2 := s1.(verify := s1.verify + d.verify);
    VerifySectionReads(s1, d.verify);
    LeadsOn(st, AllBlockLines(d.blocks), s1, SectionLines("verify", d.verify), s2);
    EndCloses(s2);
    LeadsOne(s2, "end", s2.(inChange := false));
    LeadsOn(st, AllBlockLines(d.blocks) + SectionLines("verify", d.verify), s2, ["end"], s2.(inChange := false));
    assert [] + LoadBlocks(d.blocks) == LoadBlocks(d.blocks) && [] + d.verify == d.verify;
  }

  /** Reading the canonical text of a document gives the document back, field by field. */
  lemma {:induction false} DocumentReads(d: Document)
    requires DocumentOk(d)
    ensures Accepted(Lines(d)) == Some(Loaded(d))
  {
    var ops := LoadOps(d.ops);
    var s1 := START.(inChange := true, meta := HeadMeta(d));
    var s2 := START.(inChange := true, meta := LoadMeta(d));
    var s3 := s2.(preconditions := d.preconditions, ops := Kinds(ops), parsedOps := ops, claims := d.claims,
                  approval := d.approval);
    HeadReads(d);
    DirectivesPart(d);
    LeadsOn(START, Head(d), s1, Directives(d), s2);
    SectionsPart(d, s2, s3);
    LeadsOn(START, Head(d) + Directives(d), s2, Sections(d), s3);
    TailPart(d, s3);
    LeadsOn(START, Head(d) + Directives(d) + Sections(d), s3, Tail(d), Loaded(d));
  }

  // ---------------------------------------------------------------- which lines are read back exactly

  lemma {:induction false} EscapeGrows(v: string)
    ensures |EscapeQuotes(v)| >= |v|
  {
    if v != [] {
      EscapeGrows(v[1..]);
    }
  }

  lemma {:induction false} QuotedTrimmed(v: string)
    requires NeedsQuotes(v)
    ensures Trimmed(FormatValue(v)) && Trim(FormatValue(v)) == FormatValue(v) && FormatValue(v) != v
  {
    AsciiSpaces('"');
    EscapeGrows(v);
    TrimNothing(FormatValue(v));
  }

  /** Different values of a directive leave different metadata. */
  lemma {:induction false} DirectivesDiffer(m: Meta, key: string, v: string, w: string)
    requires v != w
    ensures WithDirective(m, Pair(key, v)) != WithDirective(m, Pair(key, w))
  {
    if key in SCHEMAS {
      assert m.schemas[key := v][key] != m.schemas[key := w][key];
    } else if key != "author" && key != "description" {
      var list := if key in m.composition then m.composition[key] else [];
      assert (list + [v])[|list|] != (list + [w])[|list|];
      assert Append(m.composition, key, v)[key] != Append(m.composition, key, w)[key];
    }
  }

  /** A directive, be it author, description, a schema version or composition, is read back exactly when its
      value needs no quotes: quotes are written, never removed. */
  lemma {:induction false} DirectiveReadsIff(st: State, d: Pair)
    requires Between(st) && Directive(d.key)
    ensures Step(st, DirectiveLine(d)).Some?
    ensures Step(st, DirectiveLine(d)) == Some(st.(meta := WithDirective(st.meta, d))) <==> Plain(d.value)
  {
    if Plain(d.value) {
      DirectiveReads(st, d);
    } else {
      var v := FormatValue(d.value);
      QuotedTrimmed(d.value);
      DirectiveWord(d.key);
      WordTrimmed(d.key, v);
      TrimmedTrims(d.key + " " + v);
      WordLine(st, d.key, v, d.key + " " + v);
      DirectiveMeta(st.meta, Pair(d.key, v));
      DirectivesDiffer(st.meta, d.key, d.value, v);
    }
  }

  /** A claim is kept as it is exactly when no structural rule catches it. */
  lemma {:induction false} ClaimReadsIff(st: State, text: string)
    requires st.section == Expect && st.block.None? && st.inChange && !st.inVerify && Trimmed(text)
    ensures Step(st, "  " + text) == Some(st.(claims := st.claims + [text])) <==> ClaimOk(text)
  {
    IndentTrims(text);
    if ClaimOk(text) {
      ClaimReads(st, text);
    } else {
      assert st.claims != st.claims + [text];
    }
  }

  /** A verify entry is kept as it is exactly when it is neither structural nor starts with `verify` itself. */
  lemma {:induction false} VerifyReadsIff(st: State, text: string)
    requires st.section == InVerify && st.block.None? && st.inChange && st.inVerify && Trimmed(text)
    ensures Step(st, "  " + text) == Some(st.(verify := st.verify + [text])) <==> VerifyOk(text)
  {
    IndentTrims(text);
    if VerifyOk(text) {
      VerifyReads(st, text);
    } else {
      CutShorter(text);
      var kept := Trim(Cut(text).rest.GetOr(""));
      assert (st.verify + [kept])[|st.verify|] != (st.verify + [text])[|st.verify|];
      assert st.verify != st.verify + [text];
    }
  }

  lemma {:induction false} CutShorter(text: string)
    ensures Cut(text).rest.Some? ==> |Trim(Cut(text).rest.value)| < |text|
    ensures Trim("") == ""
  {
    CutRest(text);
    if Cut(text).rest.Some? {
      var rest := Cut(text).rest.value;
      var _ := TrimStartLength(rest);
      TrimEndResult(TrimStart(rest));
    }
  }

  lemma {:induction false} CutRest(text: string)
    ensures Cut(text).rest.Some? ==> |Cut(text).rest.value| < |text|
  {
    if text != [] && text[0] != ' ' {
      CutRest(text[1..]);
    }
  }

  // ---------------------------------------------------------------- what an accepted document holds

  lemma {:induction false} KeptTextIsClaim(raw: string)
    requires var text := Trim(raw);
             text != [] && text[0] != '#' && Cut(text).word != "change" && text != "end" && Opener(text) == None
    ensures ClaimOk(Trim(raw))
  {
    TrimResult(raw);
  }

  /** Outside the two lists a dispatched line leaves them alone. */
  lemma {:induction false} DispatchElsewhere(st: State, text: string, line: Line)
    requires Dispatch(st, text, line).Some? && st.section != Expect && st.section != Approval
    ensures Dispatch(st, text, line).value.claims == st.claims
    ensures Dispatch(st, text, line).value.approval == st.approval
  {
  }

  /** A dispatched line is added to at most one of the two lists, as it is. */
  lemma {:induction false} DispatchClaims(st: State, text: string, line: Line, r: State)
    requires Dispatch(st, text, line) == Some(r)
    ensures r.claims == st.claims || r.claims == st.claims + [text]
    ensures r.approval == st.approval || r.approval == st.approval + [text]
  {
    if st.section != Expect && st.section != Approval {
      DispatchElsewhere(st, text, line);
    }
  }

  lemma {:induction false} OutsideClaims(st: State, text: string, line: Line)
    requires StepOutside(st, text, line).Some?
    ensures var r := StepOutside(st, text, line).value;
            || (r.claims == st.claims && r.approval == st.approval)
            || (Opener(text) == None && Some(r) == Dispatch(st, text, line))
  {
  }

  lemma {:induction false} StepKeepsClaims(st: State, raw: string)
    requires AllClaimsOk(st.claims) && AllClaimsOk(st.approval) && Step(st, raw).Some?
    ensures AllClaimsOk(Step(st, raw).value.claims) && AllClaimsOk(Step(st, raw).value.approval)
  {
    var text := Trim(raw);
    var line := Cut(text);
    if text != [] && text[0] != '#' && line.word != "change" && text != "end" && st.block.None? {
      OutsideClaims(st, text, line);
      if Opener(text) == None {
        KeptTextIsClaim(raw);
        if Dispatch(st, text, line).Some? {
          DispatchClaims(st, text, line, Dispatch(st, text, line).value);
        }
      }
    } else {
      InsideClaims(st, text);
    }
  }

  lemma {:induction false} InsideClaims(st: State, text: string)
    requires text == [] || text[0] == '#' || Cut(text).word == "change" || text == "end" || st.block.Some?
    requires StepText(st, text).Some?
    ensures var r := StepText(st, text).value; r.claims == st.claims && r.approval == st.approval
  {
  }

  /** Claims and approvals of every scanned document can be written and read back as they are. */
  lemma {:induction false} ScannedClaimsOk(lines: seq<string>)
    requires Run(START, lines).Some?
    ensures AllClaimsOk(Run(START, lines).value.claims) && AllClaimsOk(Run(START, lines).value.approval)
  {
    if lines != [] {
      var k := |lines| - 1;
      ScannedClaimsOk(lines[..k]);
      StepKeepsClaims(Run(START, lines[..k]).value, lines[k]);
    }
  }

  /** Verify entries can not: the short form admits an entry that starts with `verify`, which the long form
      loses the word of. */
  lemma {:induction false} ShortVerifyEscapes(st: State, t: string)
    requires Between(st) && Trimmed(t)
    ensures Step(st, "verify verify " + t) == Some(st.(verify := st.verify + ["verify " + t]))
    ensures !VerifyOk("verify " + t)
  {
    var entry := "verify" + " " + t;
    var text := "verify" + " " + entry;
    assert "verify verify " + t == text && "verify " + t == entry;
    AsciiSpaces('v');
    WordTrimmed("verify", t);
    WordTrimmed("verify", entry);
    TrimmedTrims(entry);
    TrimmedTrims(text);
    CutAt("verify", entry);
    CutAt("verify", t);
    assert text[6] == ' ';
    NoOpener(text);
  }
}
