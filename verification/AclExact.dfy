/** Which lines of a canonical document are read back exactly: preconditions and block headers, each with
    a condition that is both sufficient and necessary. */
module AclExact {
  import opened Base
  import opened Text
  import opened Decimal
  import opened Hex
  import opened KvArgs
  import opened AclDocument
  import opened AclFormat

  // ---------------------------------------------------------------- words and tokens

  lemma {:induction false} CutHasNoBlank(s: string)
    ensures ' ' !in Cut(s).word
  {
    if s != [] && s[0] != ' ' {
      CutHasNoBlank(s[1..]);
    }
  }

  lemma {:induction false} EscapeKeepsBlanks(v: string, c: char)
    requires c != '"' && c != '\\'
    ensures c in EscapeQuotes(v) <==> c in v
  {
    if v != [] {
      EscapeKeepsBlanks(v[1..], c);
      assert v == [v[0]] + v[1..];
    }
  }

  /** A value that is written in quotes never comes back as the first word of a line. */
  lemma {:induction false} QuotedIsNotWord(v: string, rest: string)
    requires NeedsQuotes(v)
    ensures Trim(Cut(FormatValue(v) + " " + rest).word) != v
    ensures Trim(Cut(FormatValue(v)).word) != v
  {
    QuotedTrimmed(v);
    var q := FormatValue(v);
    EscapeKeepsBlanks(v, ' ');
    assert ' ' in q <==> ' ' in v;
    if ' ' in v {
      CutHasNoBlank(q + " " + rest);
      TrimMembers(Cut(q + " " + rest).word, ' ');
      CutHasNoBlank(q);
      TrimMembers(Cut(q).word, ' ');
    } else {
      CutAt(q, rest);
      CutWord(q);
    }
  }

  lemma {:induction false} TokenHasNoSpace(s: string)
    ensures !HasSpace(s[..TokenLength(s)])
  {
    if s != [] && !IsSpace(s[0]) {
      TokenHasNoSpace(s[1..]);
      assert s[..TokenLength(s)] == [s[0]] + s[1..][..TokenLength(s[1..])];
    }
  }

  lemma {:induction false} TokenOfJoined(a: string, b: string)
    requires !HasSpace(a)
    ensures TokenLength(a + b) == |a| + TokenLength(b)
  {
    if a == [] {
      assert a + b == b;
    } else {
      assert (a + b)[1..] == a[1..] + b && !IsSpace(a[0]);
      TokenOfJoined(a[1..], b);
    }
  }

  /** The value of a `hash=` attribute is what its first token holds. */
  lemma {:induction false} HashValueRead(v: string)
    requires v != [] && !IsSpace(v[0])
    ensures TokenValue(Tokens("hash=" + v), "hash") == Some(ExtractString(v[..TokenLength(v)]))
  {
    KeyToken("hash", "");
    assert "hash" + "=" + "" == "hash=";
    var s := "hash=" + v;
    TokenOfJoined("hash=", v);
    AsciiSpaces('h');
    assert TrimStart(s) == s;
    var t := s[..TokenLength(s)];
    assert Tokens(s)[0] == t;
    assert t[|"hash="|..] == v[..TokenLength(v)];
  }

  /** A hash comes back exactly when it holds neither white space nor a quote. */
  lemma {:induction false} HashTokenIff(h: string)
    ensures TokenValue(Tokens("hash=" + FormatValue(h)), "hash") == Some(h) <==> HashValue(h)
  {
    if HashValue(h) {
      HashToken(h);
      assert "hash" + "=" + FormatValue(h) == "hash=" + FormatValue(h);
    } else {
      QuotedTrimmed(h);
      var v := FormatValue(h);
      HashValueRead(v);
      if HasSpace(h) {
        TokenHasNoSpace(v);
        SpacedIsOther(h, v[..TokenLength(v)]);
      } else {
        QuotedNoSpace(h);
        EscapedIsOther(h);
        assert v[..|v|] == v;
      }
    }
  }

  lemma {:induction false} SpacedIsOther(h: string, token: string)
    requires HasSpace(h) && !HasSpace(token)
    ensures ExtractString(token) != h
  {
    var r := ExtractString(token);
    forall i | 0 <= i < |r| ensures !IsSpace(r[i]) {
      assert r[i] == token[if r == token then i else i + 1];
    }
  }

  lemma {:induction false} EscapedIsOther(h: string)
    requires '"' in h
    ensures ExtractString(FormatValue(h)) != h
  {
    EscapeGrowsMore(h);
    var v := FormatValue(h);
    assert v[1..|v| - 1] == EscapeQuotes(h);
  }

  lemma {:induction false} QuotedNoSpace(h: string)
    requires !HasSpace(h) && NeedsQuotes(h)
    ensures TokenLength(FormatValue(h)) == |FormatValue(h)|
  {
    EscapeNoSpace(h);
    AsciiSpaces('"');
    var v := FormatValue(h);
    NoSpaceConcat(['"'], EscapeQuotes(h));
    NoSpaceConcat(['"'] + EscapeQuotes(h), ['"']);
    TokenOfJoined(v, []);
    assert v + [] == v;
  }

  lemma {:induction false} EscapeNoSpace(h: string)
    requires !HasSpace(h)
    ensures !HasSpace(EscapeQuotes(h))
  {
    if h != [] {
      EscapeNoSpace(h[1..]);
      AsciiSpaces('"');
      AsciiSpaces('\\');
      assert !IsSpace(h[0]);
      NoSpaceConcat(if h[0] == '"' then ['\\', '"'] else [h[0]], EscapeQuotes(h[1..]));
    }
  }

  lemma {:induction false} EscapeGrowsMore(v: string)
    requires '"' in v
    ensures |EscapeQuotes(v)| > |v|
  {
    EscapeGrows(v[1..]);
    if v[0] != '"' {
      assert v == [v[0]] + v[1..];
      EscapeGrowsMore(v[1..]);
    }
  }

  // ---------------------------------------------------------------- preconditions

  lemma {:induction false} NumeralReadsIff(n: nat, max: nat)
    ensures ParseUint(Dec(n), max) == Some(n) <==> n <= max
    ensures Trim(Dec(n)) == Dec(n) && ' ' !in Dec(n) && ParseUint(Dec(n), max) in {Some(n), None}
  {
    UintReads(n, n);
    TrimmedTrims(Dec(n));
    SpelledDec(n);
    assert IsDigit(Dec(n)[0]);
  }

  lemma {:induction false} QuotedIsNoNumeral(v: string, max: nat)
    requires NeedsQuotes(v)
    ensures ParseUint(FormatValue(v), max) == None
  {
    assert FormatValue(v)[0] == '"' && !IsDigit('"');
  }

  lemma {:induction false} HashByNameIff(name: string, h: seq<Byte>)
    ensures HashPrecondition(Cut(FormatValue(name) + " " + ("sig=" + HexText(h)))) == Some(AssertHashByName(name, h))
            <==> Plain(name) && ParseUint(name, U32_MAX) == None && |h| == 32
  {
    if Plain(name) {
      PlainTrimmed(name);
      HashReads(name, h);
    } else {
      QuotedIsNotWord(name, "sig=" + HexText(h));
    }
  }

  lemma {:induction false} ContextIff(name: string, hash: Option<string>)
    ensures ContextPrecondition(Cut(PreconditionRest(AssertContext(name, hash)))) == Some(AssertContext(name, hash))
            <==> Plain(name) && (hash.Some? ==> HashValue(hash.value))
  {
    if !Plain(name) {
      QuotedIsNotWord(name, if hash.Some? then "hash=" + FormatValue(hash.value) else "");
    } else {
      PlainTrimmed(name);
      match hash
      case None => BareContextReads(name);
      case Some(h) =>
        CutAt(name, "hash=" + FormatValue(h));
        HashTokenIff(h);
        HashTokenFound(h);
    }
  }

  lemma {:induction false} HashTokenFound(h: string)
    ensures TokenValue(Tokens("hash=" + FormatValue(h)), "hash").Some?
  {
    if Plain(h) {
      HashTokenIff(h);
    } else {
      QuotedTrimmed(h);
      HashValueRead(FormatValue(h));
    }
  }

  /** A rendered precondition is read back exactly when its refs fit, its names need no quotes and are no
      numbers, its signature has 32 bytes and its context hash holds neither white space nor a quote. */
  lemma {:induction false} PreconditionReadsIff(p: Precondition)
    ensures PreconditionLine(Line(PreconditionWord(p), Some(PreconditionRest(p)))) == Some(p) <==> PreconditionOk(p)
  {
    match p
    case AssertExists(n) =>
      NumeralReadsIff(n, U32_MAX);
    case AssertHash(n, h) =>
      NumeralReadsIff(n, U32_MAX);
      HashReads(Dec(n), h);
    case AssertExistsByName(name) =>
      if Plain(name) {
        PlainTrimmed(name);
      } else {
        QuotedTrimmed(name);
        QuotedIsNoNumeral(name, U32_MAX);
      }
    case AssertHashByName(name, h) =>
      HashByNameIff(name, h);
    case AssertContext(name, hash) =>
      ContextIff(name, hash);
  }

  // ---------------------------------------------------------------- the opening line

  lemma {:induction false} TokensHaveNoSpace(s: string)
    ensures forall i :: 0 <= i < |Tokens(s)| ==> !HasSpace(Tokens(s)[i])
    decreases |s|
  {
    var t := TrimStart(s);
    TrimStartHead(s);
    var _ := TrimStartLength(s);
    if t != [] {
      TokenHasNoSpace(t);
      TokensHaveNoSpace(t[TokenLength(t)..]);
    }
  }

  /** A version that was set by a token holds no white space. */
  lemma {:induction false} AttrsVersion(tokens: seq<string>, m: Meta)
    requires forall i :: 0 <= i < |tokens| ==> !HasSpace(tokens[i])
    requires !HasSpace(m.aclVersion) || (tokens != [] && "acl=" <= tokens[0])
    ensures ChangeAttrs(tokens, m).Some? ==> !HasSpace(ChangeAttrs(tokens, m).value.aclVersion)
    decreases |tokens|
  {
    if tokens != [] {
      match StripPrefix(tokens[0], "acl=")
      case Some(v) =>
        assert forall i :: 0 <= i < |v| ==> v[i] == tokens[0][i + 4];
        AttrsVersion(tokens[1..], m.(aclVersion := v));
      case None =>
        match StripPrefix(tokens[0], "base=") {
          case None => AttrsVersion(tokens[1..], m);
          case Some(v) =>
            if SnapshotIdOf(v).Some? {
              AttrsVersion(tokens[1..], m.(base := Some(SnapshotIdOf(v).value)));
            }
        }
    }
  }

  lemma {:induction false} FirstAttr(version: string, n: nat)
    ensures Tokens(Attrs(version, n)) != [] && "acl=" <= Tokens(Attrs(version, n))[0]
  {
    var s := Attrs(version, n);
    var more := version + " base=" + Dec(n);
    AttrNames();
    assert s == "acl=" + more;
    TokenOfJoined("acl=", more);
    AsciiSpaces('a');
    assert TrimStart(s) == s;
    assert s[..TokenLength(s)][..4] == "acl=";
  }

  /** The opening line gives back version and base exactly when the version holds no white space and the
      base fits 64 bits. */
  lemma {:induction false} HeaderReadsIff(st: State, version: string, n: nat)
    requires !st.inChange
    ensures Step(st, HeaderLine(version, n))
            == Some(st.(inChange := true, meta := st.meta.(aclVersion := version, base := Some(n))))
            <==> !HasSpace(version) && n <= U64_MAX
  {
    HeaderIs(st, version, n);
    if HasSpace(version) {
      TokensHaveNoSpace(Attrs(version, n));
      FirstAttr(version, n);
      AttrsVersion(Tokens(Attrs(version, n)), st.meta);
    } else if n <= U64_MAX {
      HeaderReads(st, version, n);
    } else {
      AttrTokens(version, n);
      LargeBase(version, n, st.meta);
    }
  }

  lemma {:induction false} LargeBase(version: string, n: nat, m: Meta)
    requires n > U64_MAX
    ensures ChangeAttrs(["acl=" + version, "base=" + Dec(n)], m) == None
  {
    var first, second := "acl=" + version, "base=" + Dec(n);
    assert second[0] == 'b' && second[5..] == Dec(n);
    NumeralReadsIff(n, U64_MAX);
    SpelledDec(n);
    assert IsDigit(Dec(n)[0]);
    assert [first, second][1..] == [second];
    assert ChangeAttrs([second], m.(aclVersion := first[4..])) == None;
  }

  // ---------------------------------------------------------------- block headers

  lemma {:induction false} TrimEndSplit(a: string, b: string)
    requires b != [] && !IsSpace(b[|b| - 1])
    ensures TrimEnd(a + b) == a + b
  {
    assert (a + b)[|a + b| - 1] == b[|b| - 1];
  }

  lemma {:induction false} HeaderTrim(rest: string)
    ensures Trim("block" + " " + rest) == TrimEnd("block" + " " + rest)
  {
    AsciiSpaces('b');
    assert ("block" + " " + rest)[0] == 'b';
  }

  /** A line that opens a block is a header, and opens what the header says. */
  lemma {:induction false} OpensByHeader(st: State, text: string, b: ParsedBlock)
    requires Between(st) && StepText(st, text) == Some(st.(block := Some(b)))
    ensures Cut(text).word == "block" && Cut(text).rest.Some? && BlockHeader(Cut(text).rest.value) == Some(b)
  {
    var line := Cut(text);
    if Dispatch(st, text, line).Some? {
      DispatchFrame(st, text, line);
    }
  }

  lemma {:induction false} CutLength(s: string)
    ensures var l := Cut(s); s == l.word + (if l.rest.Some? then " " + l.rest.value else "")
  {
    if s != [] && s[0] != ' ' {
      CutLength(s[1..]);
      assert s == [s[0]] + s[1..];
    }
  }

  /** A header read from a trimmed text: its words hold no blank, and it stands at the front of the text. */
  lemma {:induction false} HeaderParts(rest: string, b: ParsedBlock)
    requires BlockHeader(rest) == Some(b)
    ensures b.kind != [] && ' ' !in b.kind && b.blockRef != [] && b.blockRef[0] == '@' && ' ' !in b.blockRef
    ensures exists tail :: rest == b.kind + " " + b.blockRef + tail
  {
    CutHasNoBlank(rest);
    CutLength(rest);
    var second := Cut(rest).rest.value;
    CutHasNoBlank(second);
    CutLength(second);
    var tail := if Cut(second).rest.Some? then " " + Cut(second).rest.value else "";
    assert rest == b.kind + " " + (b.blockRef + tail);
    assert b.kind + " " + (b.blockRef + tail) == b.kind + " " + b.blockRef + tail;
  }

  /** Nothing in front of the last part of a header is cut off. */
  lemma {:induction false} HeaderNotCut(b: BlockText, text: string)
    requires text == TrimEnd(BlockHeaderLine(b)) && b.hash.Some?
    ensures text == BlockHeaderLine(b)
  {
    var h := b.hash.value;
    FormatEnds(h);
    var front := "block " + (b.kind + " " + b.blockRef) + " hash=";
    assert BlockHeaderLine(b) == front + FormatValue(h);
    TrimEndSplit(front, FormatValue(h));
  }

  lemma {:induction false} FormatEnds(v: string)
    ensures var f := FormatValue(v); f != [] && !IsSpace(f[|f| - 1]) && !IsSpace(f[0])
  {
    if Plain(v) {
      PlainTrimmed(v);
    } else {
      QuotedTrimmed(v);
    }
  }

  lemma {:induction false} HeaderInner(st: State, b: BlockText, parsed: ParsedBlock) returns (inner: string)
    requires Between(st) && Step(st, BlockHeaderLine(b)) == Some(st.(block := Some(parsed)))
    ensures BlockHeader(inner) == Some(parsed) && "block" + " " + inner == TrimEnd(BlockHeaderLine(b))
  {
    HeaderLineTrim(b);
    inner := OpenedInner(st, Trim(BlockHeaderLine(b)), parsed);
  }

  lemma {:induction false} HeaderLineTrim(b: BlockText)
    ensures Trim(BlockHeaderLine(b)) == TrimEnd(BlockHeaderLine(b))
  {
    var rest := b.kind + " " + BlockRest(b);
    assert BlockHeaderLine(b) == "block" + " " + rest;
    HeaderTrim(rest);
  }

  lemma {:induction false} OpenedInner(st: State, text: string, parsed: ParsedBlock) returns (inner: string)
    requires Between(st) && StepText(st, text) == Some(st.(block := Some(parsed)))
    ensures BlockHeader(inner) == Some(parsed) && "block" + " " + inner == text
  {
    OpensByHeader(st, text, parsed);
    CutLength(text);
    inner := Cut(text).rest.value;
  }

  lemma {:induction false} SameInner(b: BlockText, inner: string)
    requires "block" + " " + inner == BlockHeaderLine(b)
    ensures inner == b.kind + " " + BlockRest(b)
  {
    var rest := b.kind + " " + BlockRest(b);
    assert BlockHeaderLine(b) == "block" + " " + rest;
    assert ("block" + " " + inner)[6..] == inner && ("block" + " " + rest)[6..] == rest;
  }

  lemma {:induction false} HashedNeeds(b: BlockText, h: string, inner: string)
    requires b.hash == Some(h) && ' ' !in b.kind && ' ' !in b.blockRef && b.blockRef != [] && b.blockRef[0] == '@'
    requires BlockHeader(inner) == Some(ParsedBlock(b.kind, b.blockRef, [], b.hash))
    requires "block" + " " + inner == TrimEnd(BlockHeaderLine(b))
    ensures HashValue(h)
  {
    HeaderNotCut(b, "block" + " " + inner);
    SameInner(b, inner);
    HeaderHash(b, h);
    HashTokenIff(h);
  }

  lemma {:induction false} HeaderHash(b: BlockText, h: string)
    requires b.hash == Some(h) && ' ' !in b.kind && ' ' !in b.blockRef
    requires BlockHeader(b.kind + " " + BlockRest(b)).Some?
    ensures BlockHeader(b.kind + " " + BlockRest(b)).value.hash == TokenValue(Tokens("hash=" + FormatValue(h)), "hash")
  {
    CutAt(b.kind, BlockRest(b));
    assert BlockRest(b) == b.blockRef + " " + ("hash=" + FormatValue(h));
    CutAt(b.blockRef, "hash=" + FormatValue(h));
  }

  lemma {:induction false} BareNeeds(b: BlockText, inner: string, tail: string)
    requires b.hash == None && b.blockRef != [] && inner == b.kind + " " + b.blockRef + tail
    requires "block" + " " + inner == TrimEnd(BlockHeaderLine(b))
    ensures !IsSpace(b.blockRef[|b.blockRef| - 1])
  {
    var raw := BlockHeaderLine(b);
    var rest := b.kind + " " + b.blockRef;
    assert raw == "block" + " " + rest;
    TrimEndResult(raw);
    assert |"block" + " " + inner| == |raw| + |tail|;
    assert TrimEnd(raw) == raw;
    assert raw[|raw| - 1] == b.blockRef[|b.blockRef| - 1];
  }

  lemma {:induction false} HeaderNeeds(st: State, b: BlockText)
    requires Between(st)
    requires Step(st, BlockHeaderLine(b)) == Some(st.(block := Some(ParsedBlock(b.kind, b.blockRef, [], b.hash))))
    ensures HeaderOk(b)
  {
    var parsed := ParsedBlock(b.kind, b.blockRef, [], b.hash);
    var inner := HeaderInner(st, b, parsed);
    HeaderParts(inner, parsed);
    match b.hash
    case Some(h) => HashedNeeds(b, h, inner);
    case None =>
      var tail :| inner == b.kind + " " + b.blockRef + tail;
      BareNeeds(b, inner, tail);
  }

  /** A block header is read back exactly when kind and ref hold no blank, the ref starts with `@`, the
      hash comes back, and nothing is trimmed off the ref. */
  lemma {:induction false} BlockHeaderReadsIff(st: State, b: BlockText)
    requires Between(st)
    ensures Step(st, BlockHeaderLine(b)) == Some(st.(block := Some(ParsedBlock(b.kind, b.blockRef, [], b.hash))))
            <==> HeaderOk(b)
  {
    if HeaderOk(b) {
      BlockOpens(st, b);
    } else if Step(st, BlockHeaderLine(b)) == Some(st.(block := Some(ParsedBlock(b.kind, b.blockRef, [], b.hash)))) {
      HeaderNeeds(st, b);
    }
  }
}
