/** The `key=value` arguments of an operation line: the scanner, the renderer, and exactly when they
    are inverse. */
module KvArgs {
  import opened Base
  import opened Text

  datatype Pair = Pair(key: string, value: string)

  // ---------------------------------------------------------------- the scanner

  function Find(s: string, c: char): Option<nat> {
    if s == [] then None
    else if s[0] == c then Some(0)
    else match Find(s[1..], c) case Some(i) => Some(i + 1) case None => None
  }

  lemma {:induction false} FindIs(s: string, c: char)
    ensures Find(s, c).Some? <==> c in s
    ensures Find(s, c).Some? ==> Find(s, c).value < |s| && s[Find(s, c).value] == c && c !in s[..Find(s, c).value]
  {
    if s != [] {
      FindIs(s[1..], c);
    }
  }

  lemma {:induction false} FindConcat(a: string, c: char, b: string)
    requires c !in a
    ensures Find(a + [c] + b, c) == Some(|a|)
  {
    if a != [] {
      FindConcat(a[1..], c, b);
      assert (a + [c] + b)[1..] == a[1..] + [c] + b;
    }
  }

  /** Open parentheses, braces and brackets; closing one that is not open changes nothing. */
  datatype Depth = Depth(parens: nat, braces: nat, brackets: nat)

  const FLAT := Depth(0, 0, 0)

  function Less(n: nat): nat {
    if n == 0 then 0 else n - 1
  }

  function Nest(d: Depth, c: char): Depth {
    match c
    case '(' => d.(parens := d.parens + 1)
    case ')' => d.(parens := Less(d.parens))
    case '{' => d.(braces := d.braces + 1)
    case '}' => d.(braces := Less(d.braces))
    case '[' => d.(brackets := d.brackets + 1)
    case ']' => d.(brackets := Less(d.brackets))
    case _ => d
  }

  function NestAll(d: Depth, s: string): Depth
    decreases |s|
  {
    if s == [] then d else NestAll(Nest(d, s[0]), s[1..])
  }

  /** Where a bare value that starts at depth `d` ends: the first white space outside all brackets. */
  function BareEnd(s: string, d: Depth): (end: nat)
    ensures end <= |s|
  {
    if s == [] || (d == FLAT && IsSpace(s[0])) then 0 else 1 + BareEnd(s[1..], Nest(d, s[0]))
  }

  method BareValueEnd(value: string) returns (end: nat)
    ensures end == BareEnd(value, FLAT)
  {
    var depth := FLAT;
    end := 0;
    while end < |value|
      invariant end <= |value|
      invariant BareEnd(value, FLAT) == end + BareEnd(value[end..], depth)
    {
      if depth == FLAT && IsSpace(value[end]) {
        return;
      }
      depth := Nest(depth, value[end]);
      assert value[end..][1..] == value[end + 1..];
      end := end + 1;
    }
  }

  /** The content of a quoted token; any other token as it is. */
  function ExtractString(token: string): string {
    if |token| >= 2 && token[0] == '"' && token[|token| - 1] == '"' then token[1..|token| - 1] else token
  }

  /** Where the value at the front of `s` ends. */
  function ValueEnd(s: string): (end: nat)
    ensures end <= |s|
  {
    if s != [] && s[0] == '"' then
      FindIs(s[1..], '"');
      match Find(s[1..], '"') case Some(p) => p + 2 case None => |s|
    else BareEnd(s, FLAT)
  }

  function ValueOf(s: string): string {
    if s != [] && s[0] == '"' then ExtractString(Trim(s[..ValueEnd(s)])) else Trim(s[..ValueEnd(s)])
  }

  function AfterValue(s: string): (rest: string)
    ensures |rest| <= |s|
  {
    var _ := TrimStartLength(s[ValueEnd(s)..]);
    TrimStart(s[ValueEnd(s)..])
  }

  datatype Item = Item(key: string, value: string, rest: string) {
    /** The pair to enter; an item without a key is dropped. */
    function Entered(): seq<Pair> {
      if key == [] then [] else [Pair(key, value)]
    }
  }

  /** The next `key=value` item, if there is another `=`. */
  function Next(s: string): (r: Option<Item>)
    ensures r.Some? ==> |r.value.rest| < |s|
  {
    match Find(s, '=')
    case None => None
    case Some(p) =>
      FindIs(s, '=');
      Some(Item(Trim(s[..p]), ValueOf(s[p + 1..]), AfterValue(s[p + 1..])))
  }

  /** The pairs in the order they are entered into the argument map. */
  function Pairs(s: string): seq<Pair>
    decreases |s|
  {
    match Next(s)
    case None => []
    case Some(item) => item.Entered() + Pairs(item.rest)
  }

  /** Entering pairs one after the other; a later value replaces an earlier one. */
  function Enter(m: map<string, string>, ps: seq<Pair>): map<string, string>
    decreases |ps|
  {
    if ps == [] then m else Enter(m[ps[0].key := ps[0].value], ps[1..])
  }

  /** The value at the front, and what follows it. */
  method TakeValue(remaining: string) returns (value: string, rest: string)
    ensures value == ValueOf(remaining) && rest == AfterValue(remaining)
  {
    var end;
    if remaining != [] && remaining[0] == '"' {
      var close := Find(remaining[1..], '"');
      FindIs(remaining[1..], '"');
      end := if close.Some? then close.value + 2 else |remaining|;
      value := ExtractString(Trim(remaining[..end]));
    } else {
      end := BareValueEnd(remaining);
      value := Trim(remaining[..end]);
    }
    rest := TrimStart(remaining[end..]);
  }

  method TakeItem(remaining: string) returns (item: Option<Item>)
    ensures item == Next(remaining)
  {
    var eq := Find(remaining, '=');
    if eq == None {
      return None;
    }
    FindIs(remaining, '=');
    var key := Trim(remaining[..eq.value]);
    var value, rest := TakeValue(remaining[eq.value + 1..]);
    item := Some(Item(key, value, rest));
  }

  lemma {:induction false} EnterItem(m: map<string, string>, item: Item, ps: seq<Pair>)
    ensures Enter(m, item.Entered() + ps) == Enter(if item.key == [] then m else m[item.key := item.value], ps)
  {
    if item.key == [] {
      assert item.Entered() + ps == ps;
    } else {
      assert ([Pair(item.key, item.value)] + ps)[1..] == ps;
    }
  }

  /** One turn of the scanning loop: the map and the rest of the text together keep their meaning. */
  method ScanItem(args: map<string, string>, remaining: string)
    returns (found: bool, next: map<string, string>, rest: string)
    ensures !found ==> Enter(args, Pairs(remaining)) == args
    ensures found ==> |rest| < |remaining| && Enter(next, Pairs(rest)) == Enter(args, Pairs(remaining))
  {
    var item := TakeItem(remaining);
    found, next, rest := item.Some?, args, remaining;
    if found {
      rest := item.value.rest;
      EnterItem(args, item.value, Pairs(rest));
      if item.value.key != [] {
        next := args[item.value.key := item.value.value];
      }
    }
  }

  /** The argument map of a line: the pairs entered in order. */
  method ParseKvArgs(text: string) returns (args: map<string, string>)
    ensures args == Enter(map[], Pairs(Trim(text)))
  {
    args := map[];
    var remaining := Trim(text);
    ghost var all := Enter(args, Pairs(remaining));
    while remaining != []
      invariant Enter(args, Pairs(remaining)) == all
      decreases |remaining|
    {
      var found, next, rest := ScanItem(args, remaining);
      if !found {
        return;
      }
      args, remaining := next, rest;
    }
  }

  // ---------------------------------------------------------------- the renderer

  predicate HasSpace(s: string) {
    exists i :: 0 <= i < |s| && IsSpace(s[i])
  }

  predicate NeedsQuotes(v: string) {
    v == [] || HasSpace(v) || '#' in v || '"' in v
  }

  /** Every quote character preceded by a backslash. */
  function EscapeQuotes(s: string): string {
    if s == [] then [] else (if s[0] == '"' then ['\\', '"'] else [s[0]]) + EscapeQuotes(s[1..])
  }

  function FormatValue(v: string): string {
    if NeedsQuotes(v) then ['"'] + EscapeQuotes(v) + ['"'] else v
  }

  function Render(args: seq<Pair>): string {
    if args == [] then [] else [' '] + args[0].key + ['='] + FormatValue(args[0].value) + Render(args[1..])
  }

  // ---------------------------------------------------------------- exactly when they are inverse

  predicate KeyOk(k: string) {
    k != [] && Trim(k) == k && '=' !in k
  }

  /** Every key is a trimmed, non-empty text without `=`; no value holds a quote; and every unquoted value
      but the last closes its brackets. */
  ghost predicate Readable(args: seq<Pair>) {
    forall i :: 0 <= i < |args| ==>
      && KeyOk(args[i].key)
      && '"' !in args[i].value
      && (i < |args| - 1 && !NeedsQuotes(args[i].value) ==> NestAll(FLAT, args[i].value) == FLAT)
  }

  /** Whatever is read, its keys are trimmed, non-empty and free of `=`. */
  lemma {:induction false} PairsKeysOk(s: string, i: nat)
    requires i < |Pairs(s)|
    ensures KeyOk(Pairs(s)[i].key)
    decreases |s|
  {
    var item := Next(s).value;
    if item.key != [] {
      NextKey(s);
    }
    var n := |item.Entered()|;
    if i >= n {
      PairsKeysOk(item.rest, i - n);
    }
  }

  lemma {:induction false} NextKey(s: string)
    requires Next(s).Some? && Next(s).value.key != []
    ensures KeyOk(Next(s).value.key)
  {
    FindIs(s, '=');
    var p := Find(s, '=').value;
    TrimResult(s[..p]);
    TrimMembers(s[..p], '=');
  }

  lemma {:induction false} EscapeNothing(v: string)
    requires '"' !in v
    ensures EscapeQuotes(v) == v
  {
    if v != [] {
      EscapeNothing(v[1..]);
    }
  }

  // ---- one value

  lemma {:induction false} TextHead(a: string, b: string)
    requires a != []
    ensures (a + b)[0] == a[0] && (a + b)[1..] == a[1..] + b
  {
  }

  /** A quoted text is read up to its second quote. */
  lemma {:induction false} QuotedValue(body: string, after: string)
    requires '"' !in body
    ensures var s := ['"'] + body + ['"'] + after;
            ValueOf(s) == body && AfterValue(s) == TrimStart(after)
  {
    var s := ['"'] + body + ['"'] + after;
    assert s[1..] == body + ['"'] + after;
    FindConcat(body, '"', after);
    assert ValueEnd(s) == |body| + 2;
    var token := s[..|body| + 2];
    assert token == ['"'] + body + ['"'];
    AsciiSpaces('"');
    TrimNothing(token);
    assert s[|body| + 2..] == after;
  }

  /** A value that holds a quote is never read back: the reading stops at its first quote. */
  lemma {:induction false} EscapedValueLost(v: string, after: string)
    requires '"' in v
    ensures ValueOf(FormatValue(v) + after) != v
  {
    var body := EscapeQuotes(v);
    assert FormatValue(v) + after == ['"'] + (body + ['"'] + after);
    assert (body + ['"'] + after)[|body|] == '"';
    QuoteFreeValue(body + ['"'] + after);
  }

  lemma {:induction false} QuoteFreeValue(tail: string)
    requires '"' in tail
    ensures '"' !in ValueOf(['"'] + tail)
  {
    FindIs(tail, '"');
    var p := Find(tail, '"').value;
    QuotedValue(tail[..p], tail[p + 1..]);
    assert ['"'] + tail == ['"'] + tail[..p] + ['"'] + tail[p + 1..];
  }

  lemma {:induction false} BareEndConcat(v: string, after: string, d: Depth)
    requires !HasSpace(v)
    ensures BareEnd(v + after, d) == |v| + BareEnd(after, NestAll(d, v))
    decreases |v|
  {
    if v == [] {
      assert v + after == after;
    } else {
      TextHead(v, after);
      assert forall i :: 0 <= i < |v[1..]| ==> v[1..][i] == v[i + 1];
      assert !IsSpace(v[0]);
      BareEndConcat(v[1..], after, Nest(d, v[0]));
    }
  }

  /** Before it ends, a value that starts inside brackets meets something that is not white space. */
  lemma {:induction false} OpenBracketsReadOn(s: string, d: Depth)
    requires d != FLAT && !AllSpace(s)
    ensures !AllSpace(s[..BareEnd(s, d)])
    decreases |s|
  {
    var end := BareEnd(s, d);
    assert end == 1 + BareEnd(s[1..], Nest(d, s[0]));
    if IsSpace(s[0]) {
      AsciiSpaces(s[0]);
      OpenBracketsReadOn(s[1..], Nest(d, s[0]));
      var rest := s[1..][..end - 1];
      var i :| 0 <= i < |rest| && !IsSpace(rest[i]);
      assert s[..end][i + 1] == rest[i];
    } else {
      assert s[..end][0] == s[0];
    }
  }

  lemma {:induction false} BareTrims(v: string)
    requires !HasSpace(v)
    ensures Trim(v) == v
  {
    if v != [] {
      assert !IsSpace(v[0]) && !IsSpace(v[|v| - 1]);
    }
    TrimNothing(v);
  }

  /** An unquoted value is read back when its brackets are closed or nothing follows. */
  lemma {:induction false} BareValue(v: string, after: string)
    requires !NeedsQuotes(v)
    requires after == [] || (IsSpace(after[0]) && NestAll(FLAT, v) == FLAT)
    ensures ValueOf(v + after) == v && AfterValue(v + after) == TrimStart(after)
  {
    BareEndConcat(v, after, FLAT);
    TextHead(v, after);
    assert (v + after)[..|v|] == v && (v + after)[|v|..] == after;
    BareTrims(v);
  }

  /** An unquoted value with an open bracket runs on into what follows. */
  lemma {:induction false} OpenValueLost(v: string, after: string)
    requires !NeedsQuotes(v) && NestAll(FLAT, v) != FLAT && !AllSpace(after)
    ensures ValueOf(v + after) != v
  {
    assert !IsSpace(v[0]);
    var d := NestAll(FLAT, v);
    BareEndConcat(v, after, FLAT);
    TextHead(v, after);
    OpenBracketsReadOn(after, d);
    var more := after[..BareEnd(after, d)];
    assert (v + after)[..|v| + |more|] == v + more;
    LongerTrim(v, more);
  }

  lemma {:induction false} LongerTrim(v: string, more: string)
    requires v != [] && !IsSpace(v[0]) && !AllSpace(more)
    ensures |Trim(v + more)| > |v|
  {
    var i :| 0 <= i < |more| && !IsSpace(more[i]);
    assert TrimStart(v + more) == v + more;
    TrimEndKeeps(v + more, |v| + i);
  }

  // ---- one pair, and the whole list

  /** The value of the first pair can be told from what follows it. */
  predicate ValueOk(v: string, last: bool) {
    '"' !in v && (!last && !NeedsQuotes(v) ==> NestAll(FLAT, v) == FLAT)
  }

  lemma {:induction false} FirstValue(v: string, after: string)
    requires after == [] || (IsSpace(after[0]) && !AllSpace(after))
    ensures ValueOf(FormatValue(v) + after) == v <==> ValueOk(v, after == [])
    ensures ValueOk(v, after == []) ==> AfterValue(FormatValue(v) + after) == TrimStart(after)
  {
    if '"' in v {
      EscapedValueLost(v, after);
    } else if NeedsQuotes(v) {
      EscapeNothing(v);
      QuotedValue(v, after);
    } else if ValueOk(v, after == []) {
      BareValue(v, after);
    } else {
      OpenValueLost(v, after);
    }
  }

  lemma {:induction false} RenderedFollows(args: seq<Pair>)
    ensures args == [] <==> Render(args) == []
    ensures args != [] ==> IsSpace(Render(args)[0]) && !AllSpace(Render(args))
  {
    if args != [] {
      AsciiSpaces('=');
      assert Render(args)[1 + |args[0].key|] == '=';
    }
  }

  /** The first pair of a rendered list is found whole. */
  lemma {:induction false} FirstItem(key: string, tail: string)
    requires KeyOk(key)
    ensures Next(TrimStart([' '] + key + ['='] + tail)) == Some(Item(key, ValueOf(tail), AfterValue(tail)))
  {
    var body := key + ['='] + tail;
    AsciiSpaces(' ');
    assert ([' '] + key + ['='] + tail)[1..] == body;
    TrimResult(key);
    assert TrimStart(body) == body;
    FindConcat(key, '=', tail);
    assert body[..|key|] == key && body[|key| + 1..] == tail;
  }

  lemma {:induction false} RenderFirst(args: seq<Pair>)
    requires args != []
    ensures Render(args) == [' '] + args[0].key + ['='] + (FormatValue(args[0].value) + Render(args[1..]))
  {
  }

  lemma {:induction false} ReadableFirst(args: seq<Pair>)
    requires args != []
    ensures Readable(args) <==>
            KeyOk(args[0].key) && ValueOk(args[0].value, args[1..] == []) && Readable(args[1..])
  {
    var rest := args[1..];
    if Readable(args) {
      assert forall i :: 0 <= i < |rest| ==> rest[i] == args[i + 1];
    }
    if KeyOk(args[0].key) && ValueOk(args[0].value, rest == []) && Readable(rest) {
      assert forall i :: 1 <= i < |args| ==> args[i] == rest[i - 1];
    }
  }

  /** Reading a rendered list gives the list back exactly when it is readable. */
  lemma {:induction false} RoundTripStart(args: seq<Pair>)
    ensures Pairs(TrimStart(Render(args))) == args <==> Readable(args)
  {
    if args != [] {
      var s := TrimStart(Render(args));
      var key, value, rest := args[0].key, args[0].value, args[1..];
      var after := Render(rest);
      RoundTripStart(rest);
      ReadableFirst(args);
      RenderedFollows(rest);
      FirstValue(value, after);
      RenderFirst(args);
      if !KeyOk(key) {
        if Pairs(s) == args {
          PairsKeysOk(s, 0);
        }
      } else {
        FirstItem(key, FormatValue(value) + after);
        ConsEqual(Pair(key, ValueOf(FormatValue(value) + after)), Pairs(AfterValue(FormatValue(value) + after)), args);
      }
    }
  }

  lemma {:induction false} ConsEqual<T>(x: T, xs: seq<T>, s: seq<T>)
    requires s != []
    ensures [x] + xs == s <==> x == s[0] && xs == s[1..]
  {
    assert s == [s[0]] + s[1..];
    assert ([x] + xs)[1..] == xs;
  }

  lemma {:induction false} RenderEnds(args: seq<Pair>)
    requires args != []
    ensures !IsSpace(Render(args)[|Render(args)| - 1])
  {
    if |args| > 1 {
      RenderEnds(args[1..]);
    } else {
      var v := args[0].value;
      var f := FormatValue(v);
      AsciiSpaces('"');
      if !NeedsQuotes(v) {
        assert !IsSpace(v[|v| - 1]);
      }
      assert Render(args)[|Render(args)| - 1] == f[|f| - 1];
    }
  }

  /** What the renderer writes is what the scanner reads, exactly for readable arguments. */
  lemma {:induction false} RoundTrip(args: seq<Pair>)
    ensures Pairs(Trim(Render(args))) == args <==> Readable(args)
  {
    if args != [] {
      RenderEnds(args);
    }
    TrimIsTrimStart(Render(args));
    RoundTripStart(args);
  }
}
