/** White space and trimming, as Rust's `str` defines them. */
module Text {

  /** The code point ranges of the Unicode `White_Space` property. */
  const WHITE_SPACE: seq<(int, int)> :=
    [(0x09, 0x0D), (0x20, 0x20), (0x85, 0x85), (0xA0, 0xA0), (0x1680, 0x1680), (0x2000, 0x200A),
     (0x2028, 0x2029), (0x202F, 0x202F), (0x205F, 0x205F), (0x3000, 0x3000)]

  predicate InRanges(u: int, ranges: seq<(int, int)>) {
    ranges != [] && (ranges[0].0 <= u <= ranges[0].1 || InRanges(u, ranges[1..]))
  }

  predicate IsSpace(c: char) {
    InRanges(c as int, WHITE_SPACE)
  }

  lemma {:induction false} InRangesAt(u: int, ranges: seq<(int, int)>)
    ensures InRanges(u, ranges) <==> exists i :: 0 <= i < |ranges| && ranges[i].0 <= u <= ranges[i].1
  {
    if ranges != [] {
      InRangesAt(u, ranges[1..]);
    }
  }

  /** The space is white space; the printing ASCII characters are not. */
  lemma {:induction false} AsciiSpaces(c: char)
    ensures IsSpace(' ')
    ensures '!' <= c <= '~' ==> !IsSpace(c)
  {
    InRangesAt(' ' as int, WHITE_SPACE);
    assert WHITE_SPACE[1].0 <= ' ' as int <= WHITE_SPACE[1].1;
    InRangesAt(c as int, WHITE_SPACE);
  }

  predicate AllSpace(s: string) {
    forall i :: 0 <= i < |s| ==> IsSpace(s[i])
  }

  function TrimStart(s: string): string {
    if s != [] && IsSpace(s[0]) then TrimStart(s[1..]) else s
  }

  function TrimEnd(s: string): string {
    if s != [] && IsSpace(s[|s| - 1]) then TrimEnd(s[..|s| - 1]) else s
  }

  function Trim(s: string): string {
    TrimEnd(TrimStart(s))
  }

  lemma {:induction false} TrimStartHead(s: string)
    ensures TrimStart(s) != [] ==> !IsSpace(TrimStart(s)[0])
  {
    if s != [] && IsSpace(s[0]) {
      TrimStartHead(s[1..]);
    }
  }

  /** A text without white space at its ends is left alone. */
  lemma {:induction false} TrimNothing(s: string)
    requires s != [] ==> !IsSpace(s[0]) && !IsSpace(s[|s| - 1])
    ensures Trim(s) == s && TrimStart(s) == s && TrimEnd(s) == s
  {
  }

  lemma {:induction false} TrimEndResult(s: string)
    ensures TrimEnd(s) <= s
    ensures TrimEnd(s) != [] ==> !IsSpace(TrimEnd(s)[|TrimEnd(s)| - 1])
  {
    if s != [] && IsSpace(s[|s| - 1]) {
      TrimEndResult(s[..|s| - 1]);
    }
  }

  /** Trimming at the end stops at the last character that is not white space. */
  lemma {:induction false} TrimEndKeeps(s: string, i: nat)
    requires i < |s| && !IsSpace(s[i])
    ensures |TrimEnd(s)| > i
  {
    if IsSpace(s[|s| - 1]) {
      TrimEndKeeps(s[..|s| - 1], i);
    }
  }

  /** What trimming leaves has no white space at either end. */
  lemma {:induction false} TrimResult(s: string)
    ensures Trim(s) != [] ==> !IsSpace(Trim(s)[0]) && !IsSpace(Trim(s)[|Trim(s)| - 1])
    ensures Trim(Trim(s)) == Trim(s)
  {
    TrimStartHead(s);
    TrimEndResult(TrimStart(s));
    TrimNothing(Trim(s));
  }

  function TrimStartLength(s: string): (n: nat)
    ensures n == |TrimStart(s)|
    ensures n <= |s|
  {
    if s != [] && IsSpace(s[0]) then TrimStartLength(s[1..]) else |s|
  }

  lemma {:induction false} TrimStartSuffix(s: string)
    ensures TrimStart(s) != [] ==> s != [] && TrimStart(s)[|TrimStart(s)| - 1] == s[|s| - 1]
  {
    if s != [] && IsSpace(s[0]) {
      TrimStartSuffix(s[1..]);
    }
  }

  /** With nothing to trim at the end only the start is trimmed. */
  lemma {:induction false} TrimIsTrimStart(s: string)
    requires s != [] ==> !IsSpace(s[|s| - 1])
    ensures Trim(s) == TrimStart(s)
  {
    TrimStartSuffix(s);
  }

  /** Neither empty nor with white space at either end. */
  predicate Trimmed(s: string) {
    s != [] && !IsSpace(s[0]) && !IsSpace(s[|s| - 1])
  }

  lemma {:induction false} TrimmedTrims(s: string)
    requires Trimmed(s)
    ensures Trim(s) == s
  {
    TrimNothing(s);
  }

  lemma {:induction false} TrimMembers(s: string, c: char)
    requires c !in s
    ensures c !in Trim(s)
  {
    TrimStartMembers(s, c);
    TrimEndResult(TrimStart(s));
  }

  lemma {:induction false} TrimStartMembers(s: string, c: char)
    requires c !in s
    ensures c !in TrimStart(s)
  {
    if s != [] && IsSpace(s[0]) {
      TrimStartMembers(s[1..], c);
    }
  }
}
