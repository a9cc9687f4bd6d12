/** The verbs of ACL operations and the kinds they stand for. */
module Verbs {
  import opened Base
  import opened Phases

  /** The verb stems, in the order they are tried. */
  const STEMS: seq<(string, ChangeSetOp)> :=
    [("create", Create), ("set", Set), ("add", Add), ("remove", Remove), ("delete", Delete), ("disconnect", Disconnect),
     ("rename", Rename), ("move", Move), ("replace", Replace), ("connect", Connect), ("bind", Bind), ("expose", Expose),
     ("hide", Hide), ("grant", Grant), ("revoke", Revoke), ("infer", Infer), ("derive", Derive), ("generate", Generate),
     ("assert", Assert), ("lock", Lock), ("refactor", Refactor), ("migrate", Migrate), ("approve", Approve),
     ("reject", Reject), ("deprecate", Deprecate), ("annotate", Annotate), ("verify", Verify)]

  /** The stem alone, or the stem and an underscore. */
  predicate Matches(verb: string, stem: string) {
    verb == stem || stem + "_" <= verb
  }

  function FirstMatch(verb: string, stems: seq<(string, ChangeSetOp)>): Option<ChangeSetOp> {
    if stems == [] then None
    else if Matches(verb, stems[0].0) then Some(stems[0].1)
    else FirstMatch(verb, stems[1..])
  }

  function MapVerb(verb: string): Option<ChangeSetOp> {
    FirstMatch(verb, STEMS)
  }

  /** The text before the first underscore. */
  function Stem(verb: string): string {
    if verb == [] || verb[0] == '_' then [] else [verb[0]] + Stem(verb[1..])
  }

  // ---------------------------------------------------------------- the order of the stems does not matter

  lemma {:induction false} StemIs(verb: string)
    ensures '_' !in Stem(verb) && Stem(verb) <= verb
    ensures |Stem(verb)| < |verb| ==> verb[|Stem(verb)|] == '_'
  {
    if verb != [] && verb[0] != '_' {
      StemIs(verb[1..]);
    }
  }

  lemma {:induction false} StemUnique(verb: string, stem: string)
    requires '_' !in stem && stem <= verb && (|stem| < |verb| ==> verb[|stem|] == '_')
    ensures Stem(verb) == stem
  {
    if stem != [] {
      StemUnique(verb[1..], stem[1..]);
      assert stem == [stem[0]] + stem[1..];
    }
  }

  /** A stem without underscore matches exactly the verbs whose own stem it is. */
  lemma {:induction false} MatchesIffStem(verb: string, stem: string)
    requires '_' !in stem
    ensures Matches(verb, stem) <==> Stem(verb) == stem
  {
    if Stem(verb) == stem {
      StemIs(verb);
      if |stem| < |verb| {
        assert verb[..|stem| + 1] == stem + "_";
      }
    }
    if Matches(verb, stem) {
      if verb != stem {
        assert verb[|stem|] == (stem + "_")[|stem|];
      }
      StemUnique(verb, stem);
    }
  }

  predicate UnderscoreFree(stems: seq<(string, ChangeSetOp)>) {
    forall i :: 0 <= i < |stems| ==> '_' !in stems[i].0
  }

  lemma {:induction false} StemsUnderscoreFree()
    ensures UnderscoreFree(STEMS)
  {
  }

  ghost predicate StemsDistinct(stems: seq<(string, ChangeSetOp)>) {
    forall i, j :: 0 <= i < j < |stems| ==> stems[i].0 != stems[j].0
  }

  lemma {:induction false} FirstMatchIs(verb: string, stems: seq<(string, ChangeSetOp)>, k: ChangeSetOp)
    requires UnderscoreFree(stems) && StemsDistinct(stems)
    ensures FirstMatch(verb, stems) == Some(k) <==> (Stem(verb), k) in stems
  {
    if stems != [] {
      MatchesIffStem(verb, stems[0].0);
      FirstMatchIs(verb, stems[1..], k);
    }
  }

  lemma {:induction false} EarlyStemsDistinct(i: nat, j: nat)
    requires i < j < |STEMS| && i < 6
    ensures STEMS[i].0 != STEMS[j].0
  {
  }

  lemma {:induction false} MiddleStemsDistinct(i: nat, j: nat)
    requires i < j < |STEMS| && 6 <= i < 13
    ensures STEMS[i].0 != STEMS[j].0
  {
  }

  lemma {:induction false} LateStemsDistinct(i: nat, j: nat)
    requires 13 <= i < j < |STEMS|
    ensures STEMS[i].0 != STEMS[j].0
  {
  }

  lemma {:induction false} AllStemsDistinct()
    ensures StemsDistinct(STEMS)
  {
    forall i, j | 0 <= i < j < |STEMS| ensures STEMS[i].0 != STEMS[j].0 {
      if i < 6 {
        EarlyStemsDistinct(i, j);
      } else if i < 13 {
        MiddleStemsDistinct(i, j);
      } else {
        LateStemsDistinct(i, j);
      }
    }
  }

  /** A verb maps to a kind exactly when the text before its first underscore is that kind's stem. */
  lemma {:induction false} MapVerbIsLookup(verb: string, k: ChangeSetOp)
    ensures MapVerb(verb) == Some(k) <==> (Stem(verb), k) in STEMS
  {
    StemsUnderscoreFree();
    AllStemsDistinct();
    FirstMatchIs(verb, STEMS, k);
  }

  // ---------------------------------------------------------------- parsed operations

  type OpArgs = map<string, string>

  datatype ParsedOp = ParsedOp(kind: ChangeSetOp, verb: string, args: OpArgs)

  /** Every operation's kind is the one its verb stands for. */
  ghost predicate KindsMatch(ops: seq<ParsedOp>) {
    forall i :: 0 <= i < |ops| ==> MapVerb(ops[i].verb) == Some(ops[i].kind)
  }
}
