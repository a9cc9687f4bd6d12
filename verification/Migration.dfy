/** The chain of ACL version migrators, editing the parsed operations in place. */
module Migration {
  import opened Base
  import opened Verbs

  /** Move the value under `old` to `new_`, unless `new_` is taken; `old` goes either way. */
  function RenameKey(args: map<string, string>, old_: string, new_: string): map<string, string> {
    if old_ !in args then args
    else
      var rest := args - {old_};
      if new_ in rest then rest else rest[new_ := args[old_]]
  }

  // ---------------------------------------------------------------- one operation

  function VerbTo10(verb: string): string {
    if verb == "create_fn" then "create_function" else if verb == "add_field" then "add_param" else verb
  }

  function VerbTo11(verb: string): string {
    if verb == "set_field" then "set_return" else verb
  }

  function To10(op: ParsedOp): ParsedOp {
    op.(verb := VerbTo10(op.verb), args := RenameKey(op.args, "typ", "type"))
  }

  function To11(op: ParsedOp): ParsedOp {
    op.(verb := VerbTo11(op.verb), args := RenameKey(op.args, "return_type", "type"))
  }

  function All(ops: seq<ParsedOp>, step: ParsedOp -> ParsedOp): (r: seq<ParsedOp>)
    ensures |r| == |ops| && forall i :: 0 <= i < |ops| ==> r[i] == step(ops[i])
  {
    seq(|ops|, i requires 0 <= i < |ops| => step(ops[i]))
  }

  // ---------------------------------------------------------------- the chain

  /** The next version and the step to it; `None` for a version without migrator. */
  function NextVersion(version: string): Option<string> {
    if version == "0.9" then Some("1.0") else if version == "1.0" then Some("1.1") else None
  }

  function Stepped(ops: seq<ParsedOp>, version: string): seq<ParsedOp> {
    if version == "0.9" then All(ops, To10) else if version == "1.0" then All(ops, To11) else ops
  }

  /** Steps left before a version without migrator. */
  function Remaining(version: string): nat {
    if version == "0.9" then 2 else if version == "1.0" then 1 else 0
  }

  datatype Outcome = Migrated(ops: seq<ParsedOp>, version: string) | UnknownVersion(version: string)

  /** What the chain leads to. */
  function RunChain(ops: seq<ParsedOp>, version: string, target: string): Outcome
    decreases Remaining(version)
  {
    if version == target then Migrated(ops, version)
    else
      match NextVersion(version)
      case None => UnknownVersion(version)
      case Some(next) => RunChain(Stepped(ops, version), next, target)
  }

  class ParsedChangeSet {
    var parsedOps: seq<ParsedOp>
    var aclVersion: string

    constructor (ops: seq<ParsedOp>, version: string)
      ensures parsedOps == ops && aclVersion == version
    {
      parsedOps := ops;
      aclVersion := version;
    }

    /** Rewrites every operation in place. */
    method Migrate(version: string)
      modifies `parsedOps
      ensures parsedOps == Stepped(old(parsedOps), version)
    {
      ghost var before := parsedOps;
      for i := 0 to |parsedOps|
        invariant |parsedOps| == |before|
        invariant forall k :: 0 <= k < i ==> parsedOps[k] == Stepped(before, version)[k]
        invariant forall k :: i <= k < |parsedOps| ==> parsedOps[k] == before[k]
      {
        var op := parsedOps[i];
        if version == "0.9" {
          op := op.(verb := VerbTo10(op.verb));
          op := op.(args := RenameKey(op.args, "typ", "type"));
        } else if version == "1.0" {
          op := op.(verb := VerbTo11(op.verb));
          op := op.(args := RenameKey(op.args, "return_type", "type"));
        }
        parsedOps := parsedOps[i := op];
      }
    }

    /** Steps from version to version until the target; without a step it fails at the version reached. */
    method RunMigrationChain(target: string) returns (failedAt: Option<string>)
      modifies this
      ensures match RunChain(old(parsedOps), old(aclVersion), target)
              case Migrated(ops, version) => failedAt == None && parsedOps == ops && aclVersion == version
              case UnknownVersion(v) => failedAt == Some(v)
    {
      if aclVersion == target {
        return None;
      }
      var current := aclVersion;
      while current != target
        invariant aclVersion == current
        invariant RunChain(parsedOps, current, target) == RunChain(old(parsedOps), old(aclVersion), target)
        decreases Remaining(current)
      {
        var next := NextVersion(current);
        if next == None {
          return Some(current);
        }
        Migrate(current);
        current := next.value;
        aclVersion := current;
      }
      return None;
    }
  }

  // ---------------------------------------------------------------- what migration guarantees

  /** There is a path of migrators from one version to the other. */
  predicate Reaches(version: string, target: string) {
    || version == target
    || (version == "0.9" && target in {"1.0", "1.1"})
    || (version == "1.0" && target == "1.1")
  }

  /** The chain succeeds exactly when there is a path, and then stands at the target. */
  lemma {:induction false} ChainReaches(ops: seq<ParsedOp>, version: string, target: string)
    ensures RunChain(ops, version, target).Migrated? <==> Reaches(version, target)
    ensures RunChain(ops, version, target).Migrated? ==> RunChain(ops, version, target).version == target
    decreases Remaining(version)
  {
    if version != target && NextVersion(version).Some? {
      ChainReaches(Stepped(ops, version), NextVersion(version).value, target);
    }
  }

  lemma {:induction false} RenamedKey(args: map<string, string>, old_: string, new_: string, k: string)
    requires old_ != new_
    ensures var r := RenameKey(args, old_, new_);
            && old_ !in r
            && (k != old_ && k in args ==> k in r && r[k] == args[k])
            && (k in r ==> k in args || (k == new_ && old_ in args && r[k] == args[old_]))
  {
  }

  /** The deprecated keys and verbs of a version. */
  predicate Modern(op: ParsedOp, version: string) {
    match version
    case "1.0" => "typ" !in op.args && op.verb !in {"create_fn", "add_field"}
    case "1.1" => "return_type" !in op.args && op.verb != "set_field"
    case _ => true
  }

  /** A kind is kept by both steps. */
  lemma {:induction false} StepsKeepKind(op: ParsedOp)
    requires MapVerb(op.verb) == Some(op.kind)
    ensures MapVerb(To10(op).verb) == Some(To10(op).kind)
    ensures MapVerb(To11(op).verb) == Some(To11(op).kind)
  {
    MapVerbIsLookup(op.verb, op.kind);
    StemsKept(op.verb);
    MapVerbIsLookup(VerbTo10(op.verb), op.kind);
    MapVerbIsLookup(VerbTo11(op.verb), op.kind);
  }

  lemma {:induction false} StemsKept(verb: string)
    ensures Stem(VerbTo10(verb)) == Stem(verb) && Stem(VerbTo11(verb)) == Stem(verb)
  {
    StemUnique("create_fn", "create");
    StemUnique("create_function", "create");
    StemUnique("add_field", "add");
    StemUnique("add_param", "add");
    StemUnique("set_field", "set");
    StemUnique("set_return", "set");
  }

  lemma {:induction false} SteppedKeepsKinds(ops: seq<ParsedOp>, version: string)
    requires KindsMatch(ops)
    ensures KindsMatch(Stepped(ops, version))
  {
    forall i | 0 <= i < |ops| ensures var op := Stepped(ops, version)[i]; MapVerb(op.verb) == Some(op.kind) {
      StepsKeepKind(ops[i]);
    }
  }

  /** What migration keeps of an operation: its kind, every argument that is not renamed, an explicit type. */
  ghost predicate Keeps(before: ParsedOp, after: ParsedOp) {
    && after.kind == before.kind && Stem(after.verb) == Stem(before.verb)
    && forall k :: k in before.args && k !in {"typ", "return_type"} ==>
         k in after.args && after.args[k] == before.args[k]
  }

  lemma {:induction false} StepsKeep(op: ParsedOp)
    ensures Keeps(op, To10(op)) && Keeps(op, To11(op))
  {
    StemsKept(op.verb);
    forall k | k in op.args && k !in {"typ", "return_type"}
      ensures k in To10(op).args && To10(op).args[k] == op.args[k]
      ensures k in To11(op).args && To11(op).args[k] == op.args[k]
    {
      RenamedKey(op.args, "typ", "type", k);
      RenamedKey(op.args, "return_type", "type", k);
    }
  }

  /** A successful migration keeps the operations, their order, their kinds and their explicit arguments. */
  lemma {:induction false} ChainKeeps(ops: seq<ParsedOp>, version: string, target: string, i: nat)
    requires KindsMatch(ops) && Reaches(version, target) && i < |ops|
    ensures var r := RunChain(ops, version, target);
            && r.Migrated? && |r.ops| == |ops| && KindsMatch(r.ops) && Keeps(ops[i], r.ops[i])
    decreases Remaining(version)
  {
    ChainReaches(ops, version, target);
    if version != target {
      var next := NextVersion(version).value;
      SteppedKeepsKinds(ops, version);
      ChainKeeps(Stepped(ops, version), next, target, i);
      StepsKeep(ops[i]);
    }
  }

  /** The second step brings nothing back that the first one removed. */
  lemma {:induction false} StaysModern(op: ParsedOp)
    requires Modern(op, "1.0")
    ensures Modern(To11(op), "1.0") && Modern(To11(op), "1.1")
  {
    RenamedKey(op.args, "return_type", "type", "typ");
  }

  /** A migration leaves nothing that any of the versions it passes or reaches deprecates: from 0.9 to
      1.1 neither the old keys and verbs of 1.0 nor those of 1.1. */
  lemma {:induction false} ChainModernises(ops: seq<ParsedOp>, version: string, target: string, via: string, i: nat)
    requires Reaches(version, via) && via != version && Reaches(via, target) && i < |ops|
    ensures var r := RunChain(ops, version, target);
            r.Migrated? && |r.ops| == |ops| && Modern(r.ops[i], via)
    decreases Remaining(version)
  {
    ChainReaches(ops, version, target);
    var next := NextVersion(version).value;
    var step := Stepped(ops, version);
    RenamedKey(ops[i].args, "typ", "type", "typ");
    RenamedKey(ops[i].args, "return_type", "type", "return_type");
    assert Modern(step[i], next);
    if next != target {
      assert next == "1.0" && target == "1.1";
      StaysModern(step[i]);
      assert RunChain(step, next, target) == Migrated(Stepped(step, next), target);
    }
  }

  /** Migrating step by step is migrating in one run. */
  lemma {:induction false} ChainComposes(ops: seq<ParsedOp>, a: string, b: string, c: string)
    requires Reaches(a, b) && Reaches(b, c)
    ensures var r := RunChain(ops, a, b);
            r.Migrated? && RunChain(r.ops, b, c) == RunChain(ops, a, c)
    decreases Remaining(a)
  {
    ChainReaches(ops, a, b);
    if a != b {
      ChainComposes(Stepped(ops, a), NextVersion(a).value, b, c);
    }
  }
}
