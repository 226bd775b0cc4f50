/**
  The governance engine: a policy pairs a rule (optional extension, minimum size and
  minimum age) with an action, `Evaluate` decides whether a file violates the rule and
  `Execute` carries out the action unless the run is a dry run.
 */
module Governance {
  import opened Options
  import opened Strings
  import opened Paths
  import opened Fs

  datatype Action = Report | Delete | Archive(targetPath: string)

  datatype Rule = Rule(extension: Option<string>, minSizeBytes: Option<nat>, minAgeDays: Option<nat>)

  datatype Policy = Policy(name: string, rule: Rule, action: Action)

  const SecondsPerDay := 86400

  /** The extension condition: absent, or the path's lower-cased extension is exactly the target. */
  predicate ExtensionHolds(rule: Rule, path: Path) {
    rule.extension.None? || (Extension(path).Some? && Lower(Extension(path).value) == rule.extension.value)
  }

  /** The size condition: absent, or the file is at least the minimum. */
  predicate SizeHolds(rule: Rule, meta: Metadata) {
    rule.minSizeBytes.None? || meta.len >= rule.minSizeBytes.value
  }

  /** The age condition: absent, the age unknown, or at least the minimum number of days. */
  predicate AgeHolds(rule: Rule, meta: Metadata) {
    rule.minAgeDays.None? || meta.ageSecs.None? || meta.ageSecs.value >= rule.minAgeDays.value * SecondsPerDay
  }

  /** `Policy::evaluate`: each present condition is checked in turn and the first failure returns false. */
  function Evaluate(p: Policy, path: Path, meta: Metadata): (b: bool)
    ensures b <==> ExtensionHolds(p.rule, path) && SizeHolds(p.rule, meta) && AgeHolds(p.rule, meta)
  {
    var extensionFails :=
      match p.rule.extension
      case None => false
      case Some(target) =>
        match Extension(path)
        case Some(ext) => Lower(ext) != target
        case None => true;
    if extensionFails then false
    else if p.rule.minSizeBytes.Some? && meta.len < p.rule.minSizeBytes.value then false
    else
      match p.rule.minAgeDays
      case None => true
      case Some(days) =>
        match meta.ageSecs
        case Some(elapsed) => !(elapsed < days * SecondsPerDay)
        case None => true
  }

  /** A rule with every condition absent matches every file. */
  lemma EmptyRuleMatchesAll(name: string, action: Action, path: Path, meta: Metadata)
    ensures Evaluate(Policy(name, Rule(None, None, None), action), path, meta)
  {
  }

  /** Only the extension is lower-cased, so a target with an upper-case letter never matches. */
  lemma UpperCaseTargetNeverMatches(p: Policy, path: Path, meta: Metadata, i: nat)
    requires p.rule.extension.Some? && i < |p.rule.extension.value|
    requires 'A' <= p.rule.extension.value[i] <= 'Z'
    ensures !Evaluate(p, path, meta)
  {
    if Extension(path).Some? {
      var lowered := Lower(Extension(path).value);
      if i < |lowered| {
        assert lowered[i] == LowerChar(Extension(path).value[i]);
      }
    }
  }

  /** A matching file still matches when it is larger or older. */
  lemma EvaluateMonotone(p: Policy, path: Path, meta: Metadata, meta': Metadata)
    requires Evaluate(p, path, meta)
    requires meta'.len >= meta.len
    requires meta'.ageSecs.None? || (meta.ageSecs.Some? && meta'.ageSecs.value >= meta.ageSecs.value)
    ensures Evaluate(p, path, meta')
  {
  }

  lemma TmpExtension()
    ensures Extension("tmp/test.tmp") == Some("tmp")
  {
    assert AfterLastBefore("tmp/test.tmp", '/', 12) == 4;
    assert AfterLastBefore("test.tmp", '.', 8) == 5;
  }

  lemma LogExtension()
    ensures Extension("tmp/test.log") == Some("log")
  {
    assert AfterLastBefore("tmp/test.log", '/', 12) == 4;
    assert AfterLastBefore("test.log", '.', 8) == 5;
  }

  const TmpPolicy := Policy("Test TMP Files", Rule(Some("tmp"), None, None), Report)

  lemma TmpLowered()
    ensures Lower("tmp") == "tmp"
  {
  }

  lemma LogLowered()
    ensures Lower("log") == "log"
  {
  }

  /** A `tmp` rule matches `test.tmp`. */
  lemma ExtensionRuleMatches(meta: Metadata)
    ensures Evaluate(TmpPolicy, "tmp/test.tmp", meta)
  {
    TmpExtension();
    TmpLowered();
    assert ExtensionHolds(TmpPolicy.rule, "tmp/test.tmp");
  }

  /** A `tmp` rule rejects `test.log`. */
  lemma ExtensionRuleRejects(meta: Metadata)
    ensures !Evaluate(TmpPolicy, "tmp/test.log", meta)
  {
    LogExtension();
    LogLowered();
    assert "log" != "tmp" by { assert "log"[0] != "tmp"[0]; }
    assert !ExtensionHolds(TmpPolicy.rule, "tmp/test.log");
  }

  /** With a threshold of 1024 bytes a 5-byte file is rejected, and 1024 and 2048 bytes match. */
  lemma SizeRuleExample(path: Path, age: Option<nat>)
    ensures var p := Policy("Large Files Only", Rule(None, Some(1024), None), Report);
      && !Evaluate(p, path, Metadata(RegularFile, 5, age))
      && Evaluate(p, path, Metadata(RegularFile, 1024, age))
      && Evaluate(p, path, Metadata(RegularFile, 2048, age))
  {
  }

  /** What `execute` reports on its output. */
  datatype Outcome =
    | WouldExecute(action: Action)
    | Violation(policyName: string)
    | Deleted
    | DeleteFailed
    | Archiving(targetPath: string)

  /** The message `execute` prints, given whether `remove_file` would succeed. */
  function ExpectedOutcome(p: Policy, dryRun: bool, removable: bool): Outcome {
    if dryRun then WouldExecute(p.action)
    else
      match p.action
      case Report => Violation(p.name)
      case Delete => if removable then Deleted else DeleteFailed
      case Archive(target) => Archiving(target)
  }

  /** Which message comes out: the dry-run notice, and the Delete outcomes, each exactly in its case. */
  lemma OutcomeCases(p: Policy, dryRun: bool, removable: bool)
    ensures var o := ExpectedOutcome(p, dryRun, removable);
      && (o.WouldExecute? <==> dryRun)
      && (o.WouldExecute? ==> o.action == p.action)
      && (o == Deleted <==> !dryRun && p.action.Delete? && removable)
      && (o == DeleteFailed <==> !dryRun && p.action.Delete? && !removable)
      && (o.Violation? ==> !dryRun && p.action.Report? && o.policyName == p.name)
      && (o.Archiving? ==> !dryRun && p.action == Archive(o.targetPath))
  {
  }

  /**
    `Policy::execute`: a dry run only reports what it would do; otherwise only `Delete`
    touches the filesystem, removing exactly `path`, and a failed removal is reported.
   */
  method Execute(p: Policy, fs: FileSystem, path: Path, dryRun: bool) returns (outcome: Outcome)
    modifies fs
    ensures fs.protected == old(fs.protected)
    ensures dryRun || !p.action.Delete? ==> fs.files == old(fs.files)
    ensures !dryRun && p.action.Delete? ==> fs.files == old(fs.files) - ({path} - fs.protected)
    ensures outcome == ExpectedOutcome(p, dryRun, path in old(fs.files) && path !in fs.protected)
  {
    if dryRun {
      return WouldExecute(p.action);
    }
    match p.action {
      case Report =>
        outcome := Violation(p.name);
      case Delete =>
        var ok := fs.RemoveFile(path);
        outcome := if ok then Deleted else DeleteFailed;
      case Archive(target) =>
        outcome := Archiving(target);
    }
  }
}
