/**
  The filename risk classifier. A set of fifteen case-insensitive patterns gates the
  analysis: a path whose file name and whole text match none of them is not sensitive.
  A path that passes the gate is put in the first tier whose signs it shows (Critical,
  then High, then Medium) and is Low otherwise.
 */
module Heuristics {
  import Options
  import opened Strings
  import opened Paths

  /** A pattern of the regex set: a literal anywhere in the text, or at its end (`$`). */
  datatype Pattern = Substring(text: string) | Suffix(text: string)

  /** The sensitive patterns, in the order of the regex set; all of them are lower-case. */
  const SensitivePatterns: seq<Pattern> := [
    Substring("password"),
    Substring("secret"),
    Substring("key"),
    Substring("token"),
    Suffix(".pem"),
    Suffix(".kdbx"),
    Substring("backup"),
    Substring("dump"),
    Suffix(".p12"),
    Suffix(".pfx"),
    Substring("credentials"),
    Suffix(".env"),
    Substring("config"),
    Substring(".ssh"),
    Substring("wallet")
  ]

  predicate PatternMatches(p: Pattern, lowered: string) {
    match p
    case Substring(t) => Contains(lowered, t)
    case Suffix(t) => EndsWith(lowered, t)
  }

  /** Some pattern matches the lower-cased text. */
  predicate MatchesLowered(lowered: string) {
    exists i :: 0 <= i < |SensitivePatterns| && PatternMatches(SensitivePatterns[i], lowered)
  }

  /** `RegexSet::is_match` for `(?i)` patterns: matching ignores ASCII case. */
  predicate IsMatch(s: string) {
    MatchesLowered(Lower(s))
  }

  datatype RiskLevel = None | Low | Medium | High | Critical

  function AsStr(r: RiskLevel): string {
    match r
    case None => "None"
    case Low => "Low"
    case Medium => "Medium"
    case High => "High"
    case Critical => "Critical"
  }

  /** The signs of the Critical tier, on the lower-cased file name and path. */
  predicate CriticalSigns(name: string, pathStr: string) {
    || EndsWith(name, ".pem")
    || EndsWith(name, ".p12")
    || EndsWith(name, ".pfx")
    || Contains(name, "password")
    || Contains(name, "secret")
    || Contains(pathStr, ".ssh")
    || Contains(name, "wallet")
  }

  predicate HighSigns(name: string) {
    || Contains(name, "credential")
    || Contains(name, "token")
    || EndsWith(name, ".kdbx")
    || name == ".env"
  }

  predicate MediumSigns(name: string) {
    || Contains(name, "backup")
    || Contains(name, "dump")
    || Contains(name, "config")
    || Contains(name, "key")
  }

  /** The gate: the file name or the lower-cased path matches a sensitive pattern. */
  predicate PassesGate(name: string, path: Path) {
    IsMatch(name) || IsMatch(Lower(path))
  }

  /** `analyze_filename_risk`: any level above None needs a file name past the gate. */
  function AnalyzeFilenameRisk(path: Path): (r: RiskLevel)
    ensures r != None <==> FileName(path).Some? && PassesGate(FileName(path).value, path)
  {
    match FileName(path)
    case None => None
    case Some(filename) =>
      var pathStr := Lower(path);
      var filenameLower := Lower(filename);
      if !IsMatch(filename) && !IsMatch(pathStr) then None
      else if CriticalSigns(filenameLower, pathStr) then Critical
      else if HighSigns(filenameLower) then High
      else if MediumSigns(filenameLower) then Medium
      else Low
  }

  lemma PatternAt(i: nat, lowered: string)
    requires i < |SensitivePatterns| && PatternMatches(SensitivePatterns[i], lowered)
    ensures MatchesLowered(lowered)
  {
  }

  /** Every Critical sign is one of the gate's patterns, in the name or, for `.ssh`, in the path. */
  lemma CriticalSignsMatch(name: string, pathStr: string)
    requires CriticalSigns(name, pathStr)
    ensures MatchesLowered(name) || MatchesLowered(pathStr)
  {
    if Contains(pathStr, ".ssh") { PatternAt(13, pathStr); }
    else if EndsWith(name, ".pem") { PatternAt(4, name); }
    else if EndsWith(name, ".p12") { PatternAt(8, name); }
    else if EndsWith(name, ".pfx") { PatternAt(9, name); }
    else if Contains(name, "password") { PatternAt(0, name); }
    else if Contains(name, "secret") { PatternAt(1, name); }
    else { PatternAt(14, name); }
  }

  /** A lower-cased text matches as itself. */
  lemma LoweredIsMatch(s: string)
    requires MatchesLowered(Lower(s))
    ensures IsMatch(s) && IsMatch(Lower(s))
  {
    LowerIdempotent(s);
  }

  /** The patterns match case-insensitively: lower-casing the text changes nothing. */
  lemma IsMatchIgnoresCase(s: string)
    ensures IsMatch(s) <==> IsMatch(Lower(s))
  {
    LowerIdempotent(s);
  }

  /** So a Critical sign passes the gate. */
  lemma CriticalSignsPassGate(name: string, path: Path)
    requires CriticalSigns(Lower(name), Lower(path))
    ensures PassesGate(name, path)
  {
    CriticalSignsMatch(Lower(name), Lower(path));
    if MatchesLowered(Lower(path)) {
      LoweredIsMatch(path);
    }
  }

  /** Every Medium sign is a gate pattern as well. */
  lemma MediumSignsMatch(name: string)
    requires MediumSigns(name)
    ensures MatchesLowered(name)
  {
    if Contains(name, "backup") { PatternAt(6, name); }
    else if Contains(name, "dump") { PatternAt(7, name); }
    else if Contains(name, "config") { PatternAt(12, name); }
    else { PatternAt(2, name); }
  }

  lemma MediumSignsPassGate(name: string, path: Path)
    requires MediumSigns(Lower(name))
    ensures PassesGate(name, path)
  {
    MediumSignsMatch(Lower(name));
  }

  /** The High signs other than `credential` are gate patterns. */
  lemma HighSignsMatch(name: string)
    requires HighSigns(name) && !Contains(name, "credential")
    ensures MatchesLowered(name)
  {
    if Contains(name, "token") { PatternAt(3, name); }
    else if EndsWith(name, ".kdbx") { PatternAt(5, name); }
    else {
      assert name == ".env";
      PatternAt(11, name);
    }
  }

  lemma HighSignsPassGate(name: string, path: Path)
    requires HighSigns(Lower(name)) && !Contains(Lower(name), "credential")
    ensures PassesGate(name, path)
  {
    HighSignsMatch(Lower(name));
  }

  /**
    The tiers as the classifier assigns them. The gate decides nothing for Critical and
    Medium, whose signs are all gate patterns; for High it matters only through the
    `credential` sign, which the gate's `credentials` does not cover.
   */
  lemma AnalyzeTiers(path: Path)
    ensures FileName(path).None? ==> AnalyzeFilenameRisk(path) == None
    ensures FileName(path).Some? ==>
      var name, pathStr := Lower(FileName(path).value), Lower(path);
      && (AnalyzeFilenameRisk(path) == Critical <==> CriticalSigns(name, pathStr))
      && (AnalyzeFilenameRisk(path) == High <==>
            !CriticalSigns(name, pathStr) && HighSigns(name) && PassesGate(FileName(path).value, path))
      && (AnalyzeFilenameRisk(path) == Medium <==>
            !CriticalSigns(name, pathStr) && !HighSigns(name) && MediumSigns(name))
      && (AnalyzeFilenameRisk(path) == Low <==>
            PassesGate(FileName(path).value, path) && !CriticalSigns(name, pathStr) && !HighSigns(name) && !MediumSigns(name))
      && (AnalyzeFilenameRisk(path) == None <==> !PassesGate(FileName(path).value, path))
  {
    if FileName(path).Some? {
      var filename := FileName(path).value;
      if CriticalSigns(Lower(filename), Lower(path)) {
        CriticalSignsPassGate(filename, path);
      }
      if MediumSigns(Lower(filename)) {
        MediumSignsPassGate(filename, path);
      }
    }
  }

  /** A High verdict without the `credential` sign needs no gate either. */
  lemma HighWithoutCredential(path: Path)
    requires FileName(path).Some?
    requires var name := Lower(FileName(path).value);
      !CriticalSigns(name, Lower(path)) && HighSigns(name) && !Contains(name, "credential")
    ensures AnalyzeFilenameRisk(path) == High
  {
    HighSignsPassGate(FileName(path).value, path);
  }

  /** The five levels have five distinct names. */
  lemma AsStrInjective(a: RiskLevel, b: RiskLevel)
    ensures AsStr(a) == AsStr(b) ==> a == b
  {
  }
}
