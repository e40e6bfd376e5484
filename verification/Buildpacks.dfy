/** Buildpack settings: reading four schema versions into one canonical form. */
module Buildpacks {
  import opened Common
  import opened Text
  import Paths

  const SCHEMA_VERSION := 5

  const RUNTIMES: seq<string> := ["go", "rails", "laravel", "django"]

  datatype SSR = SSR(enabled: bool, script: string)

  /** The decoded frontend object; `script` and `ssr` are the fields of older schemas. */
  datatype RawFrontend = RawFrontend(
    runtime: string, directory: string, script: string, scripts: seq<string>, ssr: Option<SSR>, keepNodeRuntime: bool)

  datatype Frontend = Frontend(runtime: string, directory: string, scripts: seq<string>, keepNodeRuntime: bool)

  datatype Advanced = Advanced(goVersion: string, goBuildFlags: string, nodeVersion: string)

  datatype RawSettings = RawSettings(
    schemaVersion: int, runtime: string, frontend: Option<RawFrontend>, advanced: Option<Advanced>)

  datatype Settings = Settings(
    schemaVersion: int, runtime: string, frontend: Option<Frontend>, advanced: Option<Advanced>)

  datatype Error =
    | UnsupportedSchema | UnsupportedRuntime | FrontendRuntime | FrontendDirectory(path: Paths.Error)
    | FrontendScript | BadGoVersion | BadNodeVersion | FlagsLineBreak | FlagsTooLong

  datatype Result<+T> = Ok(value: T) | Err(error: Error)

  // ---------------------------------------------------------------- patterns

  predicate ScriptPattern(s: string) {
    && 1 <= |s| <= 64
    && IsAlnum(s[0])
    && forall i :: 1 <= i < |s| ==> IsAlnum(s[i]) || s[i] in ":_-"
  }

  predicate AllOf(s: string, p: char -> bool) {
    s != "" && forall i :: 0 <= i < |s| ==> p(s[i])
  }

  /** One to three dotted numbers. */
  predicate NumericVersion(s: string) {
    |Split(s, '.')| <= 3 && forall i :: 0 <= i < |Split(s, '.')| ==> AllOf(Split(s, '.')[i], IsDigit)
  }

  predicate VersionSuffix(s: string) {
    s == "" || (s[0] in "-." && AllOf(s[1..], IsAlnum))
  }

  predicate VersionPattern(s: string) {
    exists i :: 0 <= i <= |s| && NumericVersion(s[..i]) && VersionSuffix(s[i..])
  }

  // ---------------------------------------------------------------- frontend

  /** The trimmed scripts, blank ones left out. */
  function NonBlank(scripts: seq<string>): seq<string> {
    if scripts == [] then []
    else
      var last := TrimSpace(scripts[|scripts| - 1]);
      NonBlank(scripts[..|scripts| - 1]) + (if last == "" then [] else [last])
  }

  /** Scripts, else the legacy script; then the server-side-rendering script; else the default. */
  function FoldedScripts(raw: RawFrontend): seq<string> {
    var listed := NonBlank(raw.scripts);
    var legacy := TrimSpace(raw.script);
    var own := if listed == [] && legacy != "" then [legacy] else listed;
    var ssr := if raw.ssr.Some? && raw.ssr.value.enabled
               then (var s := TrimSpace(raw.ssr.value.script); if s == "" then ["build:ssr"] else [s])
               else [];
    if own + ssr == [] then ["build"] else own + ssr
  }

  predicate ValidScripts(scripts: seq<string>) {
    forall i :: 0 <= i < |scripts| ==> ScriptPattern(scripts[i])
  }

  function FrontendOf(raw: RawFrontend): Result<Frontend> {
    var directory := Paths.NormalizeDirectory(raw.directory);
    if TrimSpace(raw.runtime) != "node" then Err(FrontendRuntime)
    else if directory.Err? then Err(FrontendDirectory(directory.error))
    else if !ValidScripts(FoldedScripts(raw)) then Err(FrontendScript)
    else
      var keep := raw.keepNodeRuntime || (raw.ssr.Some? && raw.ssr.value.enabled);
      Ok(Frontend("node", directory.path, FoldedScripts(raw), keep))
  }

  method CollectScripts(frontend: RawFrontend) returns (scripts: seq<string>)
    ensures scripts == FoldedScripts(frontend)
  {
    scripts := [];
    for i := 0 to |frontend.scripts|
      invariant scripts == NonBlank(frontend.scripts[..i])
    {
      assert frontend.scripts[..i + 1][..i] == frontend.scripts[..i];
      var script := TrimSpace(frontend.scripts[i]);
      if script == "" {
        continue;
      }
      scripts := scripts + [script];
    }
    assert frontend.scripts[..|frontend.scripts|] == frontend.scripts;
    if |scripts| == 0 {
      var legacyScript := TrimSpace(frontend.script);
      if legacyScript != "" {
        scripts := scripts + [legacyScript];
      }
    }
    if frontend.ssr.Some? && frontend.ssr.value.enabled {
      var ssrScript := TrimSpace(frontend.ssr.value.script);
      if ssrScript == "" {
        ssrScript := "build:ssr";
      }
      scripts := scripts + [ssrScript];
    }
    if |scripts| == 0 {
      scripts := scripts + ["build"];
    }
  }

  method CheckScripts(scripts: seq<string>) returns (valid: bool)
    ensures valid == ValidScripts(scripts)
  {
    for i := 0 to |scripts|
      invariant forall k :: 0 <= k < i ==> ScriptPattern(scripts[k])
    {
      if !ScriptPattern(scripts[i]) {
        return false;
      }
    }
    return true;
  }

  method NormalizeFrontendSettings(raw: Option<RawFrontend>) returns (r: Result<Option<Frontend>>)
    ensures raw.None? ==> r == Ok(None)
    ensures raw.Some? ==> r == match FrontendOf(raw.value) case Ok(f) => Ok(Some(f)) case Err(e) => Err(e)
  {
    if raw.None? {
      return Ok(None);
    }
    var frontend := raw.value;
    if TrimSpace(frontend.runtime) != "node" {
      return Err(FrontendRuntime);
    }
    var directory := Paths.NormalizeDirectory(frontend.directory);
    if directory.Err? {
      return Err(FrontendDirectory(directory.error));
    }
    var scripts := CollectScripts(frontend);
    var valid := CheckScripts(scripts);
    if !valid {
      return Err(FrontendScript);
    }
    var keepNodeRuntime := frontend.keepNodeRuntime;
    if !keepNodeRuntime && frontend.ssr.Some? && frontend.ssr.value.enabled {
      keepNodeRuntime := true;
    }
    return Ok(Some(Frontend("node", directory.path, scripts, keepNodeRuntime)));
  }

  // ---------------------------------------------------------------- what folding means

  predicate ServerRenders(raw: RawFrontend) {
    raw.ssr.Some? && raw.ssr.value.enabled
  }

  /** The scripts that belong to the build itself, without one for server-side rendering. */
  function OwnScripts(raw: RawFrontend, scripts: seq<string>): seq<string> {
    if ServerRenders(raw) && scripts != [] then scripts[..|scripts| - 1] else scripts
  }

  /** `kept` are the trimmed strings of `given` that are not blank, in order. */
  predicate AreTrimmed(given: seq<string>, kept: seq<string>) {
    if given == [] then kept == []
    else if TrimSpace(given[0]) == "" then AreTrimmed(given[1..], kept)
    else kept != [] && kept[0] == TrimSpace(given[0]) && AreTrimmed(given[1..], kept[1..])
  }

  lemma {:induction false} AreTrimmedAppend(given: seq<string>, kept: seq<string>, s: string)
    requires AreTrimmed(given, kept)
    ensures AreTrimmed(given + [s], kept + (if TrimSpace(s) == "" then [] else [TrimSpace(s)]))
    decreases given
  {
    var more := if TrimSpace(s) == "" then [] else [TrimSpace(s)];
    if given == [] {
      assert given + [s] == [s] && kept + more == more && [s][1..] == [];
    } else {
      assert (given + [s])[1..] == given[1..] + [s];
      if TrimSpace(given[0]) == "" {
        AreTrimmedAppend(given[1..], kept, s);
      } else {
        AreTrimmedAppend(given[1..], kept[1..], s);
        assert (kept + more)[1..] == kept[1..] + more;
      }
    }
  }

  lemma {:induction false} NonBlankAreTrimmed(given: seq<string>)
    ensures AreTrimmed(given, NonBlank(given))
    decreases given
  {
    if given != [] {
      var before, last := given[..|given| - 1], given[|given| - 1];
      NonBlankAreTrimmed(before);
      AreTrimmedAppend(before, NonBlank(before), last);
      assert given == before + [last];
    }
  }

  predicate NoneListed(raw: RawFrontend) {
    AreTrimmed(raw.scripts, [])
  }

  lemma {:induction false} NoneExactly(given: seq<string>, kept: seq<string>)
    requires AreTrimmed(given, kept)
    ensures kept == [] <==> AreTrimmed(given, [])
    ensures AreTrimmed(given, []) <==> forall k :: 0 <= k < |given| ==> TrimSpace(given[k]) == ""
    decreases given
  {
    if given != [] {
      assert forall k :: 0 <= k < |given| - 1 ==> given[1..][k] == given[k + 1];
      if TrimSpace(given[0]) == "" {
        NoneExactly(given[1..], kept);
        assert forall k :: 1 <= k < |given| ==> given[k] == given[1..][k - 1];
      }
    }
  }

  /**
   What an accepted frontend builds: the listed scripts; if none is left, the script of the
   oldest schema; if that is blank and nothing is rendered on the server, "build". With
   server-side rendering one more script comes last and the Node runtime is kept.
   */
  lemma FrontendScripts(raw: RawFrontend)
    requires FrontendOf(raw).Ok?
    ensures var f := FrontendOf(raw).value;
            var own := OwnScripts(raw, f.scripts);
            && (!NoneListed(raw) ==> AreTrimmed(raw.scripts, own))
            && (NoneListed(raw) && TrimSpace(raw.script) != "" ==> own == [TrimSpace(raw.script)])
            && (NoneListed(raw) && TrimSpace(raw.script) == "" ==> own == if ServerRenders(raw) then [] else ["build"])
            && (ServerRenders(raw) ==>
                  && |f.scripts| == |own| + 1 && f.keepNodeRuntime
                  && (f.scripts[|own|] == if TrimSpace(raw.ssr.value.script) == "" then "build:ssr"
                                          else TrimSpace(raw.ssr.value.script)))
            && (!ServerRenders(raw) ==> f.keepNodeRuntime == raw.keepNodeRuntime)
  {
    OwnScriptsAre(raw);
    var own := OwnPart(raw);
    NonBlankAreTrimmed(raw.scripts);
    NoneExactly(raw.scripts, NonBlank(raw.scripts));
  }

  /** What folding takes from the listed scripts and the oldest schema. */
  function OwnPart(raw: RawFrontend): seq<string> {
    var listed, legacy := NonBlank(raw.scripts), TrimSpace(raw.script);
    if listed == [] && legacy != "" then [legacy] else listed
  }

  lemma OwnScriptsAre(raw: RawFrontend)
    ensures ServerRenders(raw) ==>
              var s := TrimSpace(raw.ssr.value.script);
              FoldedScripts(raw) == OwnPart(raw) + [if s == "" then "build:ssr" else s]
    ensures !ServerRenders(raw) ==> FoldedScripts(raw) == if OwnPart(raw) == [] then ["build"] else OwnPart(raw)
    ensures ServerRenders(raw) ==> OwnScripts(raw, FoldedScripts(raw)) == OwnPart(raw)
  {
    var own := OwnPart(raw);
    assert own + [] == own;
    if ServerRenders(raw) {
      var s := TrimSpace(raw.ssr.value.script);
      var last := if s == "" then "build:ssr" else s;
      assert (own + [last])[..|own + [last]| - 1] == own;
    }
  }

  // ---------------------------------------------------------------- settings

  function TrimAdvanced(a: Advanced): Advanced {
    Advanced(TrimSpace(a.goVersion), TrimSpace(a.goBuildFlags), TrimSpace(a.nodeVersion))
  }

  function ValidateAdvanced(advanced: Option<Advanced>): Result<Option<Advanced>> {
    if advanced.None? then Ok(None)
    else
      var a := TrimAdvanced(advanced.value);
      if a.goVersion != "" && !VersionPattern(a.goVersion) then Err(BadGoVersion)
      else if a.nodeVersion != "" && !VersionPattern(a.nodeVersion) then Err(BadNodeVersion)
      else if '\r' in a.goBuildFlags || '\n' in a.goBuildFlags then Err(FlagsLineBreak)
      else if ByteLength(a.goBuildFlags) > 512 then Err(FlagsTooLong)
      else if a == Advanced("", "", "") then Ok(None)
      else Ok(Some(a))
  }

  function RuntimeOf(raw: RawSettings): string {
    if raw.schemaVersion == 2 && raw.runtime == "" then "go" else ToLower(TrimSpace(raw.runtime))
  }

  /** Reading starts from the decoded record. */
  function Parse(raw: RawSettings): Result<Settings> {
    if raw.schemaVersion !in {2, 3, 4, 5} then Err(UnsupportedSchema)
    else if RuntimeOf(raw) !in RUNTIMES then Err(UnsupportedRuntime)
    else
      var frontend := if raw.frontend.None? then Ok(None)
                      else match FrontendOf(raw.frontend.value) case Ok(f) => Ok(Some(f)) case Err(e) => Err(e);
      if frontend.Err? then Err(frontend.error)
      else
        var advanced := ValidateAdvanced(raw.advanced);
        if advanced.Err? then Err(advanced.error)
        else Ok(Settings(SCHEMA_VERSION, RuntimeOf(raw), frontend.value, advanced.value))
  }

  function PrintedFrontend(f: Frontend): RawFrontend {
    RawFrontend(f.runtime, f.directory, "", f.scripts, None, f.keepNodeRuntime)
  }

  /** What printing canonical settings and decoding them again gives: absent fields decode to zero values. */
  function Printed(s: Settings): RawSettings {
    RawSettings(s.schemaVersion, s.runtime,
                match s.frontend
                case None => None
                case Some(f) => Some(PrintedFrontend(f)),
                s.advanced)
  }

  // ---------------------------------------------------------------- canonical settings

  ghost predicate CanonicalFrontend(f: Frontend) {
    && f.runtime == "node"
    && Paths.NormalizeBuildContextPath(f.directory) == Paths.Ok(f.directory)
    && f.scripts != [] && ValidScripts(f.scripts)
  }

  ghost predicate CanonicalAdvanced(a: Advanced) {
    && Trimmed(a.goVersion) && Trimmed(a.goBuildFlags) && Trimmed(a.nodeVersion)
    && (a.goVersion != "" ==> VersionPattern(a.goVersion))
    && (a.nodeVersion != "" ==> VersionPattern(a.nodeVersion))
    && '\r' !in a.goBuildFlags && '\n' !in a.goBuildFlags && ByteLength(a.goBuildFlags) <= 512
    && a != Advanced("", "", "")
  }

  ghost predicate Canonical(s: Settings) {
    && s.schemaVersion == SCHEMA_VERSION
    && s.runtime in RUNTIMES
    && (s.frontend.Some? ==> CanonicalFrontend(s.frontend.value))
    && (s.advanced.Some? ==> CanonicalAdvanced(s.advanced.value))
  }

  lemma ScriptPatternFacts(s: string)
    requires ScriptPattern(s)
    ensures TrimSpace(s) == s && s != "" && ',' !in s
  {
    assert forall i :: 0 <= i < |s| ==> !IsSpace(s[i]) && s[i] != ',';
    TrimSpaceFacts(s);
  }

  lemma {:induction false} NonBlankOfTrimmed(scripts: seq<string>)
    requires forall i :: 0 <= i < |scripts| ==> TrimSpace(scripts[i]) == scripts[i] && scripts[i] != ""
    ensures NonBlank(scripts) == scripts
    decreases scripts
  {
    if scripts == [] {
    } else {
      NonBlankOfTrimmed(scripts[..|scripts| - 1]);
      assert scripts == scripts[..|scripts| - 1] + [scripts[|scripts| - 1]];
    }
  }

  lemma LowerWord(word: string)
    requires word != "" && forall i :: 0 <= i < |word| ==> 'a' <= word[i] <= 'z'
    ensures ToLower(TrimSpace(word)) == word
  {
    TrimSpaceFacts(word);
  }

  lemma RuntimeFacts(runtime: string)
    requires runtime in RUNTIMES
    ensures ToLower(TrimSpace(runtime)) == runtime && runtime != ""
  {
    RuntimesAreLower(runtime);
    LowerWord(runtime);
  }

  lemma RuntimesAreLower(runtime: string)
    requires runtime in RUNTIMES
    ensures runtime != "" && forall i :: 0 <= i < |runtime| ==> 'a' <= runtime[i] <= 'z'
  {
  }

  lemma PrintedScripts(f: Frontend)
    requires f.scripts != [] && ValidScripts(f.scripts)
    ensures FoldedScripts(PrintedFrontend(f)) == f.scripts
  {
    forall i | 0 <= i < |f.scripts| ensures TrimSpace(f.scripts[i]) == f.scripts[i] && f.scripts[i] != "" {
      ScriptPatternFacts(f.scripts[i]);
    }
    NonBlankOfTrimmed(f.scripts);
    assert f.scripts + [] == f.scripts;
  }

  lemma FrontendIsStable(f: Frontend)
    ensures FrontendOf(PrintedFrontend(f)) == Ok(f) <==> CanonicalFrontend(f)
  {
    Paths.DirectoryIsContextPath(f.directory);
    LowerWord("node");
    TrimSpaceFacts("node");
    if f.scripts != [] && ValidScripts(f.scripts) {
      PrintedScripts(f);
    }
    FoldedNonEmpty(PrintedFrontend(f));
  }

  lemma FoldedNonEmpty(raw: RawFrontend)
    ensures FoldedScripts(raw) != []
  {
  }

  lemma PrintedAdvanced(a: Advanced)
    ensures ValidateAdvanced(Some(a)) == Ok(Some(a)) <==> CanonicalAdvanced(a)
  {
    TrimSpaceFacts(a.goVersion);
    TrimSpaceFacts(a.goBuildFlags);
    TrimSpaceFacts(a.nodeVersion);
  }

  /** Settings survive being printed and read again exactly if they are canonical. */
  lemma CanonicalExactly(s: Settings)
    ensures Parse(Printed(s)) == Ok(s) <==> Canonical(s)
  {
    if s.frontend.Some? {
      FrontendIsStable(s.frontend.value);
    }
    if s.advanced.Some? {
      PrintedAdvanced(s.advanced.value);
    }
    if s.runtime in RUNTIMES {
      RuntimeFacts(s.runtime);
    }
  }

  lemma ParsedFrontend(raw: RawFrontend)
    requires FrontendOf(raw).Ok?
    ensures var f := FrontendOf(raw).value;
            && f.runtime == "node" && f.scripts != [] && ValidScripts(f.scripts)
            && (Trimmed(f.directory) <==> CanonicalFrontend(f))
  {
    Paths.DirectoryIsContextPath(raw.directory);
    Paths.NormalizingAgain(raw.directory);
  }

  lemma ParsedAdvanced(advanced: Option<Advanced>)
    requires ValidateAdvanced(advanced).Ok? && ValidateAdvanced(advanced).value.Some?
    ensures CanonicalAdvanced(ValidateAdvanced(advanced).value.value)
  {
    TrimSpaceFacts(advanced.value.goVersion);
    TrimSpaceFacts(advanced.value.goBuildFlags);
    TrimSpaceFacts(advanced.value.nodeVersion);
  }

  /**
   What was read from any of the four schemas is read again as the same settings,
   legacy fields folded once, exactly if the directory has no white space at its ends.
   */
  lemma CanonicalisationIsStable(raw: RawSettings)
    requires Parse(raw).Ok?
    ensures var s := Parse(raw).value;
            Parse(Printed(s)) == Ok(s) <==> (s.frontend.Some? ==> Trimmed(s.frontend.value.directory))
  {
    var s := Parse(raw).value;
    CanonicalExactly(s);
    if raw.frontend.Some? {
      ParsedFrontend(raw.frontend.value);
    }
    if s.advanced.Some? {
      ParsedAdvanced(raw.advanced);
    }
  }

  /** The same condition on what was given, before parsing. */
  lemma StableExactlyOnInput(raw: RawSettings)
    requires Parse(raw).Ok?
    ensures Parse(Printed(Parse(raw).value)) == Parse(raw) <==>
            (raw.frontend.Some? ==>
               Paths.EndsTrimmed(Paths.CleanStack(Split(TrimSpace(raw.frontend.value.directory), '/'))))
  {
    CanonicalisationIsStable(raw);
    if raw.frontend.Some? {
      Paths.DirectoryIsContextPath(raw.frontend.value.directory);
      Paths.StoredTrimmedExactly(raw.frontend.value.directory);
    }
  }

  /** In particular if no segment of the directory has white space at its ends. */
  lemma TrimmedDirectoriesAreStable(raw: RawSettings)
    requires Parse(raw).Ok?
    requires raw.frontend.Some? ==>
               forall d :: d in Split(TrimSpace(raw.frontend.value.directory), '/') ==> Trimmed(d)
    ensures Parse(Printed(Parse(raw).value)) == Parse(raw)
  {
    CanonicalisationIsStable(raw);
    if raw.frontend.Some? {
      Paths.DirectoryIsContextPath(raw.frontend.value.directory);
      Paths.TrimmedSegmentsStayStable(raw.frontend.value.directory);
    }
  }

  /** The frontend directory of accepted settings stays inside the build context. */
  lemma DirectoryStaysInside(raw: RawSettings, base: seq<string>)
    requires Parse(raw).Ok? && raw.frontend.Some?
    ensures Parse(raw).value.frontend.Some?
    ensures base <= Paths.Resolve(base, Split(Parse(raw).value.frontend.value.directory, '/'))
    ensures Paths.Resolve(base, Split(Parse(raw).value.frontend.value.directory, '/')) ==
            Paths.Resolve(base, Split(TrimSpace(raw.frontend.value.directory), '/'))
  {
    Paths.DirectoryIsContextPath(raw.frontend.value.directory);
    Paths.ContextPathAccepted(raw.frontend.value.directory);
  }

  // ---------------------------------------------------------------- what is accepted

  /** Left out, or a script name. */
  predicate ScriptFits(s: string) {
    IsBlank(s) || ScriptPattern(TrimSpace(s))
  }

  predicate AllFit(given: seq<string>) {
    forall k :: 0 <= k < |given| ==> ScriptFits(given[k])
  }

  lemma AllFitAppend(given: seq<string>, s: string)
    ensures AllFit(given + [s]) <==> AllFit(given) && ScriptFits(s)
  {
    assert forall k :: 0 <= k < |given| ==> (given + [s])[k] == given[k];
    assert (given + [s])[|given|] == s;
  }

  lemma {:induction false} NonBlankValid(given: seq<string>)
    ensures ValidScripts(NonBlank(given)) <==> AllFit(given)
    decreases given
  {
    if given != [] {
      var before, last := given[..|given| - 1], given[|given| - 1];
      NonBlankValid(before);
      BlankExactly(last);
      AllFitAppend(before, last);
      assert given == before + [last];
      ValidConcat(NonBlank(before), if TrimSpace(last) == "" then [] else [TrimSpace(last)]);
      OneScript(TrimSpace(last));
    }
  }

  lemma ValidConcat(a: seq<string>, b: seq<string>)
    ensures ValidScripts(a + b) <==> ValidScripts(a) && ValidScripts(b)
  {
    assert forall i :: 0 <= i < |a| ==> (a + b)[i] == a[i];
    assert forall i :: 0 <= i < |b| ==> (a + b)[|a| + i] == b[i];
  }

  lemma DefaultsAreValid()
    ensures ScriptPattern("build") && ScriptPattern("build:ssr")
  {
  }

  /** Every script that is not blank and would be used is a script name. */
  ghost predicate ScriptsFit(raw: RawFrontend) {
    && AllFit(raw.scripts)
    && (NoneListed(raw) ==> ScriptFits(raw.script))
    && (ServerRenders(raw) ==> ScriptFits(raw.ssr.value.script))
  }

  lemma OwnFitsExactly(raw: RawFrontend)
    ensures ValidScripts(OwnPart(raw)) <==>
            AllFit(raw.scripts) && (NoneListed(raw) ==> ScriptFits(raw.script))
  {
    NonBlankAreTrimmed(raw.scripts);
    NoneExactly(raw.scripts, NonBlank(raw.scripts));
    NonBlankValid(raw.scripts);
    BlankExactly(raw.script);
    OneScript(TrimSpace(raw.script));
  }

  lemma OneScript(s: string)
    ensures ValidScripts([s]) <==> ScriptPattern(s)
  {
    assert [s][0] == s;
  }

  lemma ScriptsFitExactly(raw: RawFrontend)
    ensures ValidScripts(FoldedScripts(raw)) <==> ScriptsFit(raw)
  {
    OwnScriptsAre(raw);
    OwnFitsExactly(raw);
    DefaultsAreValid();
    if ServerRenders(raw) {
      var s := TrimSpace(raw.ssr.value.script);
      BlankExactly(raw.ssr.value.script);
      ValidConcat(OwnPart(raw), [if s == "" then "build:ssr" else s]);
      OneScript(if s == "" then "build:ssr" else s);
    } else {
      OneScript("build");
    }
  }

  ghost predicate FrontendFits(raw: RawFrontend) {
    var directory := TrimSpace(raw.directory);
    && TrimSpace(raw.runtime) == "node"
    && !("/" <= directory) && Paths.NeverNegative(Split(directory, '/'))
    && ScriptsFit(raw)
  }

  ghost predicate AdvancedFits(a: Advanced) {
    TrimAdvanced(a) == Advanced("", "", "") || CanonicalAdvanced(TrimAdvanced(a))
  }

  lemma FrontendAcceptedExactly(raw: RawFrontend)
    ensures FrontendOf(raw).Ok? <==> FrontendFits(raw)
  {
    Paths.DirectoryIsContextPath(raw.directory);
    Paths.ContextPathAccepted(raw.directory);
    ScriptsFitExactly(raw);
  }

  lemma AdvancedAcceptedExactly(a: Advanced)
    ensures ValidateAdvanced(Some(a)).Ok? <==> AdvancedFits(a)
    ensures ValidateAdvanced(Some(a)).Ok? ==>
              ValidateAdvanced(Some(a)).value ==
              if TrimAdvanced(a) == Advanced("", "", "") then None else Some(TrimAdvanced(a))
  {
    TrimmedAdvanced(a);
    assert ByteLength("") == 0;
  }

  lemma TrimmedAdvanced(a: Advanced)
    ensures var t := TrimAdvanced(a); Trimmed(t.goVersion) && Trimmed(t.goBuildFlags) && Trimmed(t.nodeVersion)
  {
    TrimSpaceFacts(a.goVersion);
    TrimSpaceFacts(a.goBuildFlags);
    TrimSpaceFacts(a.nodeVersion);
  }

  /** The runtime is one of four up to case and outer white space; only schema 2 may leave it out, for Go. */
  predicate RuntimeFits(raw: RawSettings) {
    || ToLower(TrimSpace(raw.runtime)) in ["go", "rails", "laravel", "django"]
    || (raw.schemaVersion == 2 && raw.runtime == "")
  }

  /** Settings of schemas 2 to 5 are accepted exactly if each of their parts is in order. */
  lemma AcceptedExactly(raw: RawSettings)
    ensures Parse(raw).Ok? <==>
            && 2 <= raw.schemaVersion <= 5 && RuntimeFits(raw)
            && (raw.frontend.Some? ==> FrontendFits(raw.frontend.value))
            && (raw.advanced.Some? ==> AdvancedFits(raw.advanced.value))
    ensures Parse(raw).Ok? ==>
              var s := Parse(raw).value;
              && s.schemaVersion == 5
              && s.runtime == (if raw.runtime == "" then "go" else ToLower(TrimSpace(raw.runtime)))
              && (s.frontend.Some? <==> raw.frontend.Some?)
  {
    if raw.frontend.Some? {
      FrontendAcceptedExactly(raw.frontend.value);
    }
    if raw.advanced.Some? {
      AdvancedAcceptedExactly(raw.advanced.value);
    }
    if raw.runtime == "" {
      TrimSpaceFacts("");
    }
  }

  // ---------------------------------------------------------------- what is reported

  ghost function FrontendFault(raw: RawFrontend): Error {
    var directory := TrimSpace(raw.directory);
    if TrimSpace(raw.runtime) != "node" then FrontendRuntime
    else if "/" <= directory then FrontendDirectory(Paths.NotRelative)
    else if !Paths.NeverNegative(Split(directory, '/')) then FrontendDirectory(Paths.LeavesContext)
    else FrontendScript
  }

  ghost function AdvancedFault(a: Advanced): Error {
    var go, flags, node := TrimSpace(a.goVersion), TrimSpace(a.goBuildFlags), TrimSpace(a.nodeVersion);
    if go != "" && !VersionPattern(go) then BadGoVersion
    else if node != "" && !VersionPattern(node) then BadNodeVersion
    else if '\r' in flags || '\n' in flags then FlagsLineBreak
    else FlagsTooLong
  }

  lemma FrontendFaultIs(raw: RawFrontend)
    requires !FrontendFits(raw)
    ensures FrontendOf(raw) == Err(FrontendFault(raw))
  {
    FrontendAcceptedExactly(raw);
    Paths.DirectoryIsContextPath(raw.directory);
    Paths.ContextPathAccepted(raw.directory);
  }

  /** Of several faults the first is reported: schema, runtime, frontend, advanced settings. */
  lemma FirstFault(raw: RawSettings)
    requires Parse(raw).Err?
    ensures Parse(raw).error ==
            if raw.schemaVersion < 2 || raw.schemaVersion > 5 then UnsupportedSchema
            else if !RuntimeFits(raw) then UnsupportedRuntime
            else if raw.frontend.Some? && !FrontendFits(raw.frontend.value) then FrontendFault(raw.frontend.value)
            else if raw.advanced.Some? then AdvancedFault(raw.advanced.value)
            else UnsupportedSchema
  {
    AcceptedExactly(raw);
    if raw.frontend.Some? {
      FrontendAcceptedExactly(raw.frontend.value);
      if !FrontendFits(raw.frontend.value) {
        FrontendFaultIs(raw.frontend.value);
      }
    }
    if raw.runtime == "" {
      TrimSpaceFacts("");
    }
  }
}
