/** The build environment that canonical settings emit. */
module PackEnvironments {
  import opened Common
  import opened Text
  import opened Buildpacks

  predicate FrontendEnabled(s: Settings) {
    s.frontend.Some? && s.frontend.value.scripts != []
  }

  datatype Name = Scripts | Directory | KeepNode | GoVersion | GoFlags | NodeVersion

  function NameText(n: Name): string {
    match n
    case Scripts => "BP_DEPLOYCRATE_FRONTEND_SCRIPTS"
    case Directory => "BP_DEPLOYCRATE_FRONTEND_DIRECTORY"
    case KeepNode => "BP_DEPLOYCRATE_KEEP_NODE_RUNTIME"
    case GoVersion => "BP_GO_VERSION"
    case GoFlags => "BP_GO_BUILD_FLAGS"
    case NodeVersion => "BP_NODE_VERSION"
  }

  datatype Variable = Variable(name: Name, value: string)

  function Assignment(v: Variable): string {
    NameText(v.name) + "=" + v.value
  }

  function Assignments(vs: seq<Variable>): seq<string> {
    seq(|vs|, i requires 0 <= i < |vs| => Assignment(vs[i]))
  }

  function NonEmpty(name: Name, value: string): seq<Variable> {
    if value == "" then [] else [Variable(name, value)]
  }

  function FrontendVariables(s: Settings): seq<Variable> {
    if !FrontendEnabled(s) then []
    else
      var f := s.frontend.value;
      [Variable(Scripts, Join(f.scripts, ','))] + [Variable(Directory, f.directory)] +
      (if f.keepNodeRuntime then [Variable(KeepNode, "true")] else [])
  }

  function AdvancedVariables(s: Settings): seq<Variable> {
    if s.advanced.None? then []
    else
      var a := s.advanced.value;
      NonEmpty(GoVersion, a.goVersion) + NonEmpty(GoFlags, a.goBuildFlags) + NonEmpty(NodeVersion, a.nodeVersion)
  }

  function Variables(s: Settings): seq<Variable> {
    FrontendVariables(s) + AdvancedVariables(s)
  }

  lemma AssignmentsConcat(a: seq<Variable>, b: seq<Variable>)
    ensures Assignments(a + b) == Assignments(a) + Assignments(b)
  {
  }

  method FrontendEnvironment(s: Settings) returns (environment: seq<string>)
    ensures environment == Assignments(FrontendVariables(s))
  {
    environment := [];
    if s.frontend.Some? && |s.frontend.value.scripts| > 0 {
      var f := s.frontend.value;
      environment := environment + [
        NameText(Scripts) + "=" + Join(f.scripts, ','),
        NameText(Directory) + "=" + f.directory];
      if f.keepNodeRuntime {
        environment := environment + [NameText(KeepNode) + "=" + "true"];
      }
    }
  }

  method PackEnvironment(s: Settings) returns (environment: seq<string>)
    ensures environment == Assignments(Variables(s))
  {
    environment := FrontendEnvironment(s);
    if s.advanced.Some? {
      var a := s.advanced.value;
      var goVersion, goFlags := NonEmpty(GoVersion, a.goVersion), NonEmpty(GoFlags, a.goBuildFlags);
      AssignmentsConcat(FrontendVariables(s), goVersion);
      AssignmentsConcat(FrontendVariables(s) + goVersion, goFlags);
      AssignmentsConcat(FrontendVariables(s) + goVersion + goFlags, NonEmpty(NodeVersion, a.nodeVersion));
      environment := Append(environment, GoVersion, a.goVersion);
      environment := Append(environment, GoFlags, a.goBuildFlags);
      environment := Append(environment, NodeVersion, a.nodeVersion);
      assert FrontendVariables(s) + goVersion + goFlags + NonEmpty(NodeVersion, a.nodeVersion) == Variables(s);
    } else {
      assert Variables(s) == FrontendVariables(s);
    }
  }

  method Append(environment: seq<string>, name: Name, value: string) returns (longer: seq<string>)
    ensures longer == environment + Assignments(NonEmpty(name, value))
  {
    longer := environment;
    if value != "" {
      longer := longer + [NameText(name) + "=" + value];
    }
  }

  // ---------------------------------------------------------------- reading it back

  /** The value of a variable, read back from the environment. */
  function Lookup(vs: seq<Variable>, name: Name): Option<string> {
    if vs == [] then None
    else if vs[0].name == name then Some(vs[0].value)
    else Lookup(vs[1..], name)
  }

  function OrElse(a: Option<string>, b: Option<string>): Option<string> {
    if a.Some? then a else b
  }

  lemma {:induction false} LookupAppend(a: seq<Variable>, b: seq<Variable>, name: Name)
    ensures Lookup(a + b, name) == OrElse(Lookup(a, name), Lookup(b, name))
    decreases a
  {
    if a == [] {
      assert a + b == b;
    } else {
      LookupAppend(a[1..], b, name);
      assert (a + b)[1..] == a[1..] + b;
    }
  }

  lemma LookupThree(a: seq<Variable>, b: seq<Variable>, c: seq<Variable>, name: Name)
    ensures Lookup(a + b + c, name) == OrElse(OrElse(Lookup(a, name), Lookup(b, name)), Lookup(c, name))
  {
    LookupAppend(a + b, c, name);
    LookupAppend(a, b, name);
  }

  function OrEmpty(o: Option<string>): string {
    if o.Some? then o.value else ""
  }

  /** Splits the scripts at commas. */
  function ReadFrontend(vs: seq<Variable>): Option<Frontend> {
    match (Lookup(vs, Scripts), Lookup(vs, Directory))
    case (Some(scripts), Some(directory)) =>
      Some(Frontend("node", directory, Split(scripts, ','), Lookup(vs, KeepNode).Some?))
    case _ => None
  }

  function ReadAdvanced(vs: seq<Variable>): Option<Advanced> {
    var a := Advanced(OrEmpty(Lookup(vs, GoVersion)), OrEmpty(Lookup(vs, GoFlags)), OrEmpty(Lookup(vs, NodeVersion)));
    if a == Advanced("", "", "") then None else Some(a)
  }

  lemma LookupFrontend(s: Settings, name: Name)
    ensures Lookup(FrontendVariables(s), name) ==
            if !FrontendEnabled(s) then None
            else match name
              case Scripts => Some(Join(s.frontend.value.scripts, ','))
              case Directory => Some(s.frontend.value.directory)
              case KeepNode => if s.frontend.value.keepNodeRuntime then Some("true") else None
              case _ => None
  {
    if FrontendEnabled(s) {
      var f := s.frontend.value;
      LookupThree([Variable(Scripts, Join(f.scripts, ','))], [Variable(Directory, f.directory)],
                  if f.keepNodeRuntime then [Variable(KeepNode, "true")] else [], name);
    }
  }

  lemma LookupAdvanced(s: Settings, name: Name)
    ensures OrEmpty(Lookup(AdvancedVariables(s), name)) ==
            if s.advanced.None? then ""
            else match name
              case GoVersion => s.advanced.value.goVersion
              case GoFlags => s.advanced.value.goBuildFlags
              case NodeVersion => s.advanced.value.nodeVersion
              case _ => ""
    ensures name in {Scripts, Directory, KeepNode} ==> Lookup(AdvancedVariables(s), name).None?
  {
    if s.advanced.Some? {
      var a := s.advanced.value;
      LookupThree(NonEmpty(GoVersion, a.goVersion), NonEmpty(GoFlags, a.goBuildFlags),
                  NonEmpty(NodeVersion, a.nodeVersion), name);
    }
  }

  /** Splitting the emitted scripts value at commas gives the scripts back. */
  lemma ScriptsRoundTrip(f: Frontend)
    requires CanonicalFrontend(f)
    ensures Split(Join(f.scripts, ','), ',') == f.scripts
  {
    forall p | p in f.scripts ensures ',' !in p {
      ScriptPatternFacts(p);
    }
    SplitJoin(f.scripts, ',');
  }

  /** Reading the variables gives the frontend and advanced settings back. */
  lemma ReadBack(s: Settings)
    requires Canonical(s)
    ensures ReadFrontend(Variables(s)) == s.frontend
    ensures ReadAdvanced(Variables(s)) == s.advanced
  {
    forall name ensures Lookup(Variables(s), name) ==
                        OrElse(Lookup(FrontendVariables(s), name), Lookup(AdvancedVariables(s), name))
    {
      LookupAppend(FrontendVariables(s), AdvancedVariables(s), name);
    }
    LookupFrontend(s, Scripts);
    LookupFrontend(s, Directory);
    LookupFrontend(s, KeepNode);
    LookupFrontend(s, GoVersion);
    LookupFrontend(s, GoFlags);
    LookupFrontend(s, NodeVersion);
    LookupAdvanced(s, Scripts);
    LookupAdvanced(s, Directory);
    LookupAdvanced(s, KeepNode);
    LookupAdvanced(s, GoVersion);
    LookupAdvanced(s, GoFlags);
    LookupAdvanced(s, NodeVersion);
    if s.frontend.Some? {
      ScriptsRoundTrip(s.frontend.value);
    }
  }

  lemma NamesFree(n: Name)
    ensures '=' !in NameText(n)
  {
  }

  lemma NamesDistinct(m: Name, n: Name)
    requires NameText(m) == NameText(n)
    ensures m == n
  {
    assert |NameText(Scripts)| == 31 && |NameText(Directory)| == 33 && |NameText(KeepNode)| == 32;
    assert |NameText(GoVersion)| == 13 && |NameText(GoFlags)| == 17 && |NameText(NodeVersion)| == 15;
  }

  /** An assignment is read back by cutting at its first equals sign. */
  lemma AssignmentInjective(v: Variable, w: Variable)
    requires Assignment(v) == Assignment(w)
    ensures v == w
  {
    var m, n := NameText(v.name), NameText(w.name);
    NamesFree(v.name);
    NamesFree(w.name);
    SplitCons(m, v.value, '=');
    SplitCons(n, w.value, '=');
    assert m + ['='] + v.value == n + ['='] + w.value;
    assert ([m] + Split(v.value, '='))[0] == ([n] + Split(w.value, '='))[0];
    NamesDistinct(v.name, w.name);
    assert Assignment(v)[|m| + 1..] == v.value && Assignment(w)[|n| + 1..] == w.value;
  }

  /** The emitted environment determines the frontend and advanced settings. */
  lemma EnvironmentDetermines(s: Settings, t: Settings)
    requires Canonical(s) && Canonical(t)
    requires Assignments(Variables(s)) == Assignments(Variables(t))
    ensures s.frontend == t.frontend && s.advanced == t.advanced
  {
    AssignmentsInjective(Variables(s), Variables(t));
    ReadBack(s);
    ReadBack(t);
  }

  lemma AssignmentsInjective(vs: seq<Variable>, ws: seq<Variable>)
    requires Assignments(vs) == Assignments(ws)
    ensures vs == ws
  {
    assert |vs| == |Assignments(vs)| == |ws|;
    forall i | 0 <= i < |vs| ensures vs[i] == ws[i] {
      assert Assignments(vs)[i] == Assignments(ws)[i];
      AssignmentInjective(vs[i], ws[i]);
    }
  }

  // ---------------------------------------------------------------- what the build sees

  /** The value of the first assignment to a name, as a build reads its environment. */
  function Getenv(environment: seq<string>, name: string): Option<string> {
    if environment == [] then None
    else if name + "=" <= environment[0] then Some(environment[0][|name| + 1..])
    else Getenv(environment[1..], name)
  }

  lemma AssignsTo(v: Variable, n: Name)
    ensures NameText(n) + "=" <= Assignment(v) <==> v.name == n
    ensures v.name == n ==> Assignment(v)[|NameText(n)| + 1..] == v.value
  {
    NamesFree(n);
    NamesFree(v.name);
    CutAtEquals(NameText(n), NameText(v.name), v.value);
    if NameText(n) == NameText(v.name) {
      NamesDistinct(v.name, n);
    }
  }

  lemma CutAtEquals(a: string, b: string, value: string)
    requires '=' !in a && '=' !in b
    ensures a + "=" <= b + "=" + value <==> a == b
    ensures (b + "=" + value)[|b| + 1..] == value
  {
    var text := b + "=" + value;
    if a + "=" <= text {
      assert text == a + ['='] + text[|a| + 1..] && text == b + ['='] + value;
      SplitCons(a, text[|a| + 1..], '=');
      SplitCons(b, value, '=');
      assert Split(text, '=')[0] == a && Split(text, '=')[0] == b;
    }
  }

  lemma {:induction false} GetenvIsLookup(vs: seq<Variable>, n: Name)
    ensures Getenv(Assignments(vs), NameText(n)) == Lookup(vs, n)
    decreases vs
  {
    if vs != [] {
      GetenvIsLookup(vs[1..], n);
      AssignsTo(vs[0], n);
      assert Assignments(vs)[1..] == Assignments(vs[1..]) && Assignments(vs)[0] == Assignment(vs[0]);
    }
  }

  function NoneIfEmpty(s: string): Option<string> {
    if s == "" then None else Some(s)
  }

  lemma LookupSettings(s: Settings, name: Name)
    ensures Lookup(Variables(s), name) ==
            OrElse(Lookup(FrontendVariables(s), name), Lookup(AdvancedVariables(s), name))
  {
    LookupAppend(FrontendVariables(s), AdvancedVariables(s), name);
  }

  /** Which variable tells a build what, by the names it looks for. */
  lemma BuildSees(s: Settings)
    ensures var environment := Assignments(Variables(s));
            var on := s.frontend.Some? && s.frontend.value.scripts != [];
            && Getenv(environment, "BP_DEPLOYCRATE_FRONTEND_SCRIPTS") ==
               (if on then Some(Join(s.frontend.value.scripts, ',')) else None)
            && Getenv(environment, "BP_DEPLOYCRATE_FRONTEND_DIRECTORY") ==
               (if on then Some(s.frontend.value.directory) else None)
            && Getenv(environment, "BP_DEPLOYCRATE_KEEP_NODE_RUNTIME") ==
               (if on && s.frontend.value.keepNodeRuntime then Some("true") else None)
  {
    BuildSeesOne(s, Scripts);
    BuildSeesOne(s, Directory);
    BuildSeesOne(s, KeepNode);
    LookupFrontend(s, Scripts);
    LookupFrontend(s, Directory);
    LookupFrontend(s, KeepNode);
  }

  lemma BuildSeesOne(s: Settings, name: Name)
    ensures Getenv(Assignments(Variables(s)), NameText(name)) ==
            OrElse(Lookup(FrontendVariables(s), name), Lookup(AdvancedVariables(s), name))
    ensures name in {Scripts, Directory, KeepNode} ==>
              Getenv(Assignments(Variables(s)), NameText(name)) == Lookup(FrontendVariables(s), name)
    ensures name in {GoVersion, GoFlags, NodeVersion} ==>
              Getenv(Assignments(Variables(s)), NameText(name)) == Lookup(AdvancedVariables(s), name)
  {
    GetenvIsLookup(Variables(s), name);
    LookupSettings(s, name);
    LookupFrontend(s, name);
    LookupAdvanced(s, name);
  }

  lemma BuildSeesVersions(s: Settings)
    ensures var environment := Assignments(Variables(s));
            var a := if s.advanced.Some? then s.advanced.value else Advanced("", "", "");
            && Getenv(environment, "BP_GO_VERSION") == NoneIfEmpty(a.goVersion)
            && Getenv(environment, "BP_GO_BUILD_FLAGS") == NoneIfEmpty(a.goBuildFlags)
            && Getenv(environment, "BP_NODE_VERSION") == NoneIfEmpty(a.nodeVersion)
  {
    BuildSeesOne(s, GoVersion);
    BuildSeesOne(s, GoFlags);
    BuildSeesOne(s, NodeVersion);
    LookupAdvancedExactly(s, GoVersion);
    LookupAdvancedExactly(s, GoFlags);
    LookupAdvancedExactly(s, NodeVersion);
  }

  lemma LookupAdvancedExactly(s: Settings, name: Name)
    requires name in {GoVersion, GoFlags, NodeVersion}
    ensures Lookup(AdvancedVariables(s), name) ==
            if s.advanced.None? then None
            else match name
              case GoVersion => NoneIfEmpty(s.advanced.value.goVersion)
              case GoFlags => NoneIfEmpty(s.advanced.value.goBuildFlags)
              case _ => NoneIfEmpty(s.advanced.value.nodeVersion)
  {
    if s.advanced.Some? {
      var a := s.advanced.value;
      LookupThree(NonEmpty(GoVersion, a.goVersion), NonEmpty(GoFlags, a.goBuildFlags),
                  NonEmpty(NodeVersion, a.nodeVersion), name);
    }
  }
}
