/** Relative paths below a build context: cleaning, and which ones are accepted. */
module Paths {
  import opened Text

  datatype Error = NotRelative | LeavesContext

  datatype Result = Ok(path: string) | Err(error: Error)

  // ---------------------------------------------------------------- cleaning

  predicate IsReal(segment: string) {
    segment != "" && segment != "." && segment != ".."
  }

  /** Path cleaning keeps a stack of segments: ".." cancels the real segment before it. */
  function CleanStep(stack: seq<string>, segment: string): seq<string> {
    if segment == "" || segment == "." then stack
    else if segment == ".." && stack != [] && stack[|stack| - 1] != ".." then stack[..|stack| - 1]
    else stack + [segment]
  }

  function CleanStack(segments: seq<string>): seq<string> {
    if segments == [] then []
    else CleanStep(CleanStack(segments[..|segments| - 1]), segments[|segments| - 1])
  }

  /** `path.Clean` on a path that does not start with a slash. */
  function Clean(p: string): string {
    var stack := CleanStack(Split(p, '/'));
    if stack == [] then "." else Join(stack, '/')
  }

  function NormalizeBuildContextPath(value: string): Result {
    var v := TrimSpace(value);
    if v == "" || v == "." then Ok(".")
    else if v[0] == '/' then Err(NotRelative)
    else
      var cleaned := Clean(v);
      if cleaned == ".." || "../" <= cleaned then Err(LeavesContext) else Ok(cleaned)
  }

  /** The same steps in the order the frontend settings take them. */
  function NormalizeDirectory(value: string): Result {
    var v := TrimSpace(value);
    var directory := if v == "" then "." else v;
    if directory[0] == '/' then Err(NotRelative)
    else
      var cleaned := Clean(directory);
      if cleaned == ".." || "../" <= cleaned then Err(LeavesContext) else Ok(cleaned)
  }

  // ---------------------------------------------------------------- what a path means

  /** The location reached from a directory, given as the list of its names from the root. */
  function Resolve(base: seq<string>, segments: seq<string>): seq<string> {
    if segments == [] then base
    else Enter(Resolve(base, segments[..|segments| - 1]), segments[|segments| - 1])
  }

  /** One step of the walk; the parent of the root is the root. */
  function Enter(here: seq<string>, s: string): seq<string> {
    if s == "" || s == "." then here
    else if s == ".." then (if here == [] then [] else here[..|here| - 1])
    else here + [s]
  }

  /** Walking the path never goes above the directory it starts from. */
  ghost predicate StaysBelow(segments: seq<string>) {
    forall base: seq<string>, k: nat :: k <= |segments| ==> base <= Resolve(base, segments[..k])
  }

  function Depth(segments: seq<string>): int {
    if segments == [] then 0
    else
      var s := segments[|segments| - 1];
      Depth(segments[..|segments| - 1]) + (if IsReal(s) then 1 else if s == ".." then -1 else 0)
  }

  /** No prefix has more ".." than real segments. */
  ghost predicate NeverNegative(segments: seq<string>) {
    forall k: nat :: k <= |segments| ==> Depth(segments[..k]) >= 0
  }

  /** Segments a cleaned path is made of: some ".." followed by real ones. */
  ghost predicate IsCleanStack(stack: seq<string>) {
    && (forall i :: 0 <= i < |stack| ==> stack[i] != "" && stack[i] != ".")
    && (forall i, j :: 0 <= i < j < |stack| && stack[j] == ".." ==> stack[i] == "..")
  }

  lemma CleanStepIsClean(stack: seq<string>, s: string)
    requires IsCleanStack(stack)
    ensures IsCleanStack(CleanStep(stack, s))
  {
  }

  lemma CleanStepFacts(stack: seq<string>, s: string)
    ensures Weight(CleanStep(stack, s)) <= Weight(stack) + |s| + 1
    ensures forall x :: x in CleanStep(stack, s) ==> x in stack || x == s
  {
    WeightAppend(stack, s);
    if stack != [] {
      var init, top := stack[..|stack| - 1], stack[|stack| - 1];
      assert stack == init + [top];
      WeightAppend(init, top);
    }
  }

  lemma {:induction false} CleanStackIsClean(segments: seq<string>)
    ensures IsCleanStack(CleanStack(segments))
    ensures Weight(CleanStack(segments)) <= Weight(segments)
    ensures forall s :: s in CleanStack(segments) ==> s in segments
    decreases segments
  {
    if segments == [] {
    } else {
      var init, last := segments[..|segments| - 1], segments[|segments| - 1];
      CleanStackIsClean(init);
      CleanStepIsClean(CleanStack(init), last);
      CleanStepFacts(CleanStack(init), last);
      assert segments == init + [last];
      WeightAppend(init, last);
    }
  }

  lemma {:induction false} CleanStackOfClean(stack: seq<string>)
    requires IsCleanStack(stack)
    ensures CleanStack(stack) == stack
    decreases stack
  {
    if stack == [] {
    } else {
      CleanStackOfClean(stack[..|stack| - 1]);
      assert stack == stack[..|stack| - 1] + [stack[|stack| - 1]];
    }
  }

  lemma ResolvePush(base: seq<string>, stack: seq<string>, s: string)
    ensures Resolve(base, stack + [s]) == Enter(Resolve(base, stack), s)
  {
    assert (stack + [s])[..|stack|] == stack;
  }

  /** Cancelling a real segment against ".." is going down and up again. */
  lemma ResolveCleanStep(base: seq<string>, stack: seq<string>, s: string)
    requires IsCleanStack(stack)
    ensures Resolve(base, CleanStep(stack, s)) == Enter(Resolve(base, stack), s)
  {
    ResolvePush(base, stack, s);
    if stack != [] {
      var init, top := stack[..|stack| - 1], stack[|stack| - 1];
      assert stack == init + [top];
      ResolvePush(base, init, top);
    }
  }

  lemma {:induction false} ResolveCleanStack(base: seq<string>, segments: seq<string>)
    ensures Resolve(base, CleanStack(segments)) == Resolve(base, segments)
    decreases segments
  {
    if segments == [] {
    } else {
      var init, last := segments[..|segments| - 1], segments[|segments| - 1];
      ResolveCleanStack(base, init);
      CleanStackIsClean(init);
      ResolveCleanStep(base, CleanStack(init), last);
    }
  }

  lemma CleanedSegments(p: string)
    ensures Split(Clean(p), '/') == if CleanStack(Split(p, '/')) == [] then ["."] else CleanStack(Split(p, '/'))
  {
    var segments := Split(p, '/');
    SplitIsFree(p, '/');
    CleanStackIsClean(segments);
    if CleanStack(segments) == [] {
      SplitOne(".", '/');
    } else {
      SplitJoin(CleanStack(segments), '/');
    }
  }

  /** The cleaned path leads to the same place as the original, from everywhere. */
  lemma CleanPreservesLocation(base: seq<string>, p: string)
    ensures Resolve(base, Split(Clean(p), '/')) == Resolve(base, Split(p, '/'))
  {
    CleanedSegments(p);
    ResolveCleanStack(base, Split(p, '/'));
    ResolvePush(base, [], ".");
    assert [] + ["."] == ["."];
  }

  // ---------------------------------------------------------------- acceptance

  /** While no prefix is negative the stack holds real segments, one per level of depth. */
  lemma {:induction false} InsideStack(base: seq<string>, segments: seq<string>)
    requires NeverNegative(segments)
    ensures |CleanStack(segments)| == Depth(segments)
    ensures ".." !in CleanStack(segments)
    ensures Resolve(base, segments) == base + CleanStack(segments)
    decreases segments
  {
    if segments == [] {
      assert base + [] == base;
    } else {
      var init, last := segments[..|segments| - 1], segments[|segments| - 1];
      NeverNegativePrefix(segments, |init|);
      InsideStack(base, init);
      assert segments[..|segments|] == segments;
      InsideStep(base, CleanStack(init), last);
    }
  }

  /** One step that does not leave a stack of real segments. */
  lemma InsideStep(base: seq<string>, stack: seq<string>, s: string)
    requires ".." !in stack && (s == ".." ==> stack != [])
    ensures ".." !in CleanStep(stack, s)
    ensures |CleanStep(stack, s)| == |stack| + (if IsReal(s) then 1 else if s == ".." then -1 else 0)
    ensures Enter(base + stack, s) == base + CleanStep(stack, s)
  {
    if s == ".." {
      assert stack[|stack| - 1] in stack;
      assert (base + stack)[..|base + stack| - 1] == base + stack[..|stack| - 1];
    } else {
      assert base + stack + [s] == base + (stack + [s]);
    }
  }

  lemma NeverNegativePrefix(segments: seq<string>, n: nat)
    requires NeverNegative(segments) && n <= |segments|
    ensures NeverNegative(segments[..n])
  {
    forall k: nat | k <= n ensures Depth(segments[..n][..k]) >= 0 {
      assert segments[..n][..k] == segments[..k];
    }
  }

  /** Once a prefix is negative the stack starts with ".." for good. */
  lemma {:induction false} OutsideStack(segments: seq<string>)
    requires !NeverNegative(segments)
    ensures CleanStack(segments) != [] && CleanStack(segments)[0] == ".."
    ensures exists k: nat :: k <= |segments| && !(["home"] <= Resolve(["home"], segments[..k]))
    decreases segments
  {
    var init := segments[..|segments| - 1];
    assert segments[..|segments|] == segments;
    if NeverNegative(init) {
      InsideStack(["home"], init);
      assert forall j: nat :: j <= |init| ==> segments[..j] == init[..j];
      var k: nat :| k <= |segments| && Depth(segments[..k]) < 0;
      assert k == |segments|;
      assert CleanStack(init) == [] && segments[|segments| - 1] == "..";
      assert Resolve(["home"], segments[..|segments|]) == [];
    } else {
      OutsideStack(init);
      CleanStackIsClean(init);
      var k: nat :| k <= |init| && !(["home"] <= Resolve(["home"], init[..k]));
      assert init[..k] == segments[..k];
    }
  }

  lemma SplitHeadIsUp(s: string)
    ensures Split(s, '/')[0] == ".." <==> s == ".." || "../" <= s
  {
    if s == ".." || "../" <= s {
      if s == ".." {
        SplitOne(s, '/');
      } else {
        assert s == ".." + ['/'] + s[3..];
        SplitCons("..", s[3..], '/');
      }
    }
    if Split(s, '/')[0] == ".." {
      JoinSplit(s, '/');
    }
  }

  lemma AcceptedIffInside(v: string)
    requires v != "" && v[0] != '/'
    ensures (Clean(v) == ".." || "../" <= Clean(v)) <==> !NeverNegative(Split(v, '/'))
  {
    CleanedSegments(v);
    SplitHeadIsUp(Clean(v));
    if NeverNegative(Split(v, '/')) {
      InsideStack([], Split(v, '/'));
    } else {
      OutsideStack(Split(v, '/'));
    }
  }

  lemma StaysBelowIffNeverNegative(segments: seq<string>)
    ensures StaysBelow(segments) <==> NeverNegative(segments)
  {
    if NeverNegative(segments) {
      forall base: seq<string>, k: nat | k <= |segments| ensures base <= Resolve(base, segments[..k]) {
        NeverNegativePrefix(segments, k);
        InsideStack(base, segments[..k]);
      }
    } else {
      OutsideStack(segments);
    }
  }

  lemma DotSegments(v: string)
    requires v == "" || v == "."
    ensures Split(v, '/') == [v] && NeverNegative([v]) && CleanStack([v]) == []
  {
    SplitOne(v, '/');
    assert [v][..0] == [] && [v][..1] == [v];
    assert forall k: nat :: k <= 1 ==> [v][..k] == [] || [v][..k] == [v];
  }

  /**
   A build context path is accepted exactly if it is relative and no prefix of its
   segments has more ".." than real segments, which is exactly when walking it from
   any directory never leaves that directory. What is stored leads to the same place.
   */
  lemma ContextPathAccepted(value: string)
    ensures var v, r := TrimSpace(value), NormalizeBuildContextPath(value);
            && (r.Ok? <==> !("/" <= v) && NeverNegative(Split(v, '/')))
            && (r.Ok? <==> !("/" <= v) && StaysBelow(Split(v, '/')))
            && (r == Err(NotRelative) <==> "/" <= v)
            && (r.Ok? ==> forall base ::
                  Resolve(base, Split(r.path, '/')) == Resolve(base, Split(v, '/')) &&
                  base <= Resolve(base, Split(r.path, '/')))
  {
    var v, r := TrimSpace(value), NormalizeBuildContextPath(value);
    StaysBelowIffNeverNegative(Split(v, '/'));
    if v == "" || v == "." {
      DotSegments(v);
      assert Clean(v) == ".";
    } else if v[0] != '/' {
      AcceptedIffInside(v);
    }
    if r.Ok? {
      assert r.path == Clean(v);
      forall base ensures Resolve(base, Split(r.path, '/')) == Resolve(base, Split(v, '/')) &&
                          base <= Resolve(base, Split(r.path, '/'))
      {
        CleanPreservesLocation(base, v);
        InsideStack(base, Split(v, '/'));
      }
    }
  }

  /** The frontend directory is normalised by the same rule. */
  lemma DirectoryIsContextPath(value: string)
    ensures NormalizeDirectory(value) == NormalizeBuildContextPath(value)
  {
    var v := TrimSpace(value);
    if v == "" || v == "." {
      DotSegments(".");
      assert Clean(".") == ".";
    }
  }

  // ---------------------------------------------------------------- what is stored

  /** An accepted path is stored as the real segments it leads through from its start, or as ".". */
  lemma StoredIsLocation(value: string)
    requires NormalizeBuildContextPath(value).Ok?
    ensures var path, place := NormalizeBuildContextPath(value).path, Resolve([], Split(TrimSpace(value), '/'));
            && (path == if place == [] then "." else Join(place, '/'))
            && (forall s :: s in place ==> IsReal(s) && '/' !in s)
  {
    var v := TrimSpace(value);
    var segments := Split(v, '/');
    ContextPathAccepted(value);
    InsideStack([], segments);
    CleanStackIsClean(segments);
    SplitIsFree(v, '/');
    assert [] + CleanStack(segments) == CleanStack(segments);
    if v == "" || v == "." {
      DotSegments(v);
    }
    forall s | s in CleanStack(segments) ensures IsReal(s) {
      var i :| 0 <= i < |CleanStack(segments)| && CleanStack(segments)[i] == s;
    }
  }

  /** Every segment of a stored path other than "." is real. */
  lemma StoredSegmentsAreReal(value: string)
    requires NormalizeBuildContextPath(value).Ok?
    ensures var path := NormalizeBuildContextPath(value).path;
            path != "." ==> forall s :: s in Split(path, '/') ==> IsReal(s)
  {
    StoredIsLocation(value);
    var place := Resolve([], Split(TrimSpace(value), '/'));
    if place != [] {
      SplitJoin(place, '/');
    }
  }

  /** Two accepted values are stored alike exactly if they lead to the same place. */
  lemma StoredAlikeExactly(a: string, b: string)
    requires NormalizeBuildContextPath(a).Ok? && NormalizeBuildContextPath(b).Ok?
    ensures NormalizeBuildContextPath(a).path == NormalizeBuildContextPath(b).path <==>
            Resolve([], Split(TrimSpace(a), '/')) == Resolve([], Split(TrimSpace(b), '/'))
  {
    StoredIsLocation(a);
    StoredIsLocation(b);
    PlaceFromPath(Resolve([], Split(TrimSpace(a), '/')));
    PlaceFromPath(Resolve([], Split(TrimSpace(b), '/')));
  }

  /** The place can be read off the path. */
  lemma PlaceFromPath(place: seq<string>)
    requires forall s :: s in place ==> IsReal(s) && '/' !in s
    ensures var path := if place == [] then "." else Join(place, '/');
            place == if Split(path, '/') == ["."] then [] else Split(path, '/')
  {
    if place == [] {
      SplitOne(".", '/');
    } else {
      SplitJoin(place, '/');
      assert place[0] in place;
    }
  }

  // ---------------------------------------------------------------- normalising again

  lemma CleanShrinks(v: string)
    requires v != ""
    ensures |Clean(v)| <= |v|
  {
    var segments := Split(v, '/');
    CleanStackIsClean(segments);
    JoinSplit(v, '/');
    JoinLength(segments, '/');
    if CleanStack(segments) != [] {
      JoinLength(CleanStack(segments), '/');
    }
  }

  lemma CleanTwice(v: string)
    ensures Clean(Clean(v)) == Clean(v)
  {
    CleanedSegments(v);
    CleanStackIsClean(Split(v, '/'));
    CleanStackOfClean(CleanStack(Split(v, '/')));
    DotSegments(".");
  }

  lemma {:induction false} JoinEnds(parts: seq<string>)
    requires parts != [] && parts[0] != "" && parts[|parts| - 1] != ""
    ensures var j, last := Join(parts, '/'), parts[|parts| - 1];
            j != "" && j[0] == parts[0][0] && j[|j| - 1] == last[|last| - 1]
    decreases parts
  {
    if |parts| == 2 {
      assert parts[1..] == [parts[1]];
    } else if |parts| > 2 {
      JoinTail(parts);
    }
  }

  lemma {:induction false} JoinTail(parts: seq<string>)
    requires parts != [] && parts[|parts| - 1] != ""
    ensures var j, last := Join(parts, '/'), parts[|parts| - 1];
            j != "" && j[|j| - 1] == last[|last| - 1]
    decreases parts
  {
    if |parts| > 1 {
      JoinTail(parts[1..]);
    }
  }

  lemma StackEnds(stack: seq<string>)
    requires stack != [] && IsCleanStack(stack) && Free(stack, '/')
    ensures var j, last := Join(stack, '/'), stack[|stack| - 1];
            && stack[0] != "" && last != "" && j != "" && j[0] != '/'
            && j[0] == stack[0][0] && j[|j| - 1] == last[|last| - 1]
  {
    JoinEnds(stack);
    assert stack[0] in stack;
  }

  lemma CleanedStack(v: string)
    ensures var stack := CleanStack(Split(v, '/'));
            IsCleanStack(stack) && Free(stack, '/') && (forall s :: s in stack ==> s in Split(v, '/'))
  {
    CleanStackIsClean(Split(v, '/'));
    SplitIsFree(v, '/');
  }

  lemma TrimmedPathIsStable(v: string)
    requires var c := Clean(v); c != ".." && !("../" <= c) && Trimmed(c)
    ensures NormalizeBuildContextPath(Clean(v)) == Ok(Clean(v))
  {
    CleanTwice(v);
    CleanedStack(v);
    if CleanStack(Split(v, '/')) != [] {
      StackEnds(CleanStack(Split(v, '/')));
    }
    TrimSpaceFacts(Clean(v));
  }

  lemma UntrimmedPathIsNotStable(p: string)
    requires !Trimmed(p)
    ensures NormalizeBuildContextPath(p) != Ok(p)
  {
    TrimSpaceFacts(p);
    var t := TrimSpace(p);
    if t == "" || t == "." {
      assert Trimmed(".");
    } else {
      CleanShrinks(t);
    }
  }

  /** Normalising a stored path again gives it back exactly if it has no white space at either end. */
  lemma NormalizingAgain(value: string)
    requires NormalizeBuildContextPath(value).Ok?
    ensures var p := NormalizeBuildContextPath(value).path;
            NormalizeBuildContextPath(p) == Ok(p) <==> Trimmed(p)
  {
    var v := TrimSpace(value);
    var p := NormalizeBuildContextPath(value).path;
    if !Trimmed(p) {
      UntrimmedPathIsNotStable(p);
    } else if v == "" || v == "." {
      TrimSpaceFacts(".");
    } else {
      TrimmedPathIsStable(v);
    }
  }

  /** White space does break it: "./ app" is stored as " app", which reads as "app". */
  lemma SpacedPathIsNotStable(name: string)
    requires name != "" && '/' !in name && IsSpace(name[0]) && !IsSpace(name[|name| - 1])
    ensures NormalizeBuildContextPath("./" + name) == Ok(name)
    ensures NormalizeBuildContextPath(name) != Ok(name)
  {
    TrimSpaceFacts("./" + name);
    CleanDotSlash(name);
    UntrimmedPathIsNotStable(name);
  }

  lemma CleanDotSlash(name: string)
    requires name != "" && '/' !in name && name[0] != '.'
    ensures Clean("./" + name) == name
  {
    assert "./" + name == "." + ['/'] + name;
    SplitCons(".", name, '/');
    SplitOne(name, '/');
    assert [".", name][..1] == ["."] && ["."][..0] == [];
    assert CleanStack(["."]) == [];
  }

  /**
   In terms of what was given: a stored path has no outer white space exactly if nothing is
   left of the segments, or the first that is left does not start with it nor the last end with it.
   */
  lemma StoredTrimmedExactly(value: string)
    requires NormalizeBuildContextPath(value).Ok?
    ensures Trimmed(NormalizeBuildContextPath(value).path) <==> EndsTrimmed(CleanStack(Split(TrimSpace(value), '/')))
  {
    var v := TrimSpace(value);
    if v == "" || v == "." {
      DotSegments(v);
    }
    assert NormalizeBuildContextPath(value).path == Clean(v);
    CleanTrimmedExactly(v);
  }

  lemma CleanTrimmedExactly(v: string)
    ensures Trimmed(Clean(v)) <==> EndsTrimmed(CleanStack(Split(v, '/')))
  {
    var stack := CleanStack(Split(v, '/'));
    CleanedStack(v);
    if stack == [] {
      assert Clean(v) == "." && Trimmed(".");
    } else {
      assert Clean(v) == Join(stack, '/');
      JoinTrimmedExactly(stack);
    }
  }

  lemma JoinTrimmedExactly(stack: seq<string>)
    requires stack != [] && IsCleanStack(stack) && Free(stack, '/')
    ensures Trimmed(Join(stack, '/')) <==> EndsTrimmed(stack)
  {
    StackEnds(stack);
  }

  predicate EndsTrimmed(stack: seq<string>) {
    stack == [] ||
    var first, last := stack[0], stack[|stack| - 1];
    first != "" && last != "" && !IsSpace(first[0]) && !IsSpace(last[|last| - 1])
  }

  /** So it does whenever no segment of the original carries white space at either end. */
  lemma TrimmedSegmentsStayStable(value: string)
    requires NormalizeBuildContextPath(value).Ok?
    requires forall s :: s in Split(TrimSpace(value), '/') ==> Trimmed(s)
    ensures Trimmed(NormalizeBuildContextPath(value).path)
  {
    var stack := CleanStack(Split(TrimSpace(value), '/'));
    StoredTrimmedExactly(value);
    CleanedStack(TrimSpace(value));
    if stack != [] {
      assert stack[0] in stack && stack[|stack| - 1] in stack;
    }
  }
}
