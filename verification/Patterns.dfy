/** Regular expressions, and the patterns the source writes as such. */
module Patterns {
  import opened Text
  import Buildpacks
  import Domains

  datatype Re =
    | Class(ranges: seq<(char, char)>)
    | Cat(first: Re, second: Re)
    | Repeat(of: Re, low: nat, high: nat)
    | Many(of: Re, low: nat)

  predicate InClass(c: char, ranges: seq<(char, char)>) {
    exists i :: 0 <= i < |ranges| && ranges[i].0 <= c <= ranges[i].1
  }

  function Concat(parts: seq<string>): string {
    if parts == [] then "" else parts[0] + Concat(parts[1..])
  }

  /** The whole string matches, as between the anchors of an expression. */
  ghost predicate Matches(re: Re, s: string)
    decreases re
  {
    match re
    case Class(ranges) => |s| == 1 && InClass(s[0], ranges)
    case Cat(first, second) => exists i :: 0 <= i <= |s| && Matches(first, s[..i]) && Matches(second, s[i..])
    case Repeat(of, low, high) =>
      exists parts: seq<string> ::
        low <= |parts| <= high && Concat(parts) == s && forall i :: 0 <= i < |parts| ==> Matches(of, parts[i])
    case Many(of, low) =>
      exists parts: seq<string> ::
        low <= |parts| && Concat(parts) == s && forall i :: 0 <= i < |parts| ==> Matches(of, parts[i])
  }

  // ---------------------------------------------------------------- the patterns, as they are written

  const ALNUM: seq<(char, char)> := [('A', 'Z'), ('a', 'z'), ('0', '9')]
  const DIGIT: seq<(char, char)> := [('0', '9')]
  const DOT := Class([('.', '.')])

  /** `^[A-Za-z0-9][A-Za-z0-9:_-]{0,63}$` */
  const SCRIPT := Cat(Class(ALNUM), Repeat(Class(ALNUM + [(':', ':'), ('_', '_'), ('-', '-')]), 0, 63))

  const NUMBER := Many(Class(DIGIT), 1)
  const SUFFIX := Cat(Class([('-', '-'), ('.', '.')]), Many(Class(ALNUM), 1))

  /** `^[0-9]+(\.[0-9]+){0,2}([-.][0-9A-Za-z]+)?$` */
  const VERSION := Cat(Cat(NUMBER, Repeat(Cat(DOT, NUMBER), 0, 2)), Repeat(SUFFIX, 0, 1))

  /** `(?i:[a-z0-9])`: two more letters fold to one of these. */
  const FOLDED := ALNUM + [('\U{17f}', '\U{17f}'), ('\U{212a}', '\U{212a}')]

  /** `(?i:[a-z0-9](?:[a-z0-9-]{0,61}[a-z0-9])?)` */
  const LABEL := Cat(Class(FOLDED),
                     Repeat(Cat(Repeat(Class(FOLDED + [('-', '-')]), 0, 61), Class(FOLDED)), 0, 1))

  /** A label, and one or more labels with a dot before each. */
  const HOSTNAME := Cat(LABEL, Many(Cat(DOT, LABEL), 1))

  // ---------------------------------------------------------------- repeated characters

  predicate AllIn(s: string, ranges: seq<(char, char)>) {
    forall i :: 0 <= i < |s| ==> InClass(s[i], ranges)
  }

  function Singles(s: string): seq<string> {
    seq(|s|, i requires 0 <= i < |s| => [s[i]])
  }

  lemma {:induction false} SinglesConcat(s: string)
    ensures Concat(Singles(s)) == s
    decreases s
  {
    if s != "" {
      SinglesConcat(s[1..]);
      assert Singles(s)[1..] == Singles(s[1..]);
      assert s == [s[0]] + s[1..];
    }
  }

  lemma {:induction false} ConcatOfClass(parts: seq<string>, ranges: seq<(char, char)>)
    requires forall i :: 0 <= i < |parts| ==> Matches(Class(ranges), parts[i])
    ensures |Concat(parts)| == |parts| && AllIn(Concat(parts), ranges)
    decreases parts
  {
    if parts != [] {
      assert forall i :: 0 <= i < |parts| - 1 ==> parts[1..][i] == parts[i + 1];
      ConcatOfClass(parts[1..], ranges);
    }
  }

  lemma RepeatClass(ranges: seq<(char, char)>, low: nat, high: nat, s: string)
    ensures Matches(Repeat(Class(ranges), low, high), s) <==> low <= |s| <= high && AllIn(s, ranges)
  {
    var re := Repeat(Class(ranges), low, high);
    if Matches(re, s) {
      var parts: seq<string> :| low <= |parts| <= high && Concat(parts) == s &&
                                forall i :: 0 <= i < |parts| ==> Matches(Class(ranges), parts[i]);
      ConcatOfClass(parts, ranges);
    }
    if low <= |s| <= high && AllIn(s, ranges) {
      SinglesConcat(s);
      assert |Singles(s)| == |s|;
    }
  }

  lemma ManyClass(ranges: seq<(char, char)>, low: nat, s: string)
    ensures Matches(Many(Class(ranges), low), s) <==> low <= |s| && AllIn(s, ranges)
  {
    var re := Many(Class(ranges), low);
    if Matches(re, s) {
      var parts: seq<string> :| low <= |parts| && Concat(parts) == s &&
                                forall i :: 0 <= i < |parts| ==> Matches(Class(ranges), parts[i]);
      ConcatOfClass(parts, ranges);
    }
    if low <= |s| && AllIn(s, ranges) {
      SinglesConcat(s);
      assert |Singles(s)| == |s|;
    }
  }

  /** At most once is nothing or once. */
  lemma RepeatOnce(of: Re, s: string)
    ensures Matches(Repeat(of, 0, 1), s) <==> s == "" || Matches(of, s)
  {
    var re := Repeat(of, 0, 1);
    if Matches(re, s) {
      var parts: seq<string> :| 0 <= |parts| <= 1 && Concat(parts) == s &&
                                forall i :: 0 <= i < |parts| ==> Matches(of, parts[i]);
      if |parts| == 1 {
        assert parts[1..] == [] && Concat(parts) == parts[0] + "" == parts[0];
      }
    }
    if s == "" {
      var none: seq<string> := [];
      assert Concat(none) == s && |none| == 0;
    }
    if Matches(of, s) {
      var one := [s];
      assert one[1..] == [] && Concat(one) == s + "" == s;
    }
  }

  lemma CatClass(ranges: seq<(char, char)>, second: Re, s: string)
    ensures Matches(Cat(Class(ranges), second), s) <==> s != "" && InClass(s[0], ranges) && Matches(second, s[1..])
  {
    if s != "" && InClass(s[0], ranges) && Matches(second, s[1..]) {
      assert s[..1] == [s[0]];
      assert Matches(Class(ranges), s[..1]);
    }
  }

  lemma CatLastClass(first: Re, ranges: seq<(char, char)>, s: string)
    ensures Matches(Cat(first, Class(ranges)), s) <==>
            s != "" && Matches(first, s[..|s| - 1]) && InClass(s[|s| - 1], ranges)
  {
    if s != "" && Matches(first, s[..|s| - 1]) && InClass(s[|s| - 1], ranges) {
      assert s[|s| - 1..] == [s[|s| - 1]];
      assert Matches(Class(ranges), s[|s| - 1..]);
    }
  }

  // ---------------------------------------------------------------- scripts

  lemma AlnumClass(c: char)
    ensures InClass(c, ALNUM) <==> IsAlnum(c)
    ensures InClass(c, DIGIT) <==> IsDigit(c)
    ensures InClass(c, ALNUM + [(':', ':'), ('_', '_'), ('-', '-')]) <==> IsAlnum(c) || c in ":_-"
    ensures InClass(c, [('-', '-'), ('.', '.')]) <==> c in "-."
    ensures InClass(c, [('.', '.')]) <==> c == '.'
    ensures InClass(c, FOLDED) <==> Domains.IsHostnameChar(c)
    ensures InClass(c, FOLDED + [('-', '-')]) <==> Domains.IsHostnameChar(c) || c == '-'
  {
    assert ALNUM[0] == ('A', 'Z') && ALNUM[1] == ('a', 'z') && ALNUM[2] == ('0', '9') && DIGIT[0] == ('0', '9');
    var extra := ALNUM + [(':', ':'), ('_', '_'), ('-', '-')];
    assert extra[0] == ALNUM[0] && extra[1] == ALNUM[1] && extra[2] == ALNUM[2];
    assert extra[3] == (':', ':') && extra[4] == ('_', '_') && extra[5] == ('-', '-');
    var two := [('-', '-'), ('.', '.')];
    assert two[0] == ('-', '-') && two[1] == ('.', '.') && [('.', '.')][0] == ('.', '.');
    assert FOLDED[0] == ALNUM[0] && FOLDED[1] == ALNUM[1] && FOLDED[2] == ALNUM[2];
    assert FOLDED[3] == ('\U{17f}', '\U{17f}') && FOLDED[4] == ('\U{212a}', '\U{212a}');
    var inner := FOLDED + [('-', '-')];
    assert forall i :: 0 <= i < 5 ==> inner[i] == FOLDED[i];
    assert inner[5] == ('-', '-');
  }

  /** Script names are those of the expression. */
  lemma ScriptIsPattern(s: string)
    ensures Buildpacks.ScriptPattern(s) <==> Matches(SCRIPT, s)
  {
    var more := ALNUM + [(':', ':'), ('_', '_'), ('-', '-')];
    CatClass(ALNUM, Repeat(Class(more), 0, 63), s);
    if s != "" {
      RepeatClass(more, 0, 63, s[1..]);
      forall i | 0 <= i < |s| ensures InClass(s[i], more) <==> IsAlnum(s[i]) || s[i] in ":_-" {
        AlnumClass(s[i]);
      }
      AlnumClass(s[0]);
      assert forall i :: 1 <= i < |s| ==> s[i] == s[1..][i - 1];
    }
  }

  // ---------------------------------------------------------------- parts with dots between them

  function Dotted(parts: seq<string>): seq<string> {
    seq(|parts|, i requires 0 <= i < |parts| => "." + parts[i])
  }

  lemma {:induction false} JoinDotted(first: string, rest: seq<string>)
    ensures Join([first] + rest, '.') == first + Concat(Dotted(rest))
    decreases rest
  {
    if rest == [] {
      assert [first] + rest == [first] && Dotted(rest) == [] && first + "" == first;
    } else {
      JoinDotted(rest[0], rest[1..]);
      assert ([first] + rest)[1..] == rest && [rest[0]] + rest[1..] == rest;
      assert Dotted(rest)[1..] == Dotted(rest[1..]) && Dotted(rest)[0] == "." + rest[0];
      assert first + ['.'] + Join(rest, '.') == first + (("." + rest[0]) + Concat(Dotted(rest[1..])));
    }
  }

  /** `of` matches no string with a dot. */
  ghost predicate IsDotless(of: Re) {
    forall t: string {:trigger Matches(of, t)} :: Matches(of, t) ==> '.' !in t
  }

  ghost predicate AllMatch(of: Re, parts: seq<string>) {
    forall i :: 0 <= i < |parts| ==> Matches(of, parts[i])
  }

  /** What is repeated with a dot before it. */
  lemma DottedParts(of: Re, parts: seq<string>) returns (rest: seq<string>)
    requires AllMatch(Cat(DOT, of), parts)
    ensures parts == Dotted(rest) && AllMatch(of, rest)
  {
    rest := seq(|parts|, i requires 0 <= i < |parts| => if parts[i] == "" then "" else parts[i][1..]);
    forall i | 0 <= i < |parts| ensures parts[i] == "." + rest[i] && Matches(of, rest[i]) {
      DotFirst(of, parts[i]);
    }
  }

  lemma DotFirst(of: Re, s: string)
    ensures Matches(Cat(DOT, of), s) <==> s != "" && s[0] == '.' && Matches(of, s[1..])
    ensures s != "" && s[0] == '.' ==> s == "." + s[1..]
  {
    CatClass([('.', '.')], of, s);
    if s != "" {
      AlnumClass(s[0]);
    }
  }

  lemma DottedMatch(of: Re, rest: seq<string>)
    requires AllMatch(of, rest)
    ensures AllMatch(Cat(DOT, of), Dotted(rest))
  {
    forall i | 0 <= i < |rest| ensures Matches(Cat(DOT, of), Dotted(rest)[i]) {
      DotFirst(of, "." + rest[i]);
      assert ("." + rest[i])[1..] == rest[i];
    }
  }

  /** Taken apart at the dots. */
  lemma SplitDotted(of: Re, first: string, rest: seq<string>)
    requires IsDotless(of) && Matches(of, first) && AllMatch(of, rest)
    ensures Split(first + Concat(Dotted(rest)), '.') == [first] + rest
  {
    JoinDotted(first, rest);
    forall p | p in [first] + rest ensures '.' !in p {
      if p != first {
        var i :| 0 <= i < |rest| && rest[i] == p;
      }
    }
    SplitJoin([first] + rest, '.');
  }

  lemma SplitForward(of: Re, s: string, i: nat, parts: seq<string>)
    requires IsDotless(of) && i <= |s| && Matches(of, s[..i]) && Concat(parts) == s[i..]
    requires AllMatch(Cat(DOT, of), parts)
    ensures |Split(s, '.')| == |parts| + 1 && AllMatch(of, Split(s, '.'))
  {
    var rest := DottedParts(of, parts);
    var first := s[..i];
    SplitDotted(of, first, rest);
    assert s == first + Concat(Dotted(rest));
    forall k | 0 <= k < |[first] + rest| ensures Matches(of, ([first] + rest)[k]) {
      assert ([first] + rest)[k] == if k == 0 then first else rest[k - 1];
    }
  }

  lemma SplitBackward(of: Re, s: string) returns (i: nat, parts: seq<string>)
    requires AllMatch(of, Split(s, '.'))
    ensures i <= |s| && Matches(of, s[..i]) && Concat(parts) == s[i..]
    ensures AllMatch(Cat(DOT, of), parts) && |parts| + 1 == |Split(s, '.')|
  {
    var all := Split(s, '.');
    JoinSplit(s, '.');
    JoinDotted(all[0], all[1..]);
    assert [all[0]] + all[1..] == all;
    parts := Dotted(all[1..]);
    DottedMatch(of, all[1..]);
    i := |all[0]|;
    assert s == all[0] + Concat(parts);
  }

  lemma DottedMany(of: Re, low: nat, s: string)
    requires IsDotless(of)
    ensures Matches(Cat(of, Many(Cat(DOT, of), low)), s) <==> |Split(s, '.')| >= low + 1 && AllMatch(of, Split(s, '.'))
  {
    var more := Many(Cat(DOT, of), low);
    if Matches(Cat(of, more), s) {
      var i :| 0 <= i <= |s| && Matches(of, s[..i]) && Matches(more, s[i..]);
      var parts: seq<string> :| low <= |parts| && Concat(parts) == s[i..] && AllMatch(Cat(DOT, of), parts);
      SplitForward(of, s, i, parts);
    }
    if |Split(s, '.')| >= low + 1 && AllMatch(of, Split(s, '.')) {
      var i, parts := SplitBackward(of, s);
      assert Matches(more, s[i..]);
    }
  }

  lemma DottedRepeat(of: Re, high: nat, s: string)
    requires IsDotless(of)
    ensures Matches(Cat(of, Repeat(Cat(DOT, of), 0, high)), s) <==>
            |Split(s, '.')| <= high + 1 && AllMatch(of, Split(s, '.'))
  {
    var more := Repeat(Cat(DOT, of), 0, high);
    if Matches(Cat(of, more), s) {
      var i :| 0 <= i <= |s| && Matches(of, s[..i]) && Matches(more, s[i..]);
      var parts: seq<string> :| 0 <= |parts| <= high && Concat(parts) == s[i..] && AllMatch(Cat(DOT, of), parts);
      SplitForward(of, s, i, parts);
    }
    if |Split(s, '.')| <= high + 1 && AllMatch(of, Split(s, '.')) {
      var i, parts := SplitBackward(of, s);
      assert Matches(more, s[i..]);
    }
  }

  // ---------------------------------------------------------------- versions

  lemma NumberIs(s: string)
    ensures Matches(NUMBER, s) <==> Buildpacks.AllOf(s, IsDigit)
  {
    ManyClass(DIGIT, 1, s);
    forall i | 0 <= i < |s| ensures InClass(s[i], DIGIT) <==> IsDigit(s[i]) {
      AlnumClass(s[i]);
    }
  }

  lemma NumberIsDotless()
    ensures IsDotless(NUMBER)
  {
    forall t: string {:trigger Matches(NUMBER, t)} | Matches(NUMBER, t) ensures '.' !in t {
      NumberIs(t);
    }
  }

  lemma SuffixIs(s: string)
    ensures Matches(Repeat(SUFFIX, 0, 1), s) <==> Buildpacks.VersionSuffix(s)
  {
    RepeatOnce(SUFFIX, s);
    CatClass([('-', '-'), ('.', '.')], Many(Class(ALNUM), 1), s);
    if s != "" {
      AlnumClass(s[0]);
      ManyClass(ALNUM, 1, s[1..]);
      forall i | 0 <= i < |s[1..]| ensures InClass(s[1..][i], ALNUM) <==> IsAlnum(s[1..][i]) {
        AlnumClass(s[1..][i]);
      }
    }
  }

  lemma NumericIs(s: string)
    ensures Matches(Cat(NUMBER, Repeat(Cat(DOT, NUMBER), 0, 2)), s) <==> Buildpacks.NumericVersion(s)
  {
    NumberIsDotless();
    DottedRepeat(NUMBER, 2, s);
    forall i | 0 <= i < |Split(s, '.')|
      ensures Matches(NUMBER, Split(s, '.')[i]) <==> Buildpacks.AllOf(Split(s, '.')[i], IsDigit)
    {
      NumberIs(Split(s, '.')[i]);
    }
  }

  /** Versions are those of the expression. */
  lemma VersionIsPattern(s: string)
    ensures Buildpacks.VersionPattern(s) <==> Matches(VERSION, s)
  {
    forall i | 0 <= i <= |s|
      ensures Matches(Cat(NUMBER, Repeat(Cat(DOT, NUMBER), 0, 2)), s[..i]) <==> Buildpacks.NumericVersion(s[..i])
      ensures Matches(Repeat(SUFFIX, 0, 1), s[i..]) <==> Buildpacks.VersionSuffix(s[i..])
    {
      NumericIs(s[..i]);
      SuffixIs(s[i..]);
    }
  }

  // ---------------------------------------------------------------- hostnames

  const INNER := FOLDED + [('-', '-')]
  const TAIL := Cat(Repeat(Class(INNER), 0, 61), Class(FOLDED))

  predicate IsInner(s: string) {
    forall i :: 0 <= i < |s| ==> Domains.IsHostnameChar(s[i]) || s[i] == '-'
  }

  lemma InnerIs(s: string)
    ensures AllIn(s, INNER) <==> IsInner(s)
  {
    forall i | 0 <= i < |s| ensures InClass(s[i], INNER) <==> Domains.IsHostnameChar(s[i]) || s[i] == '-' {
      AlnumClass(s[i]);
    }
  }

  lemma TailIs(t: string)
    ensures Matches(Repeat(TAIL, 0, 1), t) <==>
            t == "" || (|t| <= 62 && IsInner(t[..|t| - 1]) && Domains.IsHostnameChar(t[|t| - 1]))
  {
    RepeatOnce(TAIL, t);
    CatLastClass(Repeat(Class(INNER), 0, 61), FOLDED, t);
    if t != "" {
      RepeatClass(INNER, 0, 61, t[..|t| - 1]);
      InnerIs(t[..|t| - 1]);
      AlnumClass(t[|t| - 1]);
    }
  }

  lemma LabelIs(s: string)
    ensures Matches(LABEL, s) <==> Domains.IsLabel(s)
  {
    CatClass(FOLDED, Repeat(TAIL, 0, 1), s);
    if s != "" {
      AlnumClass(s[0]);
      TailIs(s[1..]);
      LabelTail(s);
    }
  }

  lemma LabelTail(s: string)
    requires s != ""
    ensures var t := s[1..];
            Domains.IsLabel(s) <==>
            && Domains.IsHostnameChar(s[0])
            && (t == "" || (|t| <= 62 && IsInner(t[..|t| - 1]) && Domains.IsHostnameChar(t[|t| - 1])))
  {
    var t := s[1..];
    if t != "" {
      var middle := t[..|t| - 1];
      assert s == [s[0]] + middle + [t[|t| - 1]];
      assert IsInner(s) <==> IsInner([s[0]]) && IsInner(middle) && IsInner([t[|t| - 1]]) by {
        InnerConcat([s[0]] + middle, [t[|t| - 1]]);
        InnerConcat([s[0]], middle);
      }
      assert s[|s| - 1] == t[|t| - 1];
      assert [s[0]][0] == s[0] && [t[|t| - 1]][0] == t[|t| - 1];
    }
  }

  lemma InnerConcat(a: string, b: string)
    ensures IsInner(a + b) <==> IsInner(a) && IsInner(b)
  {
    assert forall i :: 0 <= i < |a| ==> (a + b)[i] == a[i];
    assert forall i :: 0 <= i < |b| ==> (a + b)[|a| + i] == b[i];
  }

  lemma LabelIsDotless()
    ensures IsDotless(LABEL)
  {
    forall t: string {:trigger Matches(LABEL, t)} | Matches(LABEL, t) ensures '.' !in t {
      LabelIs(t);
    }
  }

  /** Hostnames are those of the expression. */
  lemma HostnameIsPattern(s: string)
    ensures Domains.HostnamePattern(s) <==> Matches(HOSTNAME, s)
  {
    LabelIsDotless();
    DottedMany(LABEL, 1, s);
    forall i | 0 <= i < |Split(s, '.')|
      ensures Matches(LABEL, Split(s, '.')[i]) <==> Domains.IsLabel(Split(s, '.')[i])
    {
      LabelIs(Split(s, '.')[i]);
    }
  }

  /** A hostname is valid exactly if, normalised, the expression matches it and it has at most 253 bytes in UTF-8. */
  lemma HostnameValidExactly(value: string)
    ensures Domains.IsValidHostname(value) <==>
            var h := Domains.NormalizeHostname(value); |Encoded(h)| <= 253 && Matches(HOSTNAME, h)
  {
    HostnameIsPattern(Domains.NormalizeHostname(value));
    ByteLengthIs(Domains.NormalizeHostname(value));
  }
}
