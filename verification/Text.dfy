/** The string operations the source takes from its standard library. */
module Text {

  /** Unicode white space, as the trimming function understands it. */
  predicate IsSpace(c: char) {
    || '\t' <= c <= '\r'
    || c == ' ' || c == '\U{85}' || c == '\U{a0}' || c == '\U{1680}'
    || '\U{2000}' <= c <= '\U{200a}'
    || c == '\U{2028}' || c == '\U{2029}' || c == '\U{202f}' || c == '\U{205f}' || c == '\U{3000}'
  }

  function TrimLeft(s: string): string {
    if s != "" && IsSpace(s[0]) then TrimLeft(s[1..]) else s
  }

  function TrimRight(s: string): string {
    if s != "" && IsSpace(s[|s| - 1]) then TrimRight(s[..|s| - 1]) else s
  }

  function TrimSpace(s: string): string {
    TrimRight(TrimLeft(s))
  }

  predicate Trimmed(s: string) {
    s == "" || (!IsSpace(s[0]) && !IsSpace(s[|s| - 1]))
  }

  lemma {:induction false} TrimRightFacts(s: string)
    ensures TrimRight(s) <= s
    ensures TrimRight(s) != "" ==> !IsSpace(TrimRight(s)[|TrimRight(s)| - 1])
    decreases s
  {
    if s != "" && IsSpace(s[|s| - 1]) {
      TrimRightFacts(s[..|s| - 1]);
    }
  }

  lemma {:induction false} TrimLeftFacts(s: string)
    ensures |TrimLeft(s)| <= |s|
    ensures TrimLeft(s) != "" ==> !IsSpace(TrimLeft(s)[0])
    ensures TrimLeft(s) == s[|s| - |TrimLeft(s)|..]
    decreases s
  {
    if s != "" && IsSpace(s[0]) {
      TrimLeftFacts(s[1..]);
    }
  }

  /** Trimming yields a trimmed string, and leaves exactly those alone. */
  lemma TrimSpaceFacts(s: string)
    ensures Trimmed(TrimSpace(s))
    ensures |TrimSpace(s)| < |s| || TrimSpace(s) == s
    ensures TrimSpace(s) == s <==> Trimmed(s)
  {
    TrimLeftFacts(s);
    TrimRightFacts(TrimLeft(s));
  }

  function Split(s: string, sep: char): (parts: seq<string>)
    ensures parts != []
  {
    if s == "" then [""]
    else if s[0] == sep then [""] + Split(s[1..], sep)
    else
      var rest := Split(s[1..], sep);
      [[s[0]] + rest[0]] + rest[1..]
  }

  function Join(parts: seq<string>, sep: char): string {
    if parts == [] then ""
    else if |parts| == 1 then parts[0]
    else parts[0] + [sep] + Join(parts[1..], sep)
  }

  ghost predicate Free(parts: seq<string>, sep: char) {
    forall p :: p in parts ==> sep !in p
  }

  lemma {:induction false} SplitIsFree(s: string, sep: char)
    ensures Free(Split(s, sep), sep)
    decreases s
  {
    if s == "" {
    } else {
      SplitIsFree(s[1..], sep);
      var rest := Split(s[1..], sep);
      assert rest[0] in rest;
    }
  }

  /** Splitting at the first separator. */
  lemma {:induction false} SplitCons(p: string, tail: string, sep: char)
    requires sep !in p
    ensures Split(p + [sep] + tail, sep) == [p] + Split(tail, sep)
    decreases p
  {
    var s := p + [sep] + tail;
    if p == "" {
      assert s[1..] == tail;
    } else {
      SplitCons(p[1..], tail, sep);
      assert s[1..] == p[1..] + [sep] + tail;
      assert p == [p[0]] + p[1..];
    }
  }

  lemma {:induction false} SplitOne(p: string, sep: char)
    requires sep !in p
    ensures Split(p, sep) == [p]
    decreases p
  {
    if p != "" {
      SplitOne(p[1..], sep);
      assert p == [p[0]] + p[1..];
    }
  }

  lemma {:induction false} SplitJoin(parts: seq<string>, sep: char)
    requires parts != [] && Free(parts, sep)
    ensures Split(Join(parts, sep), sep) == parts
    decreases parts
  {
    if |parts| == 1 {
      SplitOne(parts[0], sep);
    } else {
      SplitJoin(parts[1..], sep);
      SplitCons(parts[0], Join(parts[1..], sep), sep);
    }
  }

  lemma {:induction false} JoinSplit(s: string, sep: char)
    ensures Join(Split(s, sep), sep) == s
    decreases s
  {
    if s == "" {
    } else {
      JoinSplit(s[1..], sep);
      var rest := Split(s[1..], sep);
      if s[0] == sep {
        assert ([""] + rest)[1..] == rest;
      } else {
        var parts := [[s[0]] + rest[0]] + rest[1..];
        assert parts[1..] == rest[1..];
        assert s == [s[0]] + s[1..];
      }
    }
  }

  /** One more than the length of the joined string, for any separator. */
  function Weight(parts: seq<string>): nat {
    if parts == [] then 0 else |parts[0]| + 1 + Weight(parts[1..])
  }

  lemma {:induction false} JoinLength(parts: seq<string>, sep: char)
    requires parts != []
    ensures |Join(parts, sep)| + 1 == Weight(parts)
    decreases parts
  {
    if |parts| > 1 {
      JoinLength(parts[1..], sep);
    }
  }

  lemma {:induction false} WeightAppend(parts: seq<string>, p: string)
    ensures Weight(parts + [p]) == Weight(parts) + |p| + 1
    decreases parts
  {
    if parts == [] {
      assert parts + [p] == [p];
    } else {
      WeightAppend(parts[1..], p);
      assert (parts + [p])[1..] == parts[1..] + [p];
    }
  }

  // ---------------------------------------------------------------- characters

  predicate IsDigit(c: char) { '0' <= c <= '9' }

  predicate IsAlnum(c: char) { IsDigit(c) || 'a' <= c <= 'z' || 'A' <= c <= 'Z' }

  /** Lower case; the two non-ASCII letters are those whose lower case is an ASCII letter. */
  function ToLowerChar(c: char): char {
    if 'A' <= c <= 'Z' then c - 'A' + 'a'
    else if c == '\U{130}' then 'i'
    else if c == '\U{212a}' then 'k'
    else c
  }

  function ToLower(s: string): string {
    seq(|s|, i requires 0 <= i < |s| => ToLowerChar(s[i]))
  }

  /** Length in UTF-8 bytes. */
  function ByteLength(s: string): nat {
    if s == "" then 0
    else ByteLength(s[..|s| - 1]) +
         var c := s[|s| - 1] as int;
         if c < 0x80 then 1 else if c < 0x800 then 2 else if c < 0x10000 then 3 else 4
  }

  lemma LowerFacts(s: string)
    ensures ToLower(ToLower(s)) == ToLower(s)
    ensures Trimmed(ToLower(s)) <==> Trimmed(s)
    ensures |ToLower(s)| == |s| && forall k :: 0 <= k < |s| ==> !('A' <= ToLower(s)[k] <= 'Z')
    ensures forall k :: 0 <= k < |s| && !('A' <= s[k] <= 'Z') && s[k] < '\U{80}' ==> ToLower(s)[k] == s[k]
    ensures forall k :: 0 <= k < |s| && 'A' <= s[k] <= 'Z' ==> ToLower(s)[k] as int == s[k] as int + 32
  {
  }

  lemma {:induction false} ByteLengthAtMost(s: string)
    ensures ByteLength(s) <= 4 * |s|
    decreases s
  {
    if s != "" {
      ByteLengthAtMost(s[..|s| - 1]);
    }
  }

  // ---------------------------------------------------------------- what trimming takes away

  predicate IsBlank(s: string) {
    forall k :: 0 <= k < |s| ==> IsSpace(s[k])
  }

  lemma BlankConcat(a: string, b: string)
    ensures IsBlank(a + b) <==> IsBlank(a) && IsBlank(b)
  {
    assert forall k :: 0 <= k < |a| ==> (a + b)[k] == a[k];
    assert forall k :: 0 <= k < |b| ==> (a + b)[|a| + k] == b[k];
  }

  lemma {:induction false} TrimLeftTakes(s: string) returns (before: string)
    ensures s == before + TrimLeft(s) && IsBlank(before)
    decreases s
  {
    if s != "" && IsSpace(s[0]) {
      var more := TrimLeftTakes(s[1..]);
      before := [s[0]] + more;
      BlankConcat([s[0]], more);
      assert s == [s[0]] + s[1..];
    } else {
      before := "";
    }
  }

  lemma {:induction false} TrimRightTakes(s: string) returns (after: string)
    ensures s == TrimRight(s) + after && IsBlank(after)
    decreases s
  {
    if s != "" && IsSpace(s[|s| - 1]) {
      var more := TrimRightTakes(s[..|s| - 1]);
      after := more + [s[|s| - 1]];
      BlankConcat(more, [s[|s| - 1]]);
      assert s == s[..|s| - 1] + [s[|s| - 1]];
    } else {
      after := "";
    }
  }

  /** Trimming takes white space away at the ends, all of it and nothing else. */
  lemma TrimSpaceTakes(s: string) returns (before: string, after: string)
    ensures s == before + TrimSpace(s) + after && IsBlank(before) && IsBlank(after)
    ensures Trimmed(TrimSpace(s))
  {
    TrimSpaceFacts(s);
    before := TrimLeftTakes(s);
    after := TrimRightTakes(TrimLeft(s));
    assert before + (TrimSpace(s) + after) == before + TrimSpace(s) + after;
  }

  lemma BlankExactly(s: string)
    ensures TrimSpace(s) == "" <==> IsBlank(s)
  {
    var before, after := TrimSpaceTakes(s);
    BlankConcat(before + TrimSpace(s), after);
    BlankConcat(before, TrimSpace(s));
  }

  // ---------------------------------------------------------------- bytes

  /** The UTF-8 encoding of a character. */
  function Utf8(c: char): seq<int> {
    var n := c as int;
    if n < 0x80 then [n]
    else if n < 0x800 then [0xC0 + n / 0x40, 0x80 + n % 0x40]
    else if n < 0x10000 then [0xE0 + n / 0x1000, 0x80 + n / 0x40 % 0x40, 0x80 + n % 0x40]
    else [0xF0 + n / 0x40000, 0x80 + n / 0x1000 % 0x40, 0x80 + n / 0x40 % 0x40, 0x80 + n % 0x40]
  }

  /** What the leading byte says, and six bits from every byte after it. */
  function CodePoint(bytes: seq<int>): int
    requires 1 <= |bytes| <= 4
  {
    if |bytes| == 1 then bytes[0]
    else if |bytes| == 2 then (bytes[0] - 0xC0) * 0x40 + (bytes[1] - 0x80)
    else if |bytes| == 3 then (bytes[0] - 0xE0) * 0x1000 + (bytes[1] - 0x80) * 0x40 + (bytes[2] - 0x80)
    else (bytes[0] - 0xF0) * 0x40000 + (bytes[1] - 0x80) * 0x1000 + (bytes[2] - 0x80) * 0x40 + (bytes[3] - 0x80)
  }

  /** An encoding leads with a byte that tells its length, and is read back. */
  lemma Utf8Reads(c: char)
    ensures 1 <= |Utf8(c)| <= 4 && CodePoint(Utf8(c)) == c as int
    ensures forall k :: 1 <= k < |Utf8(c)| ==> 0x80 <= Utf8(c)[k] < 0xC0
    ensures match |Utf8(c)|
            case 1 => 0 <= Utf8(c)[0] < 0x80
            case 2 => 0xC2 <= Utf8(c)[0] < 0xE0
            case 3 => 0xE0 <= Utf8(c)[0] < 0xF0
            case _ => 0xF0 <= Utf8(c)[0] < 0xF8
  {
    Sixes(c as int);
  }

  lemma Sixes(n: int)
    requires 0 <= n
    ensures n == n / 0x40 * 0x40 + n % 0x40 && n == n / 0x1000 * 0x1000 + n / 0x40 % 0x40 * 0x40 + n % 0x40
    ensures n / 0x1000 == n / 0x40000 * 0x40 + n / 0x1000 % 0x40
    ensures 0 <= n % 0x40 < 0x40 && 0 <= n / 0x40 % 0x40 < 0x40 && 0 <= n / 0x1000 % 0x40 < 0x40
  {
  }

  function Encoded(s: string): seq<int> {
    if s == "" then [] else Encoded(s[..|s| - 1]) + Utf8(s[|s| - 1])
  }

  lemma {:induction false} ByteLengthIs(s: string)
    ensures ByteLength(s) == |Encoded(s)|
    decreases s
  {
    if s != "" {
      ByteLengthIs(s[..|s| - 1]);
    }
  }
}
