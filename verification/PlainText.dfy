/** The last stage of turning HTML into text: trimming and collapsing blank lines. */
module PlainText {
  import opened Text

  predicate HasTriple(s: string) {
    |s| >= 3 && (s[..3] == "\n\n\n" || HasTriple(s[1..]))
  }

  /** Replaces three newlines by two, left to right, without looking back. */
  function ReplaceAll(s: string): string {
    if |s| < 3 then s
    else if s[..3] == "\n\n\n" then "\n\n" + ReplaceAll(s[3..])
    else [s[0]] + ReplaceAll(s[1..])
  }

  /** One pass: a newline is kept unless two newlines were just kept. `run` counts those, up to two. */
  function Clamp(s: string, run: nat): string {
    if s == "" then ""
    else if s[0] != '\n' then [s[0]] + Clamp(s[1..], 0)
    else if run < 2 then ['\n'] + Clamp(s[1..], run + 1)
    else Clamp(s[1..], run)
  }

  method CollapseNewlines(text: string) returns (result: string)
    ensures result == Clamp(TrimSpace(text), 0)
    ensures !HasTriple(result) && Trimmed(result)
  {
    result := TrimSpace(text);
    while HasTriple(result)
      invariant Clamp(result, 0) == Clamp(TrimSpace(text), 0)
      decreases |result|
    {
      ReplaceShortens(result);
      ReplaceKeepsClamp(result, 0);
      result := ReplaceAll(result);
    }
    FewLeading(result);
    NothingToClamp(result, 0);
    TrimSpaceFacts(text);
    if TrimSpace(text) != "" {
      LastKept(TrimSpace(text), 0);
    }
  }

  lemma {:induction false} ReplaceShortens(s: string)
    ensures |ReplaceAll(s)| <= |s|
    ensures HasTriple(s) ==> |ReplaceAll(s)| < |s|
    decreases s
  {
    if |s| < 3 {
    } else if s[..3] == "\n\n\n" {
      ReplaceShortens(s[3..]);
    } else {
      ReplaceShortens(s[1..]);
    }
  }

  lemma ClampStep(c: char, t: string, run: nat)
    ensures Clamp([c] + t, run) ==
            if c != '\n' then [c] + Clamp(t, 0)
            else if run < 2 then ['\n'] + Clamp(t, run + 1)
            else Clamp(t, run)
  {
    assert ([c] + t)[1..] == t;
  }

  /** One replacement pass does not change what the one-pass function computes. */
  lemma {:induction false} ReplaceKeepsClamp(s: string, run: nat)
    requires run <= 2
    ensures Clamp(ReplaceAll(s), run) == Clamp(s, run)
    decreases s
  {
    if |s| < 3 {
    } else if s[..3] == "\n\n\n" {
      var t, r := s[3..], ReplaceAll(s[3..]);
      ReplaceKeepsClamp(t, 2);
      assert s == ['\n'] + (['\n'] + (['\n'] + t));
      assert "\n\n" + r == ['\n'] + (['\n'] + r);
      TwoNewlines(t, run);
      TwoNewlines(r, run);
      ClampStep('\n', ['\n'] + (['\n'] + t), run);
      TwoNewlines(['\n'] + t, run);
      ClampStep('\n', t, 2);
    } else {
      assert s == [s[0]] + s[1..];
      ClampStep(s[0], ReplaceAll(s[1..]), run);
      ReplaceKeepsClamp(s[1..], if s[0] != '\n' then 0 else if run < 2 then run + 1 else 2);
    }
  }

  lemma TwoNewlines(t: string, run: nat)
    requires run <= 2
    ensures Clamp(['\n'] + (['\n'] + t), run) == Newlines(2 - run) + Clamp(t, 2)
  {
    ClampStep('\n', ['\n'] + t, run);
    ClampStep('\n', t, if run < 2 then run + 1 else 2);
  }

  function Newlines(n: nat): string {
    seq(n, _ => '\n')
  }

  /** The number of newlines a text starts with. */
  function Leading(s: string): nat {
    if s != "" && s[0] == '\n' then 1 + Leading(s[1..]) else 0
  }

  lemma {:induction false} NothingToClamp(s: string, run: nat)
    requires !HasTriple(s) && run + Leading(s) <= 2
    ensures Clamp(s, run) == s
    decreases s
  {
    if s == "" {
    } else if s[0] == '\n' {
      TailHasNoTriple(s);
      NothingToClamp(s[1..], run + 1);
    } else {
      TailHasNoTriple(s);
      FewLeading(s[1..]);
      NothingToClamp(s[1..], 0);
    }
  }

  lemma TailHasNoTriple(s: string)
    requires s != "" && !HasTriple(s)
    ensures !HasTriple(s[1..])
  {
  }

  lemma {:induction false} LeadingAreNewlines(s: string, i: nat)
    requires i < Leading(s)
    ensures i < |s| && s[i] == '\n'
    decreases s
  {
    if i > 0 {
      LeadingAreNewlines(s[1..], i - 1);
    }
  }

  lemma FewLeading(t: string)
    requires !HasTriple(t)
    ensures Leading(t) <= 2
  {
    if Leading(t) >= 3 {
      LeadingAreNewlines(t, 0);
      LeadingAreNewlines(t, 1);
      LeadingAreNewlines(t, 2);
    }
  }

  /** Text that does not end in a newline keeps its last character. */
  lemma {:induction false} LastKept(s: string, run: nat)
    requires s != "" && s[|s| - 1] != '\n'
    ensures Clamp(s, run) != "" && Clamp(s, run)[|Clamp(s, run)| - 1] == s[|s| - 1]
    decreases s
  {
    if |s| == 1 {
      assert s == [s[0]] && s[1..] == "";
    } else {
      LastKept(s[1..], if s[0] != '\n' then 0 else if run < 2 then run + 1 else run);
    }
  }

  // ---------------------------------------------------------------- what clamping means

  /** A maximal run of `k` newlines becomes a run of min(k, 2). */
  lemma {:induction false} RunIsClamped(k: nat, tail: string, run: nat)
    requires run <= 2 && (tail == "" || tail[0] != '\n')
    ensures Clamp(Newlines(k) + tail, run) == Newlines(if run + k <= 2 then k else 2 - run) + Clamp(tail, 0)
    decreases k
  {
    if k == 0 {
      assert Newlines(0) + tail == tail;
    } else {
      assert Newlines(k) + tail == ['\n'] + (Newlines(k - 1) + tail);
      ClampStep('\n', Newlines(k - 1) + tail, run);
      RunIsClamped(k - 1, tail, if run < 2 then run + 1 else 2);
    }
  }

  /** The text without its newlines. */
  function Visible(s: string): string {
    if s == "" then "" else (if s[0] == '\n' then "" else [s[0]]) + Visible(s[1..])
  }

  /** Nothing but newlines is removed, and the rest stays in order. */
  lemma {:induction false} VisibleKept(s: string, run: nat)
    ensures Visible(Clamp(s, run)) == Visible(s)
    decreases s
  {
    if s != "" {
      if s[0] != '\n' {
        VisibleKept(s[1..], 0);
        assert ([s[0]] + Clamp(s[1..], 0))[1..] == Clamp(s[1..], 0);
      } else if run < 2 {
        VisibleKept(s[1..], run + 1);
        assert (['\n'] + Clamp(s[1..], run + 1))[1..] == Clamp(s[1..], run + 1);
      } else {
        VisibleKept(s[1..], run);
      }
    }
  }
}
