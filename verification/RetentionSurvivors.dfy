/** What becomes of a list of backups when some that the rule rejects are deleted, in any order and at any time. */
module RetentionSurvivors {
  import opened Common
  import opened Retention
  import opened RetentionLaws

  /** `s` is part of `a`, and decides like `a` about whatever comes after it. */
  ghost predicate Covers(q: Quotas, s: seq<Entry>, a: seq<Entry>) {
    Related(q, [], a, s)
  }

  ghost predicate Inside(s: seq<Entry>, a: seq<Entry>) {
    |s| <= |a| && forall tier :: Periods(s, tier) <= Periods(a, tier)
  }

  lemma CoversDecides(q: Quotas, s: seq<Entry>, a: seq<Entry>, x: Entry)
    requires Covers(q, s, a)
    ensures Keeps(q, s, x) <==> Keeps(q, a, x)
    ensures Covers(q, s + [x], a + [x])
  {
    RelatedStep(q, [], a, s, x);
  }

  /** What is rejected after some backups is rejected after more of them. */
  lemma RejectedAfterMore(q: Quotas, s: seq<Entry>, a: seq<Entry>, x: Entry)
    requires Inside(s, a) && !Keeps(q, s, x)
    ensures !Keeps(q, a, x)
  {
    forall tier ensures |Periods(s, tier)| <= |Periods(a, tier)| {
      SubsetCard(Periods(s, tier), Periods(a, tier));
    }
  }

  lemma {:induction false} DistinctInside(s: seq<Entry>, a: seq<Entry>)
    requires DistinctIds(s) && forall e :: e in s ==> e in a
    ensures Inside(s, a)
    decreases a
  {
    var entries, all := set e | e in s, set e | e in a;
    DistinctSize(s);
    SetSize(a);
    SubsetCard(entries, all);
  }

  lemma {:induction false} DistinctSize(s: seq<Entry>)
    requires DistinctIds(s)
    ensures |set e | e in s| == |s|
    decreases s
  {
    if s != [] {
      var before, last := s[..|s| - 1], s[|s| - 1];
      DistinctSize(before);
      assert (set e | e in s) == (set e | e in before) + {last};
      assert last !in before;
    }
  }

  lemma {:induction false} SetSize(s: seq<Entry>)
    ensures |set e | e in s| <= |s|
    decreases s
  {
    if s != [] {
      var before, last := s[..|s| - 1], s[|s| - 1];
      SetSize(before);
      assert (set e | e in s) == (set e | e in before) + {last};
    }
  }

  lemma KeptStep(q: Quotas, es: seq<Entry>, x: Entry)
    ensures Kept(q, es + [x]) == if Keeps(q, es, x) then Kept(q, es) + [x] else Kept(q, es)
  {
    SelectAppend(KeepRule(q), [], es, x);
    assert [] + es == es && Kept(q, es) + [] == Kept(q, es);
  }

  lemma UnmarkedStep(es: seq<Entry>, gone: set<Uuid>, n: nat)
    requires n < |es|
    ensures Unmarked(es[..n + 1], gone) ==
            if es[n].id in gone then Unmarked(es[..n], gone) else Unmarked(es[..n], gone) + [es[n]]
  {
    assert es[..n + 1][..n] == es[..n];
    assert Unmarked(es[..n], gone) + [] == Unmarked(es[..n], gone);
  }

  /** Every deleted backup is rejected by the rule when all backups are looked at. */
  ghost predicate OnlyRejected(q: Quotas, es: seq<Entry>, gone: set<Uuid>) {
    forall i: nat | i < |es| :: es[i].id in gone ==> !Retained(q, es, i)
  }

  lemma {:induction false} SurvivorsDecide(q: Quotas, es: seq<Entry>, gone: set<Uuid>, n: nat)
    requires OnlyRejected(q, es, gone) && n <= |es|
    ensures Covers(q, Unmarked(es[..n], gone), es[..n])
    ensures Kept(q, Unmarked(es[..n], gone)) == Kept(q, es[..n])
    decreases n
  {
    if n > 0 {
      var all, left, x := es[..n - 1], Unmarked(es[..n - 1], gone), es[n - 1];
      SurvivorsDecide(q, es, gone, n - 1);
      UnmarkedStep(es, gone, n - 1);
      assert es[..n] == all + [x];
      assert x.id in gone ==> !Retained(q, es, n - 1);
      DecideStep(q, all, left, x, x.id in gone);
    }
  }

  lemma DecideStep(q: Quotas, all: seq<Entry>, left: seq<Entry>, x: Entry, gone: bool)
    requires Covers(q, left, all) && Kept(q, left) == Kept(q, all) && (gone ==> !Keeps(q, all, x))
    ensures Covers(q, if gone then left else left + [x], all + [x])
    ensures Kept(q, if gone then left else left + [x]) == Kept(q, all + [x])
  {
    CoversDecides(q, left, all, x);
    KeptStep(q, all, x);
    KeptStep(q, left, x);
    if gone {
      RelatedStep(q, all, all, left, x);
    }
  }

  /** Deleting rejected backups, whichever, changes nothing about what a pass keeps. */
  lemma RejectedAreSuperfluous(q: Quotas, es: seq<Entry>, gone: set<Uuid>)
    requires OnlyRejected(q, es, gone)
    ensures Kept(q, Unmarked(es, gone)) == Kept(q, es)
  {
    assert es[..|es|] == es;
    SurvivorsDecide(q, es, gone, |es|);
  }

  // ---------------------------------------------------------------- deleting what was selected

  /** The identifiers a pass deletes. */
  function DroppedIds(q: Quotas, es: seq<Entry>): set<Uuid> {
    set e | e in Dropped(q, es) :: e.id
  }

  lemma DroppedExactly(q: Quotas, es: seq<Entry>, i: nat)
    requires DistinctIds(es) && i < |es|
    ensures es[i].id in DroppedIds(q, es) <==> !Retained(q, es, i)
  {
    KeptByIndex(q, es, es[i]);
    if es[i].id in DroppedIds(q, es) {
      var e :| e in Dropped(q, es) && e.id == es[i].id;
      KeptByIndex(q, es, e);
    }
  }

  lemma {:induction false} DeletingPrefix(q: Quotas, es: seq<Entry>, n: nat)
    requires DistinctIds(es) && n <= |es|
    ensures Unmarked(es[..n], DroppedIds(q, es)) == Kept(q, es[..n])
    decreases n
  {
    if n > 0 {
      DeletingPrefix(q, es, n - 1);
      UnmarkedStep(es, DroppedIds(q, es), n - 1);
      DroppedExactly(q, es, n - 1);
      KeptStep(q, es[..n - 1], es[n - 1]);
      assert es[..n] == es[..n - 1] + [es[n - 1]];
    }
  }

  /** Deleting what `SelectBackupsToPrune` returns leaves exactly the kept backups, in order. */
  lemma DeletingLeavesKept(q: Quotas, es: seq<Entry>)
    requires DistinctIds(es)
    ensures Unmarked(es, DroppedIds(q, es)) == Kept(q, es)
  {
    assert es[..|es|] == es;
    DeletingPrefix(q, es, |es|);
  }
}
