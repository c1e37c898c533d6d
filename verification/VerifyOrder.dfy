/** The two sorts of the request file compare texts. What that means for the order of time. */
module VerifyOrder {
  import opened Wrappers
  import opened Clock
  import opened Iso
  import opened Text
  import opened Sorting
  import opened RequestState
  import opened VerifyScheduler
  import opened VerifyWorker

  /** Order of tuples of texts of one length. */
  predicate TupleLe(a: seq<string>, b: seq<string>)
    requires |a| == |b|
  {
    a == [] || (if a[0] == b[0] then TupleLe(a[1..], b[1..]) else LexLe(a[0], b[0]))
  }

  predicate Printable(r: Record) {
    Representable(r.core.createdAt) && (r.nextCheckAt.Some? ==> Representable(r.nextCheckAt.value))
  }

  /** The key by which due records are sorted. */
  function DueKey(r: Record): (key: seq<string>)
    requires Printable(r)
    ensures |key| == 3
  {
    [if r.nextCheckAt.Some? then Render(r.nextCheckAt.value) else "", Render(r.core.createdAt), r.core.requestRef]
  }

  lemma StampsCompare(a: Instant, b: Instant)
    requires Representable(a) && Representable(b)
    ensures Render(a) == Render(b) <==> a == b
    ensures LexLe(Render(a), Render(b)) <==> TextRank(a) <= TextRank(b)
    ensures TextRank(a) == TextRank(b) <==> a == b
    ensures Render(a) != ""
  {
    RenderOrder(a, b);
    if Render(a) == Render(b) {
      RenderInjective(a, b);
    }
    if TextRank(a) == TextRank(b) {
      TextRankInjective(a, b);
    }
  }

  lemma TieIsTupleOrder(a: Record, b: Record)
    requires Printable(a) && Printable(b)
    ensures TieBefore(a, b) <==>
              TupleLe([Render(a.core.createdAt), a.core.requestRef], [Render(b.core.createdAt), b.core.requestRef])
  {
    hide Render, LexLe, TextRank;
    StampsCompare(a.core.createdAt, b.core.createdAt);
    LexLeTotal(a.core.requestRef, b.core.requestRef);
    var s, t := [Render(a.core.createdAt), a.core.requestRef], [Render(b.core.createdAt), b.core.requestRef];
    assert s[1..] == [a.core.requestRef] && t[1..] == [b.core.requestRef];
    assert [a.core.requestRef][1..] == [] && [b.core.requestRef][1..] == [];
    assert TupleLe([a.core.requestRef], [b.core.requestRef]) <==> LexLe(a.core.requestRef, b.core.requestRef);
  }

  lemma EmptyComesFirst(s: string)
    ensures LexLe("", s) && (s != "" ==> !LexLe(s, ""))
  {
  }

  /** The selection order is the order of the key's texts. */
  lemma DueBeforeIsTupleOrder(a: Record, b: Record)
    requires Printable(a) && Printable(b)
    ensures DueBefore(a, b) <==> TupleLe(DueKey(a), DueKey(b))
  {
    hide Render, LexLe, TextRank, TieBefore;
    TieIsTupleOrder(a, b);
    assert DueKey(a)[1..] == [Render(a.core.createdAt), a.core.requestRef];
    assert DueKey(b)[1..] == [Render(b.core.createdAt), b.core.requestRef];
    EmptyComesFirst(DueKey(a)[0]);
    EmptyComesFirst(DueKey(b)[0]);
    if a.nextCheckAt.Some? {
      StampsCompare(a.nextCheckAt.value, a.nextCheckAt.value);
    }
    if b.nextCheckAt.Some? {
      StampsCompare(b.nextCheckAt.value, b.nextCheckAt.value);
    }
    if a.nextCheckAt.Some? && b.nextCheckAt.Some? {
      StampsCompare(a.nextCheckAt.value, b.nextCheckAt.value);
    }
  }

  /** The file order is the descending order of the creation texts. */
  lemma NewerFirstIsTextOrder(a: Record, b: Record)
    requires Printable(a) && Printable(b)
    ensures NewerFirst(a, b) <==> LexLe(Render(b.core.createdAt), Render(a.core.createdAt))
  {
    RenderOrder(b.core.createdAt, a.core.createdAt);
    hide Render, LexLe, TextRank;
  }

  ghost predicate InTimeOrder(due: seq<Record>)
    requires forall r :: r in due ==> r.nextCheckAt.Some?
  {
    forall i, j :: 0 <= i < j < |due| ==> due[i].nextCheckAt.value <= due[j].nextCheckAt.value
  }

  /** Two due records of which one is due at a whole second and the other later in that second. */
  ghost predicate HasInversion(due: seq<Record>)
    requires forall r :: r in due ==> r.nextCheckAt.Some?
  {
    exists r, s :: r in due && s in due && Inverted(r.nextCheckAt.value, s.nextCheckAt.value)
  }

  lemma DueHaveChecks(records: seq<Record>, scope: Scope, now: Instant)
    ensures forall r :: r in DueRecords(records, scope, now) ==> r.nextCheckAt.Some?
  {
    DueMembers(records, scope, now);
  }

  /** The due list is in time order exactly when no two due records fall into one second in that way. */
  lemma DueInTimeOrderExactly(records: seq<Record>, scope: Scope, now: Instant)
    ensures forall r :: r in DueRecords(records, scope, now) ==> r.nextCheckAt.Some?
    ensures InTimeOrder(DueRecords(records, scope, now)) <==> !HasInversion(DueRecords(records, scope, now))
  {
    DueHaveChecks(records, scope, now);
    DueBeforeIsPreorder();
    SortBySorted(DueBefore, Filter(DueIn(scope, now), records));
    SortedInTimeOrderExactly(DueRecords(records, scope, now));
  }

  lemma SortedInTimeOrderExactly(due: seq<Record>)
    requires forall r :: r in due ==> r.nextCheckAt.Some?
    requires Sorted(DueBefore, due)
    ensures InTimeOrder(due) <==> !HasInversion(due)
  {
    if HasInversion(due) {
      var r, s :| r in due && s in due && Inverted(r.nextCheckAt.value, s.nextCheckAt.value);
      hide TextRank, Inverted, TieBefore, DueBefore, Sorted;
      var i :| 0 <= i < |due| && due[i] == r;
      var j :| 0 <= j < |due| && due[j] == s;
      InvertedIsLater(r.nextCheckAt.value, s.nextCheckAt.value);
      InvertedGoesFirst(due, i, j);
    } else {
      DisorderIsInversion(due);
    }
  }

  /** In a sorted list the later one of an inverted pair goes first. */
  lemma InvertedGoesFirst(due: seq<Record>, i: nat, j: nat)
    requires i < |due| && j < |due| && i != j && Sorted(DueBefore, due)
    requires due[i].nextCheckAt.Some? && due[j].nextCheckAt.Some?
    requires Inverted(due[i].nextCheckAt.value, due[j].nextCheckAt.value)
    ensures j < i
  {
    hide Inverted, TieBefore;
    InvertedIsLater(due[i].nextCheckAt.value, due[j].nextCheckAt.value);
    RankVersusTime(due[i].nextCheckAt.value, due[j].nextCheckAt.value);
    hide TextRank;
  }

  lemma DisorderIsInversion(due: seq<Record>)
    requires forall r :: r in due ==> r.nextCheckAt.Some?
    requires Sorted(DueBefore, due) && !HasInversion(due)
    ensures InTimeOrder(due)
  {
    hide Inverted, TieBefore, TextRank;
    forall i, j | 0 <= i < j < |due|
      ensures due[i].nextCheckAt.value <= due[j].nextCheckAt.value
    {
      assert due[i] in due && due[j] in due;
      if due[j].nextCheckAt.value < due[i].nextCheckAt.value {
        RankVersusTime(due[j].nextCheckAt.value, due[i].nextCheckAt.value);
      }
    }
  }

  lemma InvertedIsLater(a: Instant, b: Instant)
    requires Inverted(a, b)
    ensures a < b
  {
  }

  /** A record due at a whole second is verified after one due a microsecond later. */
  lemma LaterIsVerifiedFirst(r: Record, s: Record, scope: Scope, now: Instant)
    requires r.nextCheckAt == Some(DAY) && s.nextCheckAt == Some(DAY + 1)
    requires InScope(r, scope) && InScope(s, scope) && Due(r, now) && Due(s, now)
    ensures DueRecords([r, s], scope, now) == [s, r]
  {
    InvertedStamps();
    RankVersusTime(DAY, DAY + 1);
    hide LexLe, TieBefore, TextRank;
    var keep := DueIn(scope, now);
    assert [r, s][..1] == [r] && [r][..0] == [];
    assert Filter(keep, [r]) == [r];
    assert Filter(keep, [r, s]) == [r, s];
    assert !DueBefore(r, s);
    SortTwo(r, s);
  }

  lemma SortTwo(r: Record, s: Record)
    requires !DueBefore(r, s)
    ensures SortBy(DueBefore, [r, s]) == [s, r]
  {
    hide DueBefore;
    assert [r, s][..1] == [r] && [r][..0] == [];
    assert SortBy(DueBefore, [r]) == [r];
    assert Insert(DueBefore, [], s) == [s];
  }

  predicate Checked(r: Record) {
    r.status.Pending() && r.nextCheckAt.Some?
  }

  /** The reported next check is one of a pending record, and no pending record's check has a smaller text;
      nothing is reported exactly when no pending record has a check. */
  lemma NextDueIsFirstText(rs: seq<Record>)
    requires forall t :: IsCheck(rs, t) ==> Representable(t)
    ensures NextDue(rs).None? <==> forall t :: !IsCheck(rs, t)
    ensures NextDue(rs).Some? ==>
              IsCheck(rs, NextDue(rs).value)
              && forall t :: IsCheck(rs, t) ==> LexLe(Render(NextDue(rs).value), Render(t))
  {
    hide LexLe, Render, IsCheck, NextDue, TextRank;
    NextDueIsLeast(rs);
    forall t | IsCheck(rs, t)
      ensures LexLe(Render(NextDue(rs).value), Render(t))
    {
      RenderOrder(NextDue(rs).value, t);
    }
  }

  /** `t` is the check of a pending record of the list. */
  ghost predicate IsCheck(rs: seq<Record>, t: Instant) {
    exists r :: r in rs && Checked(r) && r.nextCheckAt == Some(t)
  }

  lemma ChecksSnoc(front: seq<Record>, last: Record, t: Instant)
    ensures IsCheck(front + [last], t) <==> IsCheck(front, t) || (Checked(last) && last.nextCheckAt == Some(t))
  {
    hide Checked;
    if IsCheck(front, t) {
      var r :| r in front && Checked(r) && r.nextCheckAt == Some(t);
      assert r in front + [last];
    }
  }

  lemma {:induction false} NextDueIsLeast(rs: seq<Record>)
    ensures NextDue(rs).Some? ==> IsCheck(rs, NextDue(rs).value)
    ensures forall t :: IsCheck(rs, t) ==> NextDue(rs).Some? && TextRank(NextDue(rs).value) <= TextRank(t)
  {
    hide TextRank, IsCheck;
    if rs == [] {
      NoChecks();
    } else {
      var front, last := rs[..|rs| - 1], rs[|rs| - 1];
      NextDueIsLeast(front);
      assert rs == front + [last];
      forall t
        ensures IsCheck(rs, t) <==> IsCheck(front, t) || (Checked(last) && last.nextCheckAt == Some(t))
      {
        ChecksSnoc(front, last, t);
      }
    }
  }

  lemma NoChecks()
    ensures forall t :: !IsCheck([], t)
  {
  }
}
