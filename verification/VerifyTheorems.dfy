/** What the verification scheduler guarantees: for one record, for one run and over whole histories. */
module VerifyTheorems {
  import opened Wrappers
  import opened Clock
  import opened Sorting
  import opened RequestState
  import opened VerifyScheduler
  import opened VerifyWorker

  ghost predicate WorldOk(w: World) {
    UniqueRefs(w.records) && AllNormalized(w.records)
  }

  // ----- One record -----

  /** A record no run will pick again at `now`: closed without a next check, or scheduled strictly
      later than `now` and no later than its expiry. */
  predicate Settled(c: Context, r: Record, now: Instant) {
    if r.status.Terminal() then r.nextCheckAt.None?
    else r.status.Pending() && r.nextCheckAt.Some? && now < r.nextCheckAt.value <= ExpiryOf(r, c.policy)
  }

  lemma HandledIsSettled(c: Context, visits: seq<Visit>, r: Record, now: Instant)
    requires PositiveDelays(c.policy)
    ensures Settled(c, Handled(c, visits, r, now), now)
    ensures !Due(Handled(c, visits, r, now), now)
  {
    HandledShape(c, visits, r, now);
    var attempts := Handled(c, visits, r, now).attemptCount;
    DelayIsPositive(c, attempts, r.core.requestRef);
    if NeedsVerifier(c, r, now) {
      RescheduledIsLater(c, r, now, attempts);
    }
  }

  /** Upper bound on how often a record can still be selected. */
  function Measure(c: Context, r: Record): nat {
    if !r.status.Pending() then 0
    else 1 + if r.attemptCount < c.policy.maxAttempts then c.policy.maxAttempts - r.attemptCount else 0
  }

  lemma HandlingLowersMeasure(c: Context, visits: seq<Visit>, r: Record, now: Instant)
    requires r.status.Pending()
    ensures Measure(c, Handled(c, visits, r, now)) < Measure(c, r)
  {
    HandledShape(c, visits, r, now);
  }

  /** The schedule never reaches past the expiry. */
  predicate Scheduled(r: Record, p: BackoffPolicy) {
    r.status.Pending() && r.nextCheckAt.Some? ==> r.nextCheckAt.value <= ExpiryOf(r, p)
  }

  /** A pending record at or past its expiry is due, and handling it closes it without a verifier call. */
  lemma ExpiredIsDueAndClosed(c: Context, visits: seq<Visit>, r: Record, now: Instant)
    requires Normalized(r) && r.status.Pending() && Scheduled(r, c.policy) && Expired(r, now, c.policy)
    ensures Due(r, now) && !VisitOf(c, r, now).asked
    ensures Handled(c, visits, r, now).status == VerifyExpired
  {
  }

  // ----- One step -----

  lemma StepMembers(c: Context, w: World, r: Record, now: Instant)
    requires WorldOk(w) && Normalized(r)
    ensures var w' := VerifyOne(c, w, r, now); var h := Handled(c, w.visits, r, now);
            && WorldOk(w')
            && AsMap(w'.records) == AsMap(w.records)[r.core.requestRef := h]
            && multiset(w'.records) == multiset(Filter(Others(r.core.requestRef), w.records)) + multiset{h}
            && (forall x :: x in w'.records <==> x == h || (x in w.records && x.core.requestRef != r.core.requestRef))
  {
    HandledIsNormalized(c, w.visits, r, now);
    HandledShape(c, w.visits, r, now);
    var h := Handled(c, w.visits, r, now);
    hide Handled, Upsert;
    UpsertKeepsInvariant(w.records, h);
    UpsertRefinesMap(w.records, h);
    UpsertMembers(w.records, h);
  }

  lemma StepMap(c: Context, w: World, r: Record, now: Instant)
    requires WorldOk(w) && Normalized(r)
    ensures WorldOk(VerifyOne(c, w, r, now))
    ensures AsMap(VerifyOne(c, w, r, now).records)
            == AsMap(w.records)[r.core.requestRef := Handled(c, w.visits, r, now)]
  {
    StepMembers(c, w, r, now);
  }

  lemma DueCount(records: seq<Record>, scope: Scope, now: Instant, x: Record)
    ensures multiset(DueRecords(records, scope, now))[x] == if DueIn(scope, now)(x) then multiset(records)[x] else 0
  {
    FilterMultiset(DueIn(scope, now), records, x);
  }

  /** Replacing a wanted record by an unwanted one of the same reference removes just that occurrence. */
  lemma ReplacementCount(rs: seq<Record>, out: seq<Record>, r: Record, h: Record, wanted: Record -> bool, x: Record)
    requires UniqueRefs(rs) && r in rs && h.core.requestRef == r.core.requestRef && wanted(r) && !wanted(h)
    requires multiset(out) == multiset(Filter(Others(r.core.requestRef), rs)) + multiset{h}
    ensures (if wanted(x) then multiset(out)[x] else 0)
         == (if wanted(x) then multiset(rs)[x] else 0) - (if x == r then 1 else 0)
  {
    FilterMultiset(Others(r.core.requestRef), rs, x);
    if x in rs && x.core.requestRef == r.core.requestRef {
      SameRefSameRecord(rs, x, r);
      UniqueOccursOnce(rs, r);
    }
  }

  lemma StepWanted(c: Context, visits: seq<Visit>, r: Record, scope: Scope, now: Instant)
    requires PositiveDelays(c.policy) && InScope(r, scope) && Due(r, now)
    ensures DueIn(scope, now)(r) && !DueIn(scope, now)(Handled(c, visits, r, now))
    ensures Handled(c, visits, r, now).core == r.core
  {
    HandledIsSettled(c, visits, r, now);
    HandledShape(c, visits, r, now);
  }

  /** Handling a due record takes exactly that record out of the due list of every scope that has it. */
  lemma StepDue(c: Context, w: World, r: Record, scope: Scope, now: Instant)
    requires WorldOk(w) && PositiveDelays(c.policy)
    requires r in w.records && InScope(r, scope) && Due(r, now)
    ensures multiset(DueRecords(VerifyOne(c, w, r, now).records, scope, now))
         == multiset(DueRecords(w.records, scope, now)) - multiset{r}
  {
    hide VerifyOne, Handled, DueRecords, Due, InScope, DueIn, PositiveDelays, AsMap;
    var w', h, wanted := VerifyOne(c, w, r, now), Handled(c, w.visits, r, now), DueIn(scope, now);
    StepMembers(c, w, r, now);
    StepWanted(c, w.visits, r, scope, now);
    forall x ensures multiset(DueRecords(w'.records, scope, now))[x]
                  == (multiset(DueRecords(w.records, scope, now)) - multiset{r})[x] {
      DueCount(w'.records, scope, now, x);
      DueCount(w.records, scope, now, x);
      ReplacementCount(w.records, w'.records, r, h, wanted, x);
    }
  }

  // ----- One run -----

  /** The references for which the verifier was called, in order. */
  function VerifierCalls(visits: seq<Visit>): seq<string> {
    if visits == [] then []
    else
      var last := visits[|visits| - 1];
      VerifierCalls(visits[..|visits| - 1]) + if last.asked then [last.requestRef] else []
  }

  /** The references handled, with or without a call. */
  function Visited(visits: seq<Visit>): seq<string> {
    seq(|visits|, i requires 0 <= i < |visits| => visits[i].requestRef)
  }

  lemma CallsSnoc(visits: seq<Visit>, v: Visit)
    ensures VerifierCalls(visits + [v]) == VerifierCalls(visits) + if v.asked then [v.requestRef] else []
    ensures Visited(visits + [v]) == Visited(visits) + [v.requestRef]
  {
    assert (visits + [v])[..|visits|] == visits;
  }

  ghost predicate DueIndeed(w: World, selected: seq<Record>, now: Instant) {
    UniqueRefs(selected) && forall r :: r in selected ==> r in w.records && Due(r, now)
  }

  lemma HandledCore(c: Context, visits: seq<Visit>, r: Record, now: Instant)
    ensures Handled(c, visits, r, now).core == r.core
  {
    HandledShape(c, visits, r, now);
  }

  /** The last record of a run is handled in the state that the others left. */
  lemma RunUnfold(c: Context, w: World, front: seq<Record>, last: Record, now: Instant)
    ensures VerifyAll(c, w, front + [last], now) == VerifyOne(c, VerifyAll(c, w, front, now), last, now)
    ensures HandledAll(c, w, front + [last], now)
         == HandledAll(c, w, front, now) + [Handled(c, VerifyAll(c, w, front, now).visits, last, now)]
  {
    hide VerifyOne, Handled;
    assert (front + [last])[..|front|] == front;
  }

  lemma PrefixUnique(selected: seq<Record>)
    requires UniqueRefs(selected) && selected != []
    ensures UniqueRefs(selected[..|selected| - 1])
    ensures forall r :: r in selected[..|selected| - 1] ==>
              r in selected && r.core.requestRef != selected[|selected| - 1].core.requestRef
  {
  }

  /** A run replaces exactly the selected records, each by its handled form, and touches no other. */
  lemma {:induction false} VerifyAllMembers(c: Context, w: World, selected: seq<Record>, now: Instant)
    requires WorldOk(w) && DueIndeed(w, selected, now)
    ensures WorldOk(VerifyAll(c, w, selected, now))
    ensures forall x :: x in VerifyAll(c, w, selected, now).records <==>
              x in HandledAll(c, w, selected, now) || (x in w.records && x !in selected)
  {
    if selected == [] {
      assert HandledAll(c, w, selected, now) == [];
    } else {
      hide VerifyAll, HandledAll, VerifyOne, Handled, Due;
      var front, last := selected[..|selected| - 1], selected[|selected| - 1];
      assert selected == front + [last];
      PrefixUnique(selected);
      VerifyAllMembers(c, w, front, now);
      RunUnfold(c, w, front, last, now);
      var mid := VerifyAll(c, w, front, now);
      StepMembers(c, mid, last, now);
      HandledRefs(c, w, front, now);
      MembersCompose(w.records, front, last, HandledAll(c, w, front, now),
                     mid.records, Handled(c, mid.visits, last, now),
                     VerifyAll(c, w, selected, now).records);
    }
  }

  lemma MembersCompose(rs: seq<Record>, front: seq<Record>, last: Record,
                       handled: seq<Record>, mid: seq<Record>, h: Record, out: seq<Record>)
    requires UniqueRefs(rs) && last in rs
             && (forall r :: r in front ==> r in rs && r.core.requestRef != last.core.requestRef)
    requires |handled| == |front| && forall i :: 0 <= i < |front| ==> handled[i].core == front[i].core
    requires forall x :: x in mid <==> x in handled || (x in rs && x !in front)
    requires forall x :: x in out <==> x == h || (x in mid && x.core.requestRef != last.core.requestRef)
    ensures forall x :: x in out <==> x in handled + [h] || (x in rs && x !in front + [last])
    ensures last in mid
  {
    forall x ensures x in out <==> x in handled + [h] || (x in rs && x !in front + [last]) {
      if x in rs && x.core.requestRef == last.core.requestRef {
        SameRefSameRecord(rs, x, last);
      }
      if x in handled {
        var i :| 0 <= i < |front| && handled[i] == x;
        assert front[i] in front;
      }
    }
  }

  lemma {:induction false} HandledRefs(c: Context, w: World, selected: seq<Record>, now: Instant)
    ensures forall i :: 0 <= i < |selected| ==> HandledAll(c, w, selected, now)[i].core == selected[i].core
  {
    if selected != [] {
      hide VerifyAll, HandledAll, VerifyOne, Handled;
      var front, last := selected[..|selected| - 1], selected[|selected| - 1];
      assert selected == front + [last];
      HandledRefs(c, w, front, now);
      RunUnfold(c, w, front, last, now);
      HandledCore(c, VerifyAll(c, w, front, now).visits, last, now);
    }
  }

  /** After a run every processed record is settled. */
  lemma {:induction false} ProcessedAreSettled(c: Context, w: World, selected: seq<Record>, now: Instant)
    requires PositiveDelays(c.policy)
    ensures forall r :: r in HandledAll(c, w, selected, now) ==> Settled(c, r, now) && !Due(r, now)
  {
    if selected != [] {
      ProcessedAreSettled(c, w, selected[..|selected| - 1], now);
      HandledIsSettled(c, VerifyAll(c, w, selected[..|selected| - 1], now).visits, selected[|selected| - 1], now);
    }
  }

  lemma MinusSnoc(m: multiset<Record>, front: seq<Record>, last: Record)
    ensures m - multiset(front) - multiset{last} == m - multiset(front + [last])
  {
  }

  /** The due list of any scope that contains the selected records loses exactly those records. */
  lemma {:induction false} VerifyAllDue(c: Context, w: World, selected: seq<Record>, scope: Scope, now: Instant)
    requires WorldOk(w) && PositiveDelays(c.policy) && DueIndeed(w, selected, now)
    requires forall r :: r in selected ==> InScope(r, scope)
    ensures multiset(DueRecords(VerifyAll(c, w, selected, now).records, scope, now))
         == multiset(DueRecords(w.records, scope, now)) - multiset(selected)
  {
    if selected != [] {
      hide VerifyAll, HandledAll, VerifyOne, Handled, Due, DueRecords, InScope;
      var front, last := selected[..|selected| - 1], selected[|selected| - 1];
      PrefixUnique(selected);
      assert selected == front + [last];
      RunUnfold(c, w, front, last, now);
      VerifyAllDue(c, w, front, scope, now);
      VerifyAllMembers(c, w, front, now);
      StepDue(c, VerifyAll(c, w, front, now), last, scope, now);
      MinusSnoc(multiset(DueRecords(w.records, scope, now)), front, last);
    }
  }

  lemma DueRecordsSorted(records: seq<Record>, scope: Scope, now: Instant)
    requires UniqueRefs(records)
    ensures Sorted(DueBefore, DueRecords(records, scope, now))
    ensures UniqueRefs(DueRecords(records, scope, now))
    ensures forall r :: r in DueRecords(records, scope, now) <==> r in records && InScope(r, scope) && Due(r, now)
  {
    DueBeforeIsPreorder();
    SortBySorted(DueBefore, Filter(DueIn(scope, now), records));
    DueMembers(records, scope, now);
    FilterUnique(DueIn(scope, now), records);
    UniquePermuted(Filter(DueIn(scope, now), records), DueRecords(records, scope, now));
  }

  lemma {:induction false} FilterUnique(keep: Record -> bool, rs: seq<Record>)
    requires UniqueRefs(rs)
    ensures UniqueRefs(Filter(keep, rs))
  {
    if rs != [] {
      var front := Filter(keep, rs[..|rs| - 1]);
      FilterUnique(keep, rs[..|rs| - 1]);
      forall i | 0 <= i < |front| ensures front[i].core.requestRef != rs[|rs| - 1].core.requestRef {
        assert front[i] in rs[..|rs| - 1];
      }
    }
  }

  lemma DueSliceIndeed(w: World, scope: Scope, now: Instant, k: nat)
    requires WorldOk(w) && k <= |DueRecords(w.records, scope, now)|
    ensures DueIndeed(w, DueRecords(w.records, scope, now)[..k], now)
    ensures forall r :: r in DueRecords(w.records, scope, now)[..k] ==> InScope(r, scope)
  {
    hide DueRecords, Due, InScope;
    DueRecordsSorted(w.records, scope, now);
  }

  lemma SelectedIndeed(w: World, scope: Scope, limit: int, now: Instant)
    requires WorldOk(w)
    ensures DueIndeed(w, Prefix(DueRecords(w.records, scope, now), limit), now)
    ensures forall r :: r in Prefix(DueRecords(w.records, scope, now), limit) ==> InScope(r, scope)
  {
    hide DueRecords, Due, InScope;
    var selected := Prefix(DueRecords(w.records, scope, now), limit);
    assert selected == DueRecords(w.records, scope, now)[..|selected|];
    DueSliceIndeed(w, scope, now, |selected|);
  }

  lemma SortedByDueUnique(a: seq<Record>, b: seq<Record>)
    requires Sorted(DueBefore, a) && Sorted(DueBefore, b) && multiset(a) == multiset(b) && UniqueRefs(a)
    ensures a == b
  {
    forall x, y | x in multiset(a) && y in multiset(a) && DueBefore(x, y) && DueBefore(y, x) ensures x == y {
      DueBeforeSeparatesRefs(x, y);
      SameRefSameRecord(a, x, y);
    }
    SortedUnique(DueBefore, a, b);
  }

  /** Having handled the first `k` due records, a run finds exactly the remaining ones, in the same order. */
  lemma DueAfterPrefix(c: Context, w: World, scope: Scope, now: Instant, k: nat)
    requires WorldOk(w) && PositiveDelays(c.policy) && k <= |DueRecords(w.records, scope, now)|
    ensures WorldOk(VerifyAll(c, w, DueRecords(w.records, scope, now)[..k], now))
    ensures DueRecords(VerifyAll(c, w, DueRecords(w.records, scope, now)[..k], now).records, scope, now)
         == DueRecords(w.records, scope, now)[k..]
  {
    hide DueRecords, VerifyAll, DueBefore, Due, InScope;
    var due := DueRecords(w.records, scope, now);
    var w' := VerifyAll(c, w, due[..k], now);
    DueSliceIndeed(w, scope, now, k);
    VerifyAllMembers(c, w, due[..k], now);
    VerifyAllDue(c, w, due[..k], scope, now);
    DueRecordsSorted(w.records, scope, now);
    DueRecordsSorted(w'.records, scope, now);
    assert due == due[..k] + due[k..];
    SortedByDueUnique(DueRecords(w'.records, scope, now), due[k..]);
  }

  lemma VerifyAllSingle(c: Context, w: World, r: Record, now: Instant)
    ensures VerifyAll(c, w, [r], now) == VerifyOne(c, w, r, now)
  {
    hide VerifyOne;
    assert [r][..0] == [];
  }

  lemma VerifyAllSnoc(c: Context, w: World, s: seq<Record>, n: nat, now: Instant)
    requires 0 < n <= |s|
    ensures VerifyAll(c, w, s[..n], now) == VerifyOne(c, VerifyAll(c, w, s[..n - 1], now), s[n - 1], now)
  {
    hide VerifyOne;
    assert s[..n][..n - 1] == s[..n - 1];
  }

  /** `n` runs of limit one, at the same instant and against the same verifier. */
  function Steps(c: Context, w: World, scope: Scope, n: nat, now: Instant): World {
    if n == 0 then w else RunVerifyDue(c, Steps(c, w, scope, n - 1, now), scope, 1, now)
  }

  /** One run of limit `n` and `n` runs of limit one leave the same file and make the same verifier calls. */
  lemma {:induction false} BatchEqualsSteps(c: Context, w: World, scope: Scope, n: nat, now: Instant)
    requires WorldOk(w) && PositiveDelays(c.policy)
    ensures RunVerifyDue(c, w, scope, n, now) == Steps(c, w, scope, n, now)
  {
    hide DueRecords, VerifyOne;
    var due := DueRecords(w.records, scope, now);
    if n == 0 {
      assert due[..0] == [];
    } else {
      BatchEqualsSteps(c, w, scope, n - 1, now);
      var k := if n - 1 <= |due| then n - 1 else |due|;
      assert due[..|due|] == due;
      assert Prefix(due, n - 1) == due[..k];
      DueAfterPrefix(c, w, scope, now, k);
      var mid := VerifyAll(c, w, due[..k], now);
      var rest := DueRecords(mid.records, scope, now);
      if n <= |due| {
        assert Prefix(rest, 1) == [due[n - 1]];
        VerifyAllSingle(c, mid, due[n - 1], now);
        assert Prefix(due, n) == due[..n];
        VerifyAllSnoc(c, w, due, n, now);
      } else {
        assert Prefix(rest, 1) == [];
      }
    }
  }

  /** The state after one returning run, with `selected` the records it picked:
      each picked record is settled and stored under its reference, every other record is untouched, the
      references are the same, and the due list of the whole profile has lost the picked records. */
  lemma RunPostcondition(c: Context, w: World, scope: Scope, limit: int, now: Instant)
    requires WorldOk(w) && PositiveDelays(c.policy)
    ensures var selected := Prefix(DueRecords(w.records, scope, now), limit);
            var w' := RunVerifyDue(c, w, scope, limit, now);
            var handled := HandledAll(c, w, selected, now);
            var profile := Scope(scope.profileId, None);
            && WorldOk(w')
            && (forall i :: 0 <= i < |selected| ==> handled[i].core == selected[i].core)
            && (forall r :: r in handled ==> Settled(c, r, now))
            && (forall x :: x in w'.records <==> x in handled || (x in w.records && x !in selected))
            && |DueRecords(w'.records, profile, now)| == |DueRecords(w.records, profile, now)| - |selected|
  {
    hide DueRecords, VerifyAll, DueBefore, Due, Settled, HandledAll;
    var due := DueRecords(w.records, scope, now);
    var selected := Prefix(due, limit);
    var profile := Scope(scope.profileId, None);
    SelectedIndeed(w, scope, limit, now);
    VerifyAllMembers(c, w, selected, now);
    HandledRefs(c, w, selected, now);
    ProcessedAreSettled(c, w, selected, now);
    VerifyAllDue(c, w, selected, profile, now);
    DueRecordsSorted(w.records, profile, now);
    SubsetCount(DueRecords(w.records, profile, now),
                DueRecords(RunVerifyDue(c, w, scope, limit, now).records, profile, now), selected);
  }

  lemma SubsetCount(all: seq<Record>, rest: seq<Record>, gone: seq<Record>)
    requires UniqueRefs(all) && UniqueRefs(gone) && (forall r :: r in gone ==> r in all)
    requires multiset(rest) == multiset(all) - multiset(gone)
    ensures |rest| == |all| - |gone|
  {
    forall x ensures multiset(gone)[x] <= multiset(all)[x] {
      if x in gone {
        UniqueOccursOnce(gone, x);
        UniqueOccursOnce(all, x);
      }
    }
    assert |multiset(rest)| == |multiset(all)| - |multiset(gone)|;
  }

  /** A run leaves closed records and the records of other profiles exactly as they were. */
  lemma RunFrame(c: Context, w: World, scope: Scope, limit: int, now: Instant, r: Record)
    requires WorldOk(w) && r in w.records
    requires r.core.profileId != scope.profileId || !r.status.Pending()
    ensures r in RunVerifyDue(c, w, scope, limit, now).records
  {
    hide DueRecords, VerifyAll, DueBefore, HandledAll;
    var due := DueRecords(w.records, scope, now);
    var selected := Prefix(due, limit);
    SelectedIndeed(w, scope, limit, now);
    VerifyAllMembers(c, w, selected, now);
  }

  /** Once every pending record of the scope is past its expiry, one unlimited run closes them all
      without a single verifier call. */
  lemma RunAtExpiryDrains(c: Context, w: World, scope: Scope, limit: int, now: Instant)
    requires WorldOk(w) && PositiveDelays(c.policy) && limit >= |DueRecords(w.records, scope, now)|
    requires forall r :: r in w.records && InScope(r, scope) && r.status.Pending() ==>
               Scheduled(r, c.policy) && Expired(r, now, c.policy)
    ensures forall r :: r in RunVerifyDue(c, w, scope, limit, now).records && InScope(r, scope) ==> !r.status.Pending()
    ensures VerifierCalls(RunVerifyDue(c, w, scope, limit, now).visits) == VerifierCalls(w.visits)
  {
    hide DueRecords, VerifyAll, DueBefore, HandledAll;
    var due := DueRecords(w.records, scope, now);
    DueRecordsSorted(w.records, scope, now);
    assert due[..|due|] == due;
    DueSliceIndeed(w, scope, now, |due|);
    VerifyAllMembers(c, w, due, now);
    ClosedWithoutCalls(c, w, due, now);
  }

  lemma {:induction false} ClosedWithoutCalls(c: Context, w: World, selected: seq<Record>, now: Instant)
    requires forall r :: r in selected ==> Expired(r, now, c.policy)
    ensures forall r :: r in HandledAll(c, w, selected, now) ==> r.status == VerifyExpired
    ensures VerifierCalls(VerifyAll(c, w, selected, now).visits) == VerifierCalls(w.visits)
  {
    if selected != [] {
      var front, last := selected[..|selected| - 1], selected[|selected| - 1];
      ClosedWithoutCalls(c, w, front, now);
      CallsSnoc(VerifyAll(c, w, front, now).visits, VisitOf(c, last, now));
    }
  }
}
