/** The backfill loop: plan, submit one window, let the scheduler run, plan again. */
module BackfillTheorems {
  import opened Wrappers
  import opened Clock
  import opened Text
  import opened Domain
  import opened RequestState
  import opened Backfill
  import opened BackfillSubmit
  import opened VerifyScheduler
  import opened VerifyWorker
  import opened VerifyTheorems
  import VH = VerifyHistory

  // ----- Windows that are taken -----

  ghost function Cores(records: seq<Record>): set<RequestCore> {
    set r | r in records :: r.core
  }

  /** The criteria hashes stored for a profile. */
  ghost function Taken(records: seq<Record>, profileId: string): set<string> {
    set c | c in Cores(records) && c.profileId == profileId :: c.criteriaHash
  }

  ghost predicate NamedRefs(records: seq<Record>) {
    forall c :: c in Cores(records) ==> c.requestRef != ""
  }

  lemma {:induction false} ExistingIsTaken(records: seq<Record>, profileId: string)
    ensures Existing(records, profileId).Keys == Taken(records, profileId)
  {
    if records != [] {
      var front, last := records[..|records| - 1], records[|records| - 1];
      ExistingIsTaken(front, profileId);
      assert records == front + [last];
      assert Cores(records) == Cores(front) + {last.core};
    }
  }

  /** The criteria hashes of the windows of a plan, in order. */
  function Hashes(digest: Digest, a: PlanArgs): (r: seq<string>)
    ensures |r| == |Tiles(a.start, a.end, a.step)|
  {
    var periods := Periods(a.start, a.end, a.step);
    seq(|periods|, i requires 0 <= i < |periods| => CriteriaHash(digest, QueryFor(a, periods[i])))
  }

  /** Different windows have different hashes. */
  lemma HashesDiffer(digest: Digest, a: PlanArgs, i: int, j: int)
    requires Injective(digest) && a.start <= a.end && 0 <= i < j < |Hashes(digest, a)|
    ensures Hashes(digest, a)[i] != Hashes(digest, a)[j]
  {
    TileAt(a.start, a.end, a.step);
    var periods := Periods(a.start, a.end, a.step);
    hide Tiles;
    assert periods[i].start.wall != periods[j].start.wall;
    SameHashExactly(digest, QueryFor(a, periods[i]), QueryFor(a, periods[j]));
  }

  function CountNew(hashes: seq<string>, taken: set<string>): nat {
    if hashes == [] then 0
    else CountNew(hashes[..|hashes| - 1], taken) + if hashes[|hashes| - 1] in taken then 0 else 1
  }

  lemma PlanWindowIsNew(digest: Digest, records: seq<Record>, a: PlanArgs, i: int)
    requires NamedRefs(records) && 0 <= i < |PlanWindows(digest, records, a)|
    ensures PlanWindows(digest, records, a)[i].criteriaHash == Hashes(digest, a)[i]
    ensures PlanWindows(digest, records, a)[i].query == QueryFor(a, Periods(a.start, a.end, a.step)[i])
    ensures PlanWindows(digest, records, a)[i].existingRef == ""
            <==> Hashes(digest, a)[i] !in Taken(records, a.profileId)
  {
    ExistingIsTaken(records, a.profileId);
    forall h | h in Existing(records, a.profileId) ensures Existing(records, a.profileId)[h].core.requestRef != "" {
      assert Existing(records, a.profileId)[h].core in Cores(records);
    }
    hide Existing, CriteriaHash, Taken, Periods;
  }

  lemma {:induction false} CountAgrees(plan: seq<WindowPlan>, hashes: seq<string>, taken: set<string>)
    requires |plan| == |hashes| && forall i :: 0 <= i < |plan| ==> (plan[i].existingRef == "" <==> hashes[i] !in taken)
    ensures NewCount(plan) == CountNew(hashes, taken)
  {
    if plan != [] {
      CountAgrees(plan[..|plan| - 1], hashes[..|plan| - 1], taken);
    }
  }

  /** The plan's count of new windows, from the stored hashes alone. */
  lemma NewCountIs(digest: Digest, records: seq<Record>, a: PlanArgs)
    requires NamedRefs(records)
    ensures NewCount(PlanWindows(digest, records, a)) == CountNew(Hashes(digest, a), Taken(records, a.profileId))
  {
    var plan, hashes := PlanWindows(digest, records, a), Hashes(digest, a);
    forall i | 0 <= i < |plan| ensures plan[i].existingRef == "" <==> hashes[i] !in Taken(records, a.profileId) {
      PlanWindowIsNew(digest, records, a, i);
    }
    hide PlanWindows, Hashes, Taken;
    CountAgrees(plan, hashes, Taken(records, a.profileId));
  }

  lemma {:induction false} TakingOne(hashes: seq<string>, taken: set<string>, i: nat)
    requires i < |hashes| && hashes[i] !in taken
    requires forall j :: 0 <= j < |hashes| && j != i ==> hashes[j] != hashes[i]
    ensures CountNew(hashes, taken + {hashes[i]}) == CountNew(hashes, taken) - 1
  {
    if i == |hashes| - 1 {
      SameCount(hashes[..i], taken, taken + {hashes[i]});
    } else {
      TakingOne(hashes[..|hashes| - 1], taken, i);
    }
  }

  lemma {:induction false} SameCount(hashes: seq<string>, s: set<string>, t: set<string>)
    requires forall h :: h in hashes ==> (h in s <==> h in t)
    ensures CountNew(hashes, s) == CountNew(hashes, t)
  {
    if hashes != [] {
      SameCount(hashes[..|hashes| - 1], s, t);
    }
  }

  // ----- One operation -----

  /** The record a submit stores has a reference of its own. */
  ghost predicate FreshSubmit(t: Texts, records: seq<Record>, a: PlanArgs, typedId: string, r: Reply) {
    Submitted(t, records, a, r).Some? ==>
      var ref := NewRecord(t, typedId, Submitted(t, records, a, r).value.query, r).core.requestRef;
      ref != "" && forall x :: x in records ==> x.core.requestRef != ref
  }

  lemma UpsertCores(records: seq<Record>, x: Record)
    requires forall y :: y in records ==> y.core.requestRef != x.core.requestRef
    ensures Cores(Upsert(records, x)) == Cores(records) + {x.core}
  {
    hide Upsert;
    UpsertMembers(records, x);
    var after := Upsert(records, x);
    assert x in after;
    forall c | c in Cores(records) ensures c in Cores(after) {
      var y :| y in records && y.core == c;
      assert y in after;
    }
  }

  lemma SubmitTakes(t: Texts, records: seq<Record>, a: PlanArgs, typedId: string, r: Reply)
    requires NamedRefs(records) && FreshSubmit(t, records, a, typedId, r)
    ensures var after := Submit(t, records, a, typedId, r);
            && NamedRefs(after)
            && Taken(after, a.profileId) == Taken(records, a.profileId)
               + (if Submitted(t, records, a, r).Some? && typedId == a.profileId
                  then {Submitted(t, records, a, r).value.criteriaHash} else {})
  {
    hide Upsert, NewRecord, Submitted, Cores, Taken, NamedRefs;
    if Submitted(t, records, a, r).Some? {
      var w := Submitted(t, records, a, r).value;
      var x := NewRecord(t, typedId, w.query, r);
      SubmittedCore(t, records, a, typedId, r);
      UpsertCores(records, x);
      CoreTaken(records, Upsert(records, x), x.core, a.profileId);
    }
  }

  lemma SubmittedCore(t: Texts, records: seq<Record>, a: PlanArgs, typedId: string, r: Reply)
    requires Submitted(t, records, a, r).Some?
    ensures var w := Submitted(t, records, a, r).value; var x := NewRecord(t, typedId, w.query, r);
            x.core.criteriaHash == w.criteriaHash && x.core.profileId == typedId
  {
    hide CanonicalOf;
  }

  lemma CoreTaken(records: seq<Record>, after: seq<Record>, core: RequestCore, profileId: string)
    requires Cores(after) == Cores(records) + {core} && NamedRefs(records) && core.requestRef != ""
    ensures NamedRefs(after)
    ensures Taken(after, profileId) == Taken(records, profileId)
            + (if core.profileId == profileId then {core.criteriaHash} else {})
  {
    hide Cores;
  }

  /** A run changes neither the profile nor the criteria of any record. */
  lemma RunKeepsTaken(c: Context, w: World, scope: Scope, limit: int, now: Instant, profileId: string)
    requires WorldOk(w)
    ensures var after := RunVerifyDue(c, w, scope, limit, now);
            && Taken(after.records, profileId) == Taken(w.records, profileId)
            && (NamedRefs(w.records) ==> NamedRefs(after.records))
  {
    hide DueRecords, VerifyAll, HandledAll;
    var selected := Prefix(DueRecords(w.records, scope, now), limit);
    SelectedIndeed(w, scope, limit, now);
    VerifyAllMembers(c, w, selected, now);
    HandledRefs(c, w, selected, now);
    CoresKept(w.records, selected, HandledAll(c, w, selected, now), VerifyAll(c, w, selected, now).records);
  }

  lemma CoresKept(rs: seq<Record>, selected: seq<Record>, handled: seq<Record>, after: seq<Record>)
    requires |handled| == |selected| && (forall i :: 0 <= i < |selected| ==> handled[i].core == selected[i].core)
    requires forall r :: r in selected ==> r in rs
    requires forall x :: x in after <==> x in handled || (x in rs && x !in selected)
    ensures Cores(after) == Cores(rs)
  {
    forall c | c in Cores(rs) ensures c in Cores(after) {
      var x :| x in rs && x.core == c;
      if x in selected {
        var i :| 0 <= i < |selected| && selected[i] == x;
        assert handled[i] in after;
      } else {
        assert x in after;
      }
    }
    forall c | c in Cores(after) ensures c in Cores(rs) {
      var y :| y in after && y.core == c;
      if y in handled {
        var i :| 0 <= i < |handled| && handled[i] == y;
        assert selected[i] in rs;
      }
    }
  }

  // ----- Histories -----

  datatype Op =
    | SubmitNext(reply: Reply)
    | RunVerify(scope: Scope, limit: int, now: Instant)

  /** The file, the visits so far and the hashes submitted so far. */
  datatype State = State(world: World, submitted: seq<string>)

  datatype Env = Env(context: Context, texts: Texts, args: PlanArgs, typedId: string)

  function Apply(e: Env, s: State, op: Op): State {
    match op
    case SubmitNext(reply) =>
      var sent := Submitted(e.texts, s.world.records, e.args, reply);
      State(World(Submit(e.texts, s.world.records, e.args, e.typedId, reply), s.world.visits),
            if sent.Some? then s.submitted + [sent.value.criteriaHash] else s.submitted)
    case RunVerify(scope, limit, now) => State(RunVerifyDue(e.context, s.world, scope, limit, now), s.submitted)
  }

  function Exec(e: Env, s: State, ops: seq<Op>): State {
    if ops == [] then s else Apply(e, Exec(e, s, ops[..|ops| - 1]), ops[|ops| - 1])
  }

  ghost predicate Fresh(e: Env, s: State, op: Op) {
    op.SubmitNext? ==> FreshSubmit(e.texts, s.world.records, e.args, e.typedId, op.reply)
  }

  ghost predicate FreshHistory(e: Env, s: State, ops: seq<Op>) {
    ops != [] ==>
      FreshHistory(e, s, ops[..|ops| - 1]) && Fresh(e, Exec(e, s, ops[..|ops| - 1]), ops[|ops| - 1])
  }

  ghost predicate Started(e: Env, s: State) {
    WorldOk(s.world) && NamedRefs(s.world.records) && Injective(e.texts.digest) && e.args.start <= e.args.end
  }

  function New(e: Env, s: State): nat {
    NewCount(PlanWindows(e.texts.digest, s.world.records, e.args))
  }

  lemma SubmitOk(e: Env, s: State, reply: Reply)
    requires Started(e, s) && Fresh(e, s, SubmitNext(reply))
    ensures WorldOk(Apply(e, s, SubmitNext(reply)).world)
  {
    if Submitted(e.texts, s.world.records, e.args, reply).Some? {
      var x := NewRecord(e.texts, e.typedId, Submitted(e.texts, s.world.records, e.args, reply).value.query, reply);
      NewRecordIsNormalized(e.texts, e.typedId, Submitted(e.texts, s.world.records, e.args, reply).value.query, reply,
                            e.context.policy);
      hide Upsert, Submitted, NewRecord, Normalized;
      UpsertKeepsInvariant(s.world.records, x);
      UpsertMembers(s.world.records, x);
    }
  }

  /** What one operation may do to the plan and to the list of submitted hashes: nothing, or add one
      hash that the plan lists and the file did not hold; the plan's count of new windows then falls by
      one if the profile was typed as it is stored, and not at all otherwise. */
  ghost predicate Advances(e: Env, s: State, s': State) {
    var taken, taken' := Taken(s.world.records, e.args.profileId), Taken(s'.world.records, e.args.profileId);
    if s'.submitted == s.submitted then taken' == taken && New(e, s') == New(e, s)
    else
      && |s'.submitted| == |s.submitted| + 1
      && var h := s'.submitted[|s.submitted|];
      && s'.submitted == s.submitted + [h] && h in Hashes(e.texts.digest, e.args) && h !in taken
      && if e.typedId == e.args.profileId then taken' == taken + {h} && New(e, s') == New(e, s) - 1
         else taken' == taken && New(e, s') == New(e, s)
  }

  lemma RunAdvances(e: Env, s: State, scope: Scope, limit: int, now: Instant)
    requires Started(e, s)
    ensures var s' := Apply(e, s, RunVerify(scope, limit, now)); Started(e, s') && Advances(e, s, s')
  {
    hide NewCount, PlanWindows, Taken, RunVerifyDue, Injective, WorldOk;
    var after := RunVerifyDue(e.context, s.world, scope, limit, now);
    RunKeepsTaken(e.context, s.world, scope, limit, now, e.args.profileId);
    VH.ApplyOk(e.context, s.world, VH.Verify(scope, limit, now));
    NewCountIs(e.texts.digest, s.world.records, e.args);
    NewCountIs(e.texts.digest, after.records, e.args);
  }

  lemma SubmitAdvances(e: Env, s: State, reply: Reply)
    requires Started(e, s) && Fresh(e, s, SubmitNext(reply))
    ensures var s' := Apply(e, s, SubmitNext(reply)); Started(e, s') && Advances(e, s, s')
  {
    hide NewCount, PlanWindows, Taken, Injective, Submit, Submitted, WorldOk, Hashes, NamedRefs, FreshSubmit;
    var records, digest, a := s.world.records, e.texts.digest, e.args;
    SubmitTakes(e.texts, records, a, e.typedId, reply);
    SubmitOk(e, s, reply);
    NewCountIs(digest, records, a);
    NewCountIs(digest, Submit(e.texts, records, a, e.typedId, reply), a);
    if Submitted(e.texts, records, a, reply).Some? {
      var i := SubmittedIsNew(e.texts, records, a, reply);
      OthersDiffer(digest, a, i);
      TakingOne(Hashes(digest, a), Taken(records, a.profileId), i);
    } else {
      NotSubmitted(e.texts, records, a, e.typedId, reply);
    }
  }

  lemma SubmittedIsNew(t: Texts, records: seq<Record>, a: PlanArgs, r: Reply) returns (i: nat)
    requires NamedRefs(records) && Submitted(t, records, a, r).Some?
    ensures i < |Hashes(t.digest, a)| && Hashes(t.digest, a)[i] !in Taken(records, a.profileId)
    ensures Submitted(t, records, a, r).value.criteriaHash == Hashes(t.digest, a)[i]
  {
    i := FirstNew(PlanWindows(t.digest, records, a));
    PlanWindowIsNew(t.digest, records, a, i);
  }

  lemma NotSubmitted(t: Texts, records: seq<Record>, a: PlanArgs, typedId: string, r: Reply)
    requires Submitted(t, records, a, r).None?
    ensures Submit(t, records, a, typedId, r) == records
  {
  }

  lemma StepAdvances(e: Env, s: State, op: Op)
    requires Started(e, s) && Fresh(e, s, op)
    ensures Started(e, Apply(e, s, op)) && Advances(e, s, Apply(e, s, op))
  {
    hide Advances, Started;
    match op
    case RunVerify(scope, limit, now) => RunAdvances(e, s, scope, limit, now);
    case SubmitNext(reply) => SubmitAdvances(e, s, reply);
  }

  lemma OthersDiffer(digest: Digest, a: PlanArgs, i: int)
    requires Injective(digest) && a.start <= a.end && 0 <= i < |Hashes(digest, a)|
    ensures forall j :: 0 <= j < |Hashes(digest, a)| && j != i ==> Hashes(digest, a)[j] != Hashes(digest, a)[i]
  {
    hide Hashes;
    forall j | 0 <= j < |Hashes(digest, a)| && j != i ensures Hashes(digest, a)[j] != Hashes(digest, a)[i] {
      if i < j {
        HashesDiffer(digest, a, i, j);
      } else {
        HashesDiffer(digest, a, j, i);
      }
    }
  }

  ghost predicate NoRepeats(hashes: seq<string>) {
    forall i, j :: 0 <= i < j < |hashes| ==> hashes[i] != hashes[j]
  }

  /** Submitted so far: pairwise different windows of the plan, all of them stored. */
  ghost predicate SubmittedOk(e: Env, s: State) {
    && NoRepeats(s.submitted)
    && forall h :: h in s.submitted ==>
         h in Hashes(e.texts.digest, e.args) && h in Taken(s.world.records, e.args.profileId)
  }

  lemma AdvancesKeepsSubmitted(e: Env, s: State, s': State)
    requires SubmittedOk(e, s) && Advances(e, s, s') && e.typedId == e.args.profileId
    ensures SubmittedOk(e, s') && New(e, s') + |s'.submitted| == New(e, s) + |s.submitted|
  {
    hide New, Taken, Hashes;
  }

  /** Over any history of submits and verification runs, with the profile typed as it is stored: the
      plan's count of new windows and the number of accepted submits always add up to the initial count,
      and no window is submitted twice. */
  lemma {:induction false} ResumableBackfill(e: Env, s: State, ops: seq<Op>)
    requires Started(e, s) && FreshHistory(e, s, ops) && s.submitted == [] && e.typedId == e.args.profileId
    ensures var s' := Exec(e, s, ops);
            Started(e, s') && SubmittedOk(e, s') && New(e, s') + |s'.submitted| == New(e, s)
  {
    if ops != [] {
      hide Apply, Started, Fresh, New, SubmittedOk, Advances;
      var mid := Exec(e, s, ops[..|ops| - 1]);
      ResumableBackfill(e, s, ops[..|ops| - 1]);
      StepAdvances(e, mid, ops[|ops| - 1]);
      AdvancesKeepsSubmitted(e, mid, Apply(e, mid, ops[|ops| - 1]));
    }
  }

  lemma {:induction false} NewCountZero(plan: seq<WindowPlan>)
    ensures NewCount(plan) == 0 <==> forall j :: 0 <= j < |plan| ==> plan[j].existingRef != ""
  {
    if plan != [] {
      var front := plan[..|plan| - 1];
      NewCountZero(front);
      assert forall j :: 0 <= j < |front| ==> front[j] == plan[j];
    }
  }

  /** A submit goes through exactly when the plan has a new window and the request comes back accepted
      under some id; in every other case it changes nothing. So a complete backfill takes exactly the
      initial count of accepted submits. */
  lemma SubmitsWhileNew(e: Env, s: State, reply: Reply)
    ensures var s' := Apply(e, s, SubmitNext(reply));
            && (s'.submitted != s.submitted <==> New(e, s) > 0 && reply.Accepted? && Strip(reply.idSolicitud) != "")
            && (s'.submitted == s.submitted ==> s' == s)
  {
    hide PlanWindows, NewRecord, Upsert, Strip;
    NewCountZero(PlanWindows(e.texts.digest, s.world.records, e.args));
  }

  /** Typed in any other way, the backfill never advances: accepted submits leave the count of new
      windows as it was, however many there are. */
  lemma {:induction false} MistypedProfileNeverAdvances(e: Env, s: State, ops: seq<Op>)
    requires Started(e, s) && FreshHistory(e, s, ops) && e.typedId != e.args.profileId
    ensures Started(e, Exec(e, s, ops)) && New(e, Exec(e, s, ops)) == New(e, s)
  {
    if ops != [] {
      hide Apply, Started, Fresh, New;
      MistypedProfileNeverAdvances(e, s, ops[..|ops| - 1]);
      StepAdvances(e, Exec(e, s, ops[..|ops| - 1]), ops[|ops| - 1]);
    }
  }

  // ----- A profile typed differently -----

  /** The hash of the window that a submit would take next. */
  function NextHash(e: Env, s: State): Option<string> {
    var plan := PlanWindows(e.texts.digest, s.world.records, e.args);
    if FirstNew(plan) < |plan| then Some(plan[FirstNew(plan)].criteriaHash) else None
  }

  lemma {:induction false} FirstNewSame(p: seq<WindowPlan>, q: seq<WindowPlan>)
    requires |p| == |q| && forall i :: 0 <= i < |p| ==> (p[i].existingRef == "" <==> q[i].existingRef == "")
    ensures FirstNew(p) == FirstNew(q)
  {
    if p != [] && p[0].existingRef != "" {
      FirstNewSame(p[1..], q[1..]);
    }
  }

  /** The next window depends on the stored hashes alone. */
  lemma NextFromTaken(e: Env, s: State, s': State)
    requires NamedRefs(s.world.records) && NamedRefs(s'.world.records)
    requires Taken(s.world.records, e.args.profileId) == Taken(s'.world.records, e.args.profileId)
    ensures NextHash(e, s) == NextHash(e, s')
  {
    hide PlanWindows, Hashes, NamedRefs, Taken;
    var p := PlanWindows(e.texts.digest, s.world.records, e.args);
    var q := PlanWindows(e.texts.digest, s'.world.records, e.args);
    forall i | 0 <= i < |p|
      ensures (p[i].existingRef == "" <==> q[i].existingRef == "") && p[i].criteriaHash == q[i].criteriaHash
    {
      PlanWindowIsNew(e.texts.digest, s.world.records, e.args, i);
      PlanWindowIsNew(e.texts.digest, s'.world.records, e.args, i);
    }
    FirstNewSame(p, q);
  }

  lemma SubmitTakesNext(e: Env, s: State, op: Op)
    ensures var s' := Apply(e, s, op);
            || s'.submitted == s.submitted
            || (NextHash(e, s).Some? && s'.submitted == s.submitted + [NextHash(e, s).value])
  {
    hide PlanWindows, NewRecord, Upsert, RunVerifyDue, Strip;
  }

  lemma MistypedStep(e: Env, s: State, op: Op)
    requires Started(e, s) && Fresh(e, s, op) && e.typedId != e.args.profileId
    ensures Started(e, Apply(e, s, op)) && NextHash(e, Apply(e, s, op)) == NextHash(e, s)
  {
    hide Taken, NextHash, NamedRefs, Apply, Fresh, New;
    StepAdvances(e, s, op);
    NextFromTaken(e, s, Apply(e, s, op));
  }

  /** Typed in any other way, every accepted submit of a history sends the one window that was new at its
      start. */
  lemma {:induction false} MistypedRepeatsOneWindow(e: Env, s: State, ops: seq<Op>)
    requires Started(e, s) && FreshHistory(e, s, ops) && s.submitted == [] && e.typedId != e.args.profileId
    ensures var s' := Exec(e, s, ops);
            && Started(e, s') && NextHash(e, s') == NextHash(e, s)
            && forall i :: 0 <= i < |s'.submitted| ==> Some(s'.submitted[i]) == NextHash(e, s)
  {
    if ops != [] {
      hide Started, NextHash, Apply, Fresh;
      var n := |ops| - 1;
      MistypedRepeatsOneWindow(e, s, ops[..n]);
      var mid := Exec(e, s, ops[..n]);
      MistypedStep(e, mid, ops[n]);
      SubmitTakesNext(e, mid, ops[n]);
    }
  }

  /** So two accepted submits in a row send it twice. */
  lemma MistypedSubmitsTwice(e: Env, s: State, r: Reply, r': Reply)
    requires Started(e, s) && FreshHistory(e, s, [SubmitNext(r), SubmitNext(r')]) && s.submitted == []
    requires e.typedId != e.args.profileId && New(e, s) > 0
    requires r.Accepted? && Strip(r.idSolicitud) != "" && r'.Accepted? && Strip(r'.idSolicitud) != ""
    ensures NextHash(e, s).Some?
    ensures Exec(e, s, [SubmitNext(r), SubmitNext(r')]).submitted == [NextHash(e, s).value, NextHash(e, s).value]
  {
    hide Started, NextHash, Apply, Fresh, New, Strip;
    var a, b := SubmitNext(r), SubmitNext(r');
    assert [a, b][..1] == [a] && [a][..0] == [];
    assert Exec(e, s, []) == s && Exec(e, s, [a]) == Apply(e, s, a);
    assert FreshHistory(e, s, [a]);
    MistypedNeverAdvancesOnce(e, s, a);
    SubmitsWhileNew(e, s, r);
    SubmitTakesNext(e, s, a);
    MistypedStep(e, s, a);
    SubmitsWhileNew(e, Apply(e, s, a), r');
    SubmitTakesNext(e, Apply(e, s, a), b);
  }

  lemma MistypedNeverAdvancesOnce(e: Env, s: State, op: Op)
    requires Started(e, s) && Fresh(e, s, op) && e.typedId != e.args.profileId
    ensures New(e, Apply(e, s, op)) == New(e, s)
  {
    hide Taken, NextHash, NamedRefs, Apply, Fresh, New;
    StepAdvances(e, s, op);
  }
}
