/** The request registry: two indexes over the submitted requests, at-most-once submission, and package
    ids that only grow. */
module Registry {
  import opened Wrappers
  import opened Domain
  import opened VerifyScheduler

  datatype Submission = Submission(requestId: string, satCode: string, message: string, action: Action)

  datatype Reply = Reply(result: Verification, message: string)

  datatype Key = Key(tenantId: string, criteriaHash: string)

  datatype Registered = Registered(
    key: Key,
    requestId: string,
    submission: Submission,
    state: Option<SatState>,
    action: Option<Action>,
    message: string,
    packageIds: seq<string>)

  datatype Index = Index(byCriteria: map<Key, Registered>, byId: map<string, Registered>)

  /** Calls of the two ports, in order. An answer of `None` is a raised error; `receiver` names the record
      that took a verifier's answer. */
  datatype Call =
    | Submitted(key: Key, submission: Option<Submission>)
    | Verified(requestId: string, reply: Option<Reply>, receiver: Option<Key>)

  datatype Ports = Ports(
    digest: Digest,
    submit: (seq<Call>, DownloadQuery) -> Option<Submission>,
    verify: (seq<Call>, string) -> Option<Reply>)

  datatype State = State(index: Index, calls: seq<Call>)

  const EMPTY_REGISTRY := State(Index(map[], map[]), [])

  function KeyOf(p: Ports, q: DownloadQuery): Key {
    Key(q.tenantId, CriteriaHash(p.digest, q))
  }

  // ----- Package ids -----

  /** `existing`, then the new ones of `incoming` in the order of their first appearance. */
  function AppendUnique(existing: seq<string>, incoming: seq<string>): seq<string> {
    if incoming == [] then existing
    else
      var front := AppendUnique(existing, incoming[..|incoming| - 1]);
      if incoming[|incoming| - 1] in front then front else front + [incoming[|incoming| - 1]]
  }

  predicate NoDuplicates(s: seq<string>) {
    forall i, j :: 0 <= i < j < |s| ==> s[i] != s[j]
  }

  /** Merging only appends, loses nothing, invents nothing and makes no duplicate. */
  lemma {:induction false} AppendUniqueMerges(a: seq<string>, b: seq<string>)
    ensures a <= AppendUnique(a, b)
    ensures forall x :: x in AppendUnique(a, b) <==> x in a || x in b
    ensures NoDuplicates(a) ==> NoDuplicates(AppendUnique(a, b))
  {
    if b != [] {
      AppendUniqueMerges(a, b[..|b| - 1]);
      assert b == b[..|b| - 1] + [b[|b| - 1]];
    }
  }

  /** Merging in two steps is merging once. */
  lemma {:induction false} AppendUniqueConcat(a: seq<string>, b: seq<string>, c: seq<string>)
    ensures AppendUnique(AppendUnique(a, b), c) == AppendUnique(a, b + c)
  {
    if c == [] {
      assert b + c == b;
    } else {
      AppendUniqueConcat(a, b, c[..|c| - 1]);
      assert (b + c)[..|b + c| - 1] == b + c[..|c| - 1];
    }
  }

  /** Hearing the same ids again changes nothing. */
  lemma {:induction false} AppendUniqueAgain(a: seq<string>, b: seq<string>)
    requires forall x :: x in b ==> x in a
    ensures AppendUnique(a, b) == a
  {
    if b != [] {
      AppendUniqueAgain(a, b[..|b| - 1]);
      assert b[|b| - 1] in b;
    }
  }

  // ----- Operations -----

  function Stored(index: Index, r: Registered): Index {
    Index(index.byCriteria[r.key := r], index.byId[r.requestId := r])
  }

  function NewlyRegistered(key: Key, s: Submission): Registered {
    Registered(key, s.requestId, s, None, Some(s.action), s.message, [])
  }

  /** The ids that a reply hands over: those of a finished request. */
  function Handed(v: Reply): seq<string> {
    if v.result.action.ActFinished? then v.result.packageIds else []
  }

  function AfterReply(r: Registered, v: Reply): Registered {
    r.(state := Some(v.result.state), action := Some(v.result.action), message := v.message,
       packageIds := AppendUnique(r.packageIds, Handed(v)))
  }

  function SubmitOnce(p: Ports, s: State, q: DownloadQuery): State {
    var key := KeyOf(p, q);
    if key in s.index.byCriteria then s
    else
      var answer := p.submit(s.calls, q);
      State(if answer.Some? then Stored(s.index, NewlyRegistered(key, answer.value)) else s.index,
            s.calls + [Submitted(key, answer)])
  }

  function PollOnce(p: Ports, s: State, id: string): State {
    var answer := p.verify(s.calls, id);
    if answer.Some? && id in s.index.byId then
      var r := s.index.byId[id];
      State(Stored(s.index, AfterReply(r, answer.value)), s.calls + [Verified(id, answer, Some(r.key))])
    else
      s.(calls := s.calls + [Verified(id, answer, None)])
  }

  datatype Operation = Submit(query: DownloadQuery) | Poll(requestId: string)

  function Step(p: Ports, s: State, op: Operation): State {
    match op
    case Submit(q) => SubmitOnce(p, s, q)
    case Poll(id) => PollOnce(p, s, id)
  }

  function Run(p: Ports, ops: seq<Operation>): State {
    if ops == [] then EMPTY_REGISTRY else Step(p, Run(p, ops[..|ops| - 1]), ops[|ops| - 1])
  }

  // ----- The two indexes agree -----

  /** Every record found by request id is the one stored under its criteria. */
  ghost predicate Agrees(index: Index) {
    && (forall k :: k in index.byCriteria ==>
          index.byCriteria[k].key == k && index.byCriteria[k].requestId in index.byId)
    && (forall id :: id in index.byId ==>
          && index.byId[id].requestId == id && index.byId[id].key in index.byCriteria
          && index.byCriteria[index.byId[id].key] == index.byId[id])
  }

  /** Every record stored under its criteria is the one found by its request id. */
  ghost predicate AgreesBack(index: Index) {
    forall k :: k in index.byCriteria ==>
      index.byCriteria[k].requestId in index.byId && index.byId[index.byCriteria[k].requestId] == index.byCriteria[k]
  }

  ghost predicate DistinctIds(index: Index) {
    forall k, l ::
      (k in index.byCriteria && l in index.byCriteria && index.byCriteria[k].requestId == index.byCriteria[l].requestId)
      ==> k == l
  }

  lemma StoreKeepsAgreement(index: Index, r: Registered)
    requires Agrees(index)
    requires r.key !in index.byCriteria || (r.requestId in index.byId && index.byId[r.requestId].key == r.key)
    ensures Agrees(Stored(index, r))
  {
  }

  lemma {:induction false} IndexesAgree(p: Ports, ops: seq<Operation>)
    ensures Agrees(Run(p, ops).index)
  {
    if ops != [] {
      var s, op := Run(p, ops[..|ops| - 1]), ops[|ops| - 1];
      IndexesAgree(p, ops[..|ops| - 1]);
      match op {
        case Submit(q) =>
          var answer := p.submit(s.calls, q);
          if KeyOf(p, q) !in s.index.byCriteria && answer.Some? {
            StoreKeepsAgreement(s.index, NewlyRegistered(KeyOf(p, q), answer.value));
          }
        case Poll(id) =>
          var answer := p.verify(s.calls, id);
          if answer.Some? && id in s.index.byId {
            StoreKeepsAgreement(s.index, AfterReply(s.index.byId[id], answer.value));
          }
      }
    }
  }

  /** After any history the two indexes agree both ways exactly when no two criteria were given the same
      request id. */
  lemma AgreementExactly(p: Ports, ops: seq<Operation>)
    ensures AgreesBack(Run(p, ops).index) <==> DistinctIds(Run(p, ops).index)
  {
    IndexesAgree(p, ops);
  }

  // ----- At most one submission -----

  predicate Accepted(c: Call, k: Key) {
    c.Submitted? && c.key == k && c.submission.Some?
  }

  ghost predicate OnceEach(s: State) {
    && (forall k :: k in s.index.byCriteria <==> exists i :: 0 <= i < |s.calls| && Accepted(s.calls[i], k))
    && (forall i, j ::
          (0 <= i < j < |s.calls| && s.calls[i].Submitted? && s.calls[j].Submitted? && s.calls[i].key == s.calls[j].key)
          ==> s.calls[i].submission.None?)
  }

  lemma SubmitKeepsOnce(p: Ports, s: State, q: DownloadQuery)
    requires OnceEach(s)
    ensures OnceEach(SubmitOnce(p, s, q))
  {
    var t, k := SubmitOnce(p, s, q), KeyOf(p, q);
    if k !in s.index.byCriteria {
      var n := |s.calls|;
      assert t.calls[..n] == s.calls;
      forall l
        ensures l in t.index.byCriteria <==> exists i :: 0 <= i < n + 1 && Accepted(t.calls[i], l)
      {
        if exists i :: 0 <= i < n && Accepted(s.calls[i], l) {
          var i :| 0 <= i < n && Accepted(s.calls[i], l);
          assert Accepted(t.calls[i], l);
        }
        if l == k && t.calls[n].submission.Some? {
          assert Accepted(t.calls[n], k);
        }
        if exists i :: 0 <= i < n + 1 && Accepted(t.calls[i], l) {
          var i :| 0 <= i < n + 1 && Accepted(t.calls[i], l);
          assert i < n ==> Accepted(s.calls[i], l);
        }
      }
      forall i | 0 <= i < n && s.calls[i].Submitted? && s.calls[i].key == k
        ensures s.calls[i].submission.None?
      {
        assert Accepted(s.calls[i], k) <==> s.calls[i].submission.Some?;
      }
    }
  }

  /** A poll changes at most the one record that it finds, and is logged as one call. */
  lemma PollShape(p: Ports, s: State, id: string)
    requires Agrees(s.index)
    ensures var t := PollOnce(p, s, id);
            && |t.calls| == |s.calls| + 1 && t.calls[..|s.calls|] == s.calls && t.calls[|s.calls|].Verified?
            && t.index.byCriteria.Keys == s.index.byCriteria.Keys
  {
  }

  lemma PollKeepsOnce(p: Ports, s: State, id: string)
    requires OnceEach(s) && Agrees(s.index)
    ensures OnceEach(PollOnce(p, s, id))
  {
    PollShape(p, s, id);
    hide Agrees, PollOnce;
    var t, n := PollOnce(p, s, id), |s.calls|;
    assert forall i :: 0 <= i < n ==> t.calls[..n][i] == t.calls[i];
    forall l
      ensures l in t.index.byCriteria <==> exists i :: 0 <= i < n + 1 && Accepted(t.calls[i], l)
    {
      assert l in t.index.byCriteria <==> l in s.index.byCriteria;
      if i :| 0 <= i < n && Accepted(s.calls[i], l) {
        assert Accepted(t.calls[i], l);
      }
      if i :| 0 <= i < n + 1 && Accepted(t.calls[i], l) {
        assert i < n && Accepted(s.calls[i], l);
      }
    }
  }

  /** Over any history, a tenant's criteria are registered exactly when a submission of theirs was
      answered, and after that answer the requester is never called for them again. */
  lemma {:induction false} SubmittedAtMostOnce(p: Ports, ops: seq<Operation>)
    ensures OnceEach(Run(p, ops))
  {
    hide OnceEach, Agrees;
    if ops == [] {
      EmptyIsOnce();
    } else {
      var front := ops[..|ops| - 1];
      SubmittedAtMostOnce(p, front);
      IndexesAgree(p, front);
      match ops[|ops| - 1] {
        case Submit(q) => SubmitKeepsOnce(p, Run(p, front), q);
        case Poll(id) => PollKeepsOnce(p, Run(p, front), id);
      }
    }
  }

  lemma EmptyIsOnce()
    ensures OnceEach(EMPTY_REGISTRY)
  {
  }

  /** The same meaning gets the same record without a call; another meaning or tenant is a call of its own. */
  lemma RepeatExactly(p: Ports, s: State, q: DownloadQuery, r: DownloadQuery)
    requires Injective(p.digest) && KeyOf(p, r) !in s.index.byCriteria
    requires p.submit(s.calls, q).Some? && KeyOf(p, q) !in s.index.byCriteria
    ensures var t := SubmitOnce(p, s, q);
            SubmitOnce(p, t, r).calls == t.calls <==> SameCriteria(q, r)
  {
    SameHashExactly(p.digest, q, r);
    hide SameCriteria, CriteriaHash;
    var t := SubmitOnce(p, s, q);
    assert KeyOf(p, r) in t.index.byCriteria <==> KeyOf(p, q) == KeyOf(p, r);
    if KeyOf(p, r) !in t.index.byCriteria {
      assert |SubmitOnce(p, t, r).calls| == |t.calls| + 1;
    }
    SameTenant(q, r);
  }

  lemma SameTenant(q: DownloadQuery, r: DownloadQuery)
    ensures SameCriteria(q, r) ==> q.tenantId == r.tenantId
  {
  }

  // ----- Package ids over a history -----

  /** All ids that the verifier handed over for `k`, call by call. */
  function Delivered(calls: seq<Call>, k: Key): seq<string> {
    if calls == [] then []
    else
      var front, c := Delivered(calls[..|calls| - 1], k), calls[|calls| - 1];
      if c.Verified? && c.receiver == Some(k) && c.reply.Some? then front + Handed(c.reply.value) else front
  }

  ghost predicate Complete(s: State) {
    && (forall k :: k in s.index.byCriteria ==>
          s.index.byCriteria[k].packageIds == AppendUnique([], Delivered(s.calls, k)))
    && (forall k :: k !in s.index.byCriteria ==> Delivered(s.calls, k) == [])
  }

  lemma SubmitKeepsComplete(p: Ports, s: State, q: DownloadQuery)
    requires Complete(s)
    ensures Complete(SubmitOnce(p, s, q))
  {
    var t := SubmitOnce(p, s, q);
    if KeyOf(p, q) !in s.index.byCriteria {
      assert t.calls[..|s.calls|] == s.calls;
      assert forall k :: Delivered(t.calls, k) == Delivered(s.calls, k);
    }
  }

  lemma DeliveredPush(calls: seq<Call>, c: Call, k: Key)
    ensures Delivered(calls + [c], k)
            == if c.Verified? && c.receiver == Some(k) && c.reply.Some? then Delivered(calls, k) + Handed(c.reply.value)
               else Delivered(calls, k)
  {
    assert (calls + [c])[..|calls|] == calls;
  }

  lemma PollKeepsComplete(p: Ports, s: State, id: string)
    requires Complete(s) && Agrees(s.index)
    ensures Complete(PollOnce(p, s, id))
  {
    hide Delivered, AppendUnique, Handed;
    var t, answer := PollOnce(p, s, id), p.verify(s.calls, id);
    var taken := answer.Some? && id in s.index.byId;
    forall k
      ensures Delivered(t.calls, k)
              == if taken && k == s.index.byId[id].key then Delivered(s.calls, k) + Handed(answer.value)
                 else Delivered(s.calls, k)
    {
      DeliveredPush(s.calls, Verified(id, answer, if taken then Some(s.index.byId[id].key) else None), k);
    }
    if taken {
      AppendUniqueConcat([], Delivered(s.calls, s.index.byId[id].key), Handed(answer.value));
    }
  }

  lemma {:induction false} HistoryIsComplete(p: Ports, ops: seq<Operation>)
    ensures Complete(Run(p, ops))
  {
    hide Complete, Agrees;
    if ops == [] {
      EmptyIsComplete();
    } else {
      var front := ops[..|ops| - 1];
      HistoryIsComplete(p, front);
      IndexesAgree(p, front);
      match ops[|ops| - 1] {
        case Submit(q) => SubmitKeepsComplete(p, Run(p, front), q);
        case Poll(id) => PollKeepsComplete(p, Run(p, front), id);
      }
    }
  }

  lemma EmptyIsComplete()
    ensures Complete(EMPTY_REGISTRY)
  {
  }

  /** Over any history, a record's package ids are the ids of its finished verifications, each once, in
      the order of their first appearance. */
  lemma PackageIdsAreDelivered(p: Ports, ops: seq<Operation>, k: Key)
    requires k in Run(p, ops).index.byCriteria
    ensures var s := Run(p, ops);
            var ids := s.index.byCriteria[k].packageIds;
            && ids == AppendUnique([], Delivered(s.calls, k))
            && NoDuplicates(ids)
            && forall x :: x in ids <==> x in Delivered(s.calls, k)
  {
    HistoryIsComplete(p, ops);
    AppendUniqueMerges([], Delivered(Run(p, ops).calls, k));
  }

  /** The ids that one call brought to `k`: those of a finished reply that its record took. */
  ghost predicate Brings(c: Call, k: Key, id: string) {
    && c.Verified? && c.receiver == Some(k) && c.reply.Some?
    && c.reply.value.result.action == ActFinished && id in c.reply.value.result.packageIds
  }

  lemma {:induction false} DeliveredIs(calls: seq<Call>, k: Key, id: string)
    ensures id in Delivered(calls, k) <==> exists i :: 0 <= i < |calls| && Brings(calls[i], k, id)
  {
    if calls != [] {
      var n := |calls| - 1;
      DeliveredIs(calls[..n], k, id);
      assert forall i :: 0 <= i < n ==> calls[..n][i] == calls[i];
      if id in Delivered(calls[..n], k) {
        var i :| 0 <= i < n && Brings(calls[..n][i], k, id);
        assert Brings(calls[i], k, id);
      }
      if Brings(calls[n], k, id) {
        assert id in Delivered(calls, k);
      }
    }
  }

  /** Over any history, an id is among a record's package ids exactly when some finished reply that the record
      took lists it. */
  lemma PackageIdsExactly(p: Ports, ops: seq<Operation>, k: Key, id: string)
    requires k in Run(p, ops).index.byCriteria
    ensures var s := Run(p, ops);
            id in s.index.byCriteria[k].packageIds <==> exists i :: 0 <= i < |s.calls| && Brings(s.calls[i], k, id)
  {
    hide Run, Delivered, Brings, AppendUnique;
    PackageIdsAreDelivered(p, ops, k);
    DeliveredIs(Run(p, ops).calls, k, id);
  }

  /** What a submission registers: the answer under the query's tenant and hash, with nothing known of its
      verification. */
  lemma SubmitRegisters(p: Ports, s: State, q: DownloadQuery)
    requires var k := Key(q.tenantId, CriteriaHash(p.digest, q)); k !in s.index.byCriteria
    ensures var answer, t := p.submit(s.calls, q), SubmitOnce(p, s, q);
            var k := Key(q.tenantId, CriteriaHash(p.digest, q));
            && t.calls == s.calls + [Submitted(k, answer)]
            && (answer.None? ==> t.index == s.index)
            && (answer.Some? ==>
                  var r := Registered(k, answer.value.requestId, answer.value, None, Some(answer.value.action),
                                      answer.value.message, []);
                  && t.index.byCriteria == s.index.byCriteria[k := r]
                  && t.index.byId == s.index.byId[answer.value.requestId := r])
  {
    hide CriteriaHash;
  }

  /** What a poll records: the reply's state, action and message, in both indexes; ids only of a finished
      reply; and nothing for an id that is not registered or a verifier that raises. */
  lemma PollRecords(p: Ports, s: State, id: string)
    ensures var answer, t := p.verify(s.calls, id), PollOnce(p, s, id);
            && (answer.None? || id !in s.index.byId
                ==> t.index == s.index && t.calls == s.calls + [Verified(id, answer, None)])
            && (answer.Some? && id in s.index.byId ==>
                  var was, v := s.index.byId[id], answer.value;
                  var ids := if v.result.action == ActFinished then AppendUnique(was.packageIds, v.result.packageIds)
                             else was.packageIds;
                  var r := Registered(was.key, was.requestId, was.submission, Some(v.result.state),
                                      Some(v.result.action), v.message, ids);
                  && t.index.byCriteria == s.index.byCriteria[was.key := r]
                  && t.index.byId == s.index.byId[was.requestId := r]
                  && t.calls == s.calls + [Verified(id, answer, Some(was.key))])
  {
    assert AppendUnique([], []) == [];
  }

  /** Nothing that is registered is ever lost: ids only grow at the end, request and submission stay. */
  lemma RecordsOnlyGrow(p: Ports, s: State, op: Operation, k: Key)
    requires Agrees(s.index) && k in s.index.byCriteria
    ensures var t := Step(p, s, op);
            && k in t.index.byCriteria
            && t.index.byCriteria[k].requestId == s.index.byCriteria[k].requestId
            && t.index.byCriteria[k].submission == s.index.byCriteria[k].submission
            && s.index.byCriteria[k].packageIds <= t.index.byCriteria[k].packageIds
  {
    if op.Poll? && op.requestId in s.index.byId {
      var answer := p.verify(s.calls, op.requestId);
      if answer.Some? {
        AppendUniqueMerges(s.index.byId[op.requestId].packageIds, Handed(answer.value));
      }
    }
  }

  /** Two tenants whose requests get one id: the first record can no longer be found by it. */
  lemma SharedId(digest: Digest, q: DownloadQuery)
    ensures var answer := Submission("r", "", "", ActAccepted);
            var p := Ports(digest, (calls: seq<Call>, query: DownloadQuery) => Some(answer),
                           (calls: seq<Call>, id: string) => None);
            var a, b := q.(tenantId := "a"), q.(tenantId := "b");
            var index := Run(p, [Submit(a), Submit(b)]).index;
            && KeyOf(p, a) in index.byCriteria && index.byCriteria[KeyOf(p, a)].requestId == "r"
            && "r" in index.byId && index.byId["r"].key == KeyOf(p, b) && KeyOf(p, b) != KeyOf(p, a)
            && !AgreesBack(index)
  {
    var answer := Submission("r", "", "", ActAccepted);
    var p := Ports(digest, (calls: seq<Call>, query: DownloadQuery) => Some(answer),
                   (calls: seq<Call>, id: string) => None);
    var a, b := q.(tenantId := "a"), q.(tenantId := "b");
    hide CriteriaHash;
    assert KeyOf(p, a).tenantId == "a" && KeyOf(p, b).tenantId == "b" && "a" != "b" by { assert "a"[0] != "b"[0]; }
    assert [Submit(a), Submit(b)][..1] == [Submit(a)] && [Submit(a)][..0] == [];
    assert Run(p, []) == EMPTY_REGISTRY;
    assert Run(p, [Submit(a)]) == SubmitOnce(p, EMPTY_REGISTRY, a);
    assert Run(p, [Submit(a), Submit(b)]) == SubmitOnce(p, SubmitOnce(p, EMPTY_REGISTRY, a), b);
  }
}
