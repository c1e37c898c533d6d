/** The registry object and the orchestrator that submits and polls through it. */
module RegistryService {
  import opened Wrappers
  import opened Domain
  import opened VerifyScheduler
  import opened Registry

  method MergePackageIds(existing: seq<string>, incoming: seq<string>) returns (merged: seq<string>)
    ensures merged == AppendUnique(existing, incoming)
    ensures existing <= merged && forall x :: x in merged <==> x in existing || x in incoming
    ensures NoDuplicates(existing) ==> NoDuplicates(merged)
  {
    merged := existing;
    var seen := set x | x in existing;
    for i := 0 to |incoming|
      invariant merged == AppendUnique(existing, incoming[..i])
      invariant forall x :: x in seen <==> x in merged
    {
      assert incoming[..i + 1][..i] == incoming[..i];
      if incoming[i] !in seen {
        merged := merged + [incoming[i]];
        seen := seen + {incoming[i]};
      }
    }
    assert incoming[..|incoming|] == incoming;
    AppendUniqueMerges(existing, incoming);
  }

  class RequestRegistry {
    var byCriteria: map<Key, Registered>
    var byId: map<string, Registered>

    function Contents(): Index
      reads this
    {
      Index(byCriteria, byId)
    }

    constructor ()
      ensures Contents() == Index(map[], map[])
    {
      byCriteria, byId := map[], map[];
    }

    function Find(key: Key): (r: Option<Registered>)
      reads this
      ensures r.Some? <==> key in byCriteria
      ensures r.Some? ==> r.value == byCriteria[key]
    {
      if key in byCriteria then Some(byCriteria[key]) else None
    }

    method Store(r: Registered)
      modifies this
      ensures Contents() == Stored(old(Contents()), r)
    {
      byCriteria := byCriteria[r.key := r];
      byId := byId[r.requestId := r];
    }

    method RegisterSubmission(key: Key, s: Submission) returns (r: Registered)
      modifies this
      ensures key in old(byCriteria) ==> r == old(byCriteria)[key] && Contents() == old(Contents())
      ensures key !in old(byCriteria) ==>
        r == NewlyRegistered(key, s) && Contents() == Stored(old(Contents()), r)
    {
      var existing := Find(key);
      if existing.Some? {
        return existing.value;
      }
      r := Registered(key, s.requestId, s, None, Some(s.action), s.message, []);
      Store(r);
    }

    method RecordVerification(id: string, state: SatState, action: Action, message: string, packageIds: seq<string>)
      returns (r: Option<Registered>)
      modifies this
      ensures r.None? <==> id !in old(byId)
      ensures r.None? ==> Contents() == old(Contents())
      ensures r.Some? ==>
        var was := old(byId)[id];
        && Contents() == Stored(old(Contents()), r.value)
        && r.value == was.(state := Some(state), action := Some(action), message := message,
                           packageIds := r.value.packageIds)
        && r.value.packageIds == AppendUnique(was.packageIds, if action.ActFinished? then packageIds else [])
    {
      if id !in byId {
        return None;
      }
      var registered := byId[id];
      var merged := MergePackageIds(registered.packageIds, packageIds);
      var updated := registered.(
        state := Some(state), action := Some(action), message := message,
        packageIds := if action.ActFinished? then merged else registered.packageIds);
      Store(updated);
      return Some(updated);
    }
  }

  /** Calls of the ports are kept in `calls`; an answer of `None` is an error that the caller sees. */
  class DownloadRequestOrchestrator {
    const ports: Ports
    const registry: RequestRegistry
    var calls: seq<Call>

    constructor (ports: Ports, registry: RequestRegistry)
      ensures this.ports == ports && this.registry == registry && calls == []
    {
      this.ports, this.registry := ports, registry;
      calls := [];
    }

    function Now(): State
      reads this, registry
    {
      State(registry.Contents(), calls)
    }

    method SubmitOnce(q: DownloadQuery) returns (r: Option<Registered>)
      modifies this, registry
      ensures Now() == Registry.SubmitOnce(ports, old(Now()), q)
      ensures r.Some? <==> KeyOf(ports, q) in registry.byCriteria
      ensures r.Some? ==> r.value == registry.byCriteria[KeyOf(ports, q)]
    {
      var key := KeyOf(ports, q);
      var existing := registry.Find(key);
      if existing.Some? {
        return existing;
      }
      var answer := ports.submit(calls, q);
      calls := calls + [Submitted(key, answer)];
      if answer.None? {
        return None;
      }
      var registered := registry.RegisterSubmission(key, answer.value);
      return Some(registered);
    }

    method PollOnce(id: string) returns (r: Option<Registered>)
      modifies this, registry
      ensures Now() == Registry.PollOnce(ports, old(Now()), id)
      ensures r.Some? ==> id in old(registry.byId) && r.value.requestId in registry.byId
      ensures r.Some? ==> registry.byId[r.value.requestId] == r.value
      ensures r.None? ==> registry.Contents() == old(registry.Contents())
    {
      var answer := ports.verify(calls, id);
      if answer.None? {
        calls := calls + [Verified(id, answer, None)];
        return None;
      }
      var v := answer.value;
      var packageIds := if v.result.action.ActFinished? then v.result.packageIds else [];
      r := registry.RecordVerification(id, v.result.state, v.result.action, v.message, packageIds);
      calls := calls + [Verified(id, answer, if r.Some? then Some(r.value.key) else None)];
    }
  }
}
