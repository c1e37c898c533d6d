/** Histories of downloaded packages, good and bad, on the local store and in memory. */
module PackageHistory {
  import opened Wrappers
  import opened Text
  import opened Sorting
  import opened PackageNames
  import opened PackageStores
  import opened PackageMembers
  import opened Packages

  datatype Job = Job(id: string, allowed: set<string>, content: Bytes)

  const NO_OBJECTS: Storage := Memory(map[])
  const NO_FILES: Storage := Local(map[])

  function Done(z: Zip, s: Storage, job: Job): (Storage, Result<Processed, Rejection>) {
    Process(z, s, job.id, job.allowed, job.content)
  }

  function Run(z: Zip, start: Storage, jobs: seq<Job>): Storage {
    if jobs == [] then start else Done(z, Run(z, start, jobs[..|jobs| - 1]), jobs[|jobs| - 1]).0
  }

  predicate Good(z: Zip, job: Job) {
    Acceptable(z, job.id, job.allowed, job.content)
  }

  function StemOf(z: Zip, job: Job): string
    requires Segment(job.id).Ok?
  {
    StemFor(z, job.id, job.content)
  }

  /** The bytes of the first acceptable package of the history with this stem. */
  function First(z: Zip, jobs: seq<Job>, stem: string): Option<Bytes> {
    if jobs == [] then None
    else
      var before, job := First(z, jobs[..|jobs| - 1], stem), jobs[|jobs| - 1];
      if before.Some? then before
      else if Good(z, job) && StemOf(z, job) == stem then Some(job.content)
      else None
  }

  function FirstFor(z: Zip, jobs: seq<Job>, job: Job): Option<Bytes> {
    if Segment(job.id).Ok? then First(z, jobs, StemOf(z, job)) else None
  }

  /** The packages that the history offers have different digests. */
  ghost predicate DigestsDiffer(z: Zip, jobs: seq<Job>) {
    forall i, j ::
      0 <= i < |jobs| && 0 <= j < |jobs| && z.sha(jobs[i].content) == z.sha(jobs[j].content)
      ==> jobs[i].content == jobs[j].content
  }

  lemma {:induction false} FirstIsOffered(z: Zip, jobs: seq<Job>, stem: string)
    requires First(z, jobs, stem).Some?
    ensures exists i ::
              0 <= i < |jobs| && Good(z, jobs[i]) && StemOf(z, jobs[i]) == stem
              && First(z, jobs, stem) == Some(jobs[i].content)
  {
    var n := |jobs| - 1;
    if First(z, jobs[..n], stem).Some? {
      FirstIsOffered(z, jobs[..n], stem);
      var i :| 0 <= i < n && Good(z, jobs[..n][i]) && StemOf(z, jobs[..n][i]) == stem
               && First(z, jobs[..n], stem) == Some(jobs[..n][i].content);
      assert jobs[i] == jobs[..n][i];
    }
  }

  ghost predicate Starts(start: Storage) {
    start == NO_OBJECTS || start == NO_FILES
  }

  /** A reachable store: every package whole as far as it can be, and under each package's key the first
      acceptable package of that stem. */
  ghost predicate Reached(z: Zip, start: Storage, jobs: seq<Job>, s: Storage) {
    && Whole(z, s) && s.Local? == start.Local?
    && forall stem :: GoodStem(stem) ==> Held(s, PackageKey(stem)) == First(z, jobs, stem)
  }

  lemma ToldFromHistory(z: Zip, start: Storage, jobs: seq<Job>, job: Job, s: Storage)
    requires HexDigests(z) && Reached(z, start, jobs, s) && Segment(job.id).Ok?
    requires start.Local? ==> DigestsDiffer(z, jobs + [job])
    ensures ToldFrom(z, s, Earlier(z, s, job.id, job.content), job.content)
    ensures Earlier(z, s, job.id, job.content) == FirstFor(z, jobs, job)
  {
    hide Segment, GoodStem, Held, PackageKey, Whole, Stem, First, SafeMembers;
    StemIsGood(z, job.id, job.content);
    var stem := StemOf(z, job);
    if First(z, jobs, stem).Some? {
      FirstIsOffered(z, jobs, stem);
      var i :| 0 <= i < |jobs| && Good(z, jobs[i]) && StemOf(z, jobs[i]) == stem
               && First(z, jobs, stem) == Some(jobs[i].content);
      assert (jobs + [job])[i] == jobs[i] && (jobs + [job])[|jobs|] == job;
    }
  }

  /** Over any history every package that is stored came first under its stem, all its members that can
      be stored are, and no member is stored without its package. */
  lemma {:induction false} HistoryIsWhole(z: Zip, start: Storage, jobs: seq<Job>)
    requires HexDigests(z) && Starts(start) && (start.Local? ==> DigestsDiffer(z, jobs))
    ensures Reached(z, start, jobs, Run(z, start, jobs))
  {
    if jobs == [] {
      EmptyIsWhole(z, start);
    } else {
      hide Starts, DigestsDiffer, Reached, Done;
      var n := |jobs| - 1;
      DifferBefore(z, jobs, n);
      HistoryIsWhole(z, start, jobs[..n]);
      assert jobs == jobs[..n] + [jobs[n]];
      ReachedNext(z, start, jobs[..n], jobs[n], Run(z, start, jobs[..n]));
    }
  }

  lemma EmptyIsWhole(z: Zip, start: Storage)
    requires Starts(start)
    ensures Reached(z, start, [], start)
  {
    hide EntryKey, PackageKey;
    forall key
      ensures Held(start, key) == None
    {
    }
  }

  lemma DifferBefore(z: Zip, jobs: seq<Job>, n: nat)
    requires n <= |jobs|
    ensures DigestsDiffer(z, jobs) ==> DigestsDiffer(z, jobs[..n])
  {
  }

  lemma ReachedNext(z: Zip, start: Storage, jobs: seq<Job>, job: Job, s: Storage)
    requires HexDigests(z) && Reached(z, start, jobs, s)
    requires start.Local? ==> DigestsDiffer(z, jobs + [job])
    ensures Reached(z, start, jobs + [job], Done(z, s, job).0)
    ensures Done(z, s, job).1 == Fate(z, start.Local?, FirstFor(z, jobs, job), job.id, job.allowed, job.content)
    ensures Extends(s, Done(z, s, job).0)
    ensures Done(z, s, job).0 == s <==> !Good(z, job) || FirstFor(z, jobs, job).Some?
  {
    hide Segment, GoodStem, Held, PackageKey, Whole, Stem, Process, Fate, DigestsDiffer, ToldFrom, HexDigests, Extends;
    if Segment(job.id).Ok? {
      ToldFromHistory(z, start, jobs, job, s);
      StemIsGood(z, job.id, job.content);
    }
    ProcessIs(z, s, job.id, job.allowed, job.content);
    assert (jobs + [job])[..|jobs|] == jobs;
    var after := Done(z, s, job).0;
    forall stem | GoodStem(stem)
      ensures Held(after, PackageKey(stem)) == First(z, jobs + [job], stem)
    {
      if Good(z, job) && StemOf(z, job) != stem {
        KeyOfPackage(stem);
        assert PackageStores.Good(PackageSlot(stem));
      }
    }
  }

  /** Over any history bytes under a key never change: a longer history only adds keys. */
  lemma {:induction false} WriteOnce(z: Zip, start: Storage, jobs: seq<Job>, more: seq<Job>)
    requires HexDigests(z) && Starts(start) && (start.Local? ==> DigestsDiffer(z, jobs + more))
    ensures Extends(Run(z, start, jobs), Run(z, start, jobs + more))
  {
    hide Starts, DigestsDiffer, Reached, Done, Extends;
    if more == [] {
      assert jobs + more == jobs;
      ExtendsItself(Run(z, start, jobs));
    } else {
      var n, all := |more| - 1, jobs + more;
      var front := jobs + more[..n];
      assert all[..|all| - 1] == front && all == front + [more[n]];
      DifferBefore(z, all, |all| - 1);
      WriteOnce(z, start, jobs, more[..n]);
      HistoryIsWhole(z, start, front);
      ReachedNext(z, start, front, more[n], Run(z, start, front));
      ExtendsOn(Run(z, start, jobs), Run(z, start, front), Run(z, start, all));
    }
  }

  lemma ExtendsOn(a: Storage, b: Storage, c: Storage)
    requires Extends(a, b) && Extends(b, c)
    ensures Extends(a, c)
  {
    hide Held, KeyOf;
  }

  /** The result of any package after any history, on either store. */
  lemma ResultIs(z: Zip, start: Storage, jobs: seq<Job>, job: Job)
    requires HexDigests(z) && Starts(start) && (start.Local? ==> DigestsDiffer(z, jobs + [job]))
    ensures Done(z, Run(z, start, jobs), job).1
            == Fate(z, start.Local?, FirstFor(z, jobs, job), job.id, job.allowed, job.content)
    ensures Done(z, Run(z, start, jobs), job).0 == Run(z, start, jobs)
            <==> !Good(z, job) || FirstFor(z, jobs, job).Some?
  {
    hide Done, Fate, DigestsDiffer, Reached, Good, Segment, First;
    DifferBefore(z, jobs + [job], |jobs|);
    assert (jobs + [job])[..|jobs|] == jobs;
    HistoryIsWhole(z, start, jobs);
    ReachedNext(z, start, jobs, job, Run(z, start, jobs));
  }

  lemma {:induction false} FirstStays(z: Zip, jobs: seq<Job>, more: seq<Job>, stem: string)
    requires First(z, jobs, stem).Some?
    ensures First(z, jobs + more, stem) == First(z, jobs, stem)
  {
    if more == [] {
      assert jobs + more == jobs;
    } else {
      var n := |more| - 1;
      assert (jobs + more)[..|jobs + more| - 1] == jobs + more[..n];
      FirstStays(z, jobs, more[..n], stem);
    }
  }

  /** A package that was taken once is taken again after any further history: nothing is written, and the
      result is the same except for the `written` flags. */
  lemma ReprocessChangesNothing(z: Zip, start: Storage, jobs: seq<Job>, job: Job, more: seq<Job>)
    requires HexDigests(z) && Starts(start) && (start.Local? ==> DigestsDiffer(z, jobs + [job] + more + [job]))
    requires Done(z, Run(z, start, jobs), job).1.Ok?
    ensures var p := Done(z, Run(z, start, jobs), job).1.value;
            var s := Run(z, start, jobs + [job] + more);
            var (after, r) := Done(z, s, job);
            && after == s && r.Ok? && !r.value.written
            && r.value == p.(written := false, entries := r.value.entries)
            && |r.value.entries| == |p.entries|
            && forall i :: 0 <= i < |p.entries| ==> r.value.entries[i] == p.entries[i].(written := false)
  {
    hide Run, Done, Segment, SafeMembers, Nested, DigestsDiffer, Starts, HexDigests, First, Fate, Good;
    var all := jobs + [job] + more + [job];
    DifferBefore(z, all, |jobs| + 1);
    assert all[..|jobs| + 1] == jobs + [job];
    ResultIs(z, start, jobs, job);
    ResultIs(z, start, jobs + [job] + more, job);
    TakenThenKept(z, start.Local?, jobs, job, more);
  }

  lemma TakenThenKept(z: Zip, local: bool, jobs: seq<Job>, job: Job, more: seq<Job>)
    requires Fate(z, local, FirstFor(z, jobs, job), job.id, job.allowed, job.content).Ok?
    ensures var p := Fate(z, local, FirstFor(z, jobs, job), job.id, job.allowed, job.content).value;
            var later := FirstFor(z, jobs + [job] + more, job);
            var r := Fate(z, local, later, job.id, job.allowed, job.content);
            && later.Some? && r.Ok? && !r.value.written
            && r.value == p.(written := false, entries := r.value.entries)
            && |r.value.entries| == |p.entries|
            && forall i :: 0 <= i < |p.entries| ==> r.value.entries[i] == p.entries[i].(written := false)
  {
    hide Segment, SafeMembers, Nested, Stem, Suffix, StripDots, EntryKey, PackageKey, Lower, First;
    TakenIsFirst(z, jobs, job);
    FirstStays(z, jobs + [job], more, StemOf(z, job));
  }

  lemma TakenIsFirst(z: Zip, jobs: seq<Job>, job: Job)
    requires Good(z, job) && (FirstFor(z, jobs, job).None? || FirstFor(z, jobs, job) == Some(job.content))
    ensures First(z, jobs + [job], StemOf(z, job)) == Some(job.content)
  {
    hide Segment, SafeMembers, Stem;
    assert (jobs + [job])[..|jobs|] == jobs;
  }

  /** A package collides exactly when it is acceptable and the first acceptable package of its stem had
      other bytes. */
  lemma CollidesExactly(z: Zip, start: Storage, jobs: seq<Job>, job: Job)
    requires HexDigests(z) && Starts(start) && (start.Local? ==> DigestsDiffer(z, jobs + [job]))
    ensures Done(z, Run(z, start, jobs), job).1 == Err(Collision) <==>
            Good(z, job) && FirstFor(z, jobs, job).Some? && FirstFor(z, jobs, job) != Some(job.content)
  {
    ResultIs(z, start, jobs, job);
    RejectionsAreNotCollisions(z, job);
    hide Run, Done, Segment, SafeMembers, Nested, DigestsDiffer, Starts, HexDigests, Stem, First;
  }

  lemma RejectionsAreNotCollisions(z: Zip, job: Job)
    ensures Segment(job.id) != Err(Collision) && SafeMembers(z, Extensions(job.allowed), job.content) != Err(Collision)
  {
    if z.list(job.content).Some? {
      AcceptNeverCollides(Extensions(job.allowed), z.list(job.content).value);
    }
  }

  lemma {:induction false} AcceptNeverCollides(allowed: set<string>, infos: seq<ZipEntry>)
    ensures Accept(allowed, infos) != Err(Collision)
  {
    hide Lower, Parts, Suffix, PosixName;
    if infos != [] {
      AcceptNeverCollides(allowed, infos[..|infos| - 1]);
    }
  }

  /** No package of a history collides. */
  ghost predicate NoneCollides(z: Zip, start: Storage, jobs: seq<Job>) {
    forall j :: 0 <= j < |jobs| ==> Done(z, Run(z, start, jobs[..j]), jobs[j]).1 != Err(Collision)
  }

  /** Packages of one key have the same bytes. */
  ghost predicate KeysTellPackages(z: Zip, jobs: seq<Job>) {
    forall i, j ::
      0 <= i < j < |jobs| && Good(z, jobs[i]) && Good(z, jobs[j]) && StemOf(z, jobs[i]) == StemOf(z, jobs[j])
      ==> jobs[i].content == jobs[j].content
  }

  lemma CollidesAt(z: Zip, start: Storage, jobs: seq<Job>, j: nat)
    requires HexDigests(z) && Starts(start) && (start.Local? ==> DigestsDiffer(z, jobs)) && j < |jobs|
    ensures Done(z, Run(z, start, jobs[..j]), jobs[j]).1 == Err(Collision) <==>
            Good(z, jobs[j]) && FirstFor(z, jobs[..j], jobs[j]).Some?
            && FirstFor(z, jobs[..j], jobs[j]) != Some(jobs[j].content)
  {
    assert jobs[..j + 1] == jobs[..j] + [jobs[j]];
    DifferBefore(z, jobs, j + 1);
    hide DigestsDiffer, Starts, HexDigests, Good, FirstFor, Done, Run;
    CollidesExactly(z, start, jobs[..j], jobs[j]);
  }

  /** Nothing of a history collides exactly when all its acceptable packages of one key have the same
      bytes. */
  lemma NoneCollidesExactly(z: Zip, start: Storage, jobs: seq<Job>)
    requires HexDigests(z) && Starts(start) && (start.Local? ==> DigestsDiffer(z, jobs))
    ensures NoneCollides(z, start, jobs) <==> KeysTellPackages(z, jobs)
  {
    hide Done, Run, DigestsDiffer, Starts, HexDigests, SafeMembers, Stem, Segment, First;
    if KeysTellPackages(z, jobs) {
      forall j | 0 <= j < |jobs|
        ensures Done(z, Run(z, start, jobs[..j]), jobs[j]).1 != Err(Collision)
      {
        CollidesAt(z, start, jobs, j);
        if Good(z, jobs[j]) && FirstFor(z, jobs[..j], jobs[j]).Some? {
          FirstInFront(z, jobs, j);
        }
      }
    }
    if NoneCollides(z, start, jobs) {
      forall i, j | 0 <= i < j < |jobs| && Good(z, jobs[i]) && Good(z, jobs[j])
                    && StemOf(z, jobs[i]) == StemOf(z, jobs[j])
        ensures jobs[i].content == jobs[j].content
      {
        CollidesAt(z, start, jobs, i);
        CollidesAt(z, start, jobs, j);
        FirstAfter(z, jobs, i, j);
      }
    }
  }

  lemma FirstInFront(z: Zip, jobs: seq<Job>, j: nat)
    requires j < |jobs| && Good(z, jobs[j]) && FirstFor(z, jobs[..j], jobs[j]).Some? && KeysTellPackages(z, jobs)
    ensures FirstFor(z, jobs[..j], jobs[j]) == Some(jobs[j].content)
  {
    hide Stem, First, Segment, SafeMembers;
    FirstIsOffered(z, jobs[..j], StemOf(z, jobs[j]));
    var i :| 0 <= i < j && Good(z, jobs[..j][i]) && StemOf(z, jobs[..j][i]) == StemOf(z, jobs[j])
             && First(z, jobs[..j], StemOf(z, jobs[j])) == Some(jobs[..j][i].content);
    assert jobs[..j][i] == jobs[i];
  }

  /** Behind an acceptable package its key has a first one: an earlier one, or this. */
  lemma FirstAfter(z: Zip, jobs: seq<Job>, i: nat, j: nat)
    requires i < j < |jobs| && Good(z, jobs[i]) && Good(z, jobs[j]) && StemOf(z, jobs[i]) == StemOf(z, jobs[j])
    ensures var earlier := FirstFor(z, jobs[..i], jobs[i]);
            FirstFor(z, jobs[..j], jobs[j]) == if earlier.Some? then earlier else Some(jobs[i].content)
  {
    hide Stem, Segment, SafeMembers;
    assert jobs[..i + 1][..i] == jobs[..i];
    assert jobs[..j] == jobs[..i + 1] + jobs[i + 1..j];
    FirstStays(z, jobs[..i + 1], jobs[i + 1..j], StemOf(z, jobs[j]));
  }

  /** While the short digests of the packages of a history tell them apart, none collides. */
  lemma NoCollision(z: Zip, start: Storage, jobs: seq<Job>, job: Job)
    requires HexDigests(z) && Starts(start)
    requires forall i :: 0 <= i < |jobs| && Short(z.sha(jobs[i].content)) == Short(z.sha(job.content)) ==>
               jobs[i].content == job.content
    requires start.Local? ==> DigestsDiffer(z, jobs + [job])
    ensures Done(z, Run(z, start, jobs), job).1 != Err(Collision)
  {
    CollidesExactly(z, start, jobs, job);
    hide Run, Done, Segment, DigestsDiffer, Starts, Stem, First, Acceptable;
    if Segment(job.id).Ok? && FirstFor(z, jobs, job).Some? {
      FirstIsOffered(z, jobs, StemOf(z, job));
      var i :| 0 <= i < |jobs| && Good(z, jobs[i]) && StemOf(z, jobs[i]) == StemOf(z, job)
               && First(z, jobs, StemOf(z, job)) == Some(jobs[i].content);
      StemTellsDigest(z, jobs[i], job);
    }
  }

  /** Stems with the twelve digits tell the short digest. */
  lemma StemTellsDigest(z: Zip, a: Job, b: Job)
    requires HexDigests(z) && Segment(a.id).Ok? && Segment(b.id).Ok? && StemOf(z, a) == StemOf(z, b)
    ensures Short(z.sha(a.content)) == Short(z.sha(b.content))
  {
    hide Segment;
    var s := StemOf(z, a);
    assert s[|s| - 12..] == Short(z.sha(a.content)) && s[|s| - 12..] == Short(z.sha(b.content));
  }

  // ----- The local store refines the memory store -----

  /** The two stores hold the same bytes at every place of package processing. */
  ghost predicate Agree(a: Storage, b: Storage) {
    forall t :: PackageStores.Good(t) ==> Held(a, KeyOf(t)) == Held(b, KeyOf(t))
  }

  predicate NestedJob(z: Zip, job: Job) {
    Good(z, job) && Nested(SafeMembers(z, Extensions(job.allowed), job.content).value)
  }

  /** After any history a package has the same result on disk and in memory, except exactly when it is
      acceptable, does not collide and nests one member below another. */
  lemma SameResultExactly(z: Zip, jobs: seq<Job>, job: Job)
    requires HexDigests(z) && DigestsDiffer(z, jobs + [job])
    ensures var first := FirstFor(z, jobs, job);
            Done(z, Run(z, NO_FILES, jobs), job).1 == Done(z, Run(z, NO_OBJECTS, jobs), job).1 <==>
            !(NestedJob(z, job) && (first.None? || first == Some(job.content)))
  {
    ResultIs(z, NO_FILES, jobs, job);
    ResultIs(z, NO_OBJECTS, jobs, job);
    hide Run, Done, Segment, SafeMembers, Nested, DigestsDiffer, HexDigests, Stem, First;
  }

  /** The first acceptable package of this stem is nested. */
  predicate FirstNested(z: Zip, jobs: seq<Job>, stem: string) {
    GoodStem(stem) && First(z, jobs, stem).Some? && Nested(Ordered(z, First(z, jobs, stem).value))
  }

  /** Two reached stores, one local and one in memory, hold the same at every place of a package that is not
      nested. */
  lemma AgreeAt(z: Zip, jobs: seq<Job>, a: Storage, b: Storage, t: Slot)
    requires Reached(z, NO_FILES, jobs, a) && Reached(z, NO_OBJECTS, jobs, b)
    requires PackageStores.Good(t) && !FirstNested(z, jobs, t.stem)
    ensures Held(a, KeyOf(t)) == Held(b, KeyOf(t))
  {
    hide GoodName, GoodStem, Held, EntryKey, PackageKey, Tidy, Proper, Nested, First, Ordered;
    KeyOfPackage(t.stem);
    assert WholeAt(z, a, t.stem) && WholeAt(z, b, t.stem);
    if t.MemberSlot? {
      KeyOfMember(t.stem, t.name);
      if First(z, jobs, t.stem).Some? {
        ReachExactly(Ordered(z, First(z, jobs, t.stem).value));
      }
    }
  }

  /** The member of a nested package at which the local store stops is held in memory only. */
  lemma NestedDisagrees(z: Zip, jobs: seq<Job>, a: Storage, b: Storage, stem: string)
    requires Reached(z, NO_FILES, jobs, a) && Reached(z, NO_OBJECTS, jobs, b) && FirstNested(z, jobs, stem)
    ensures !Agree(a, b)
  {
    hide GoodName, GoodStem, Held, EntryKey, PackageKey, Tidy, Proper, Nested, First, Ordered, Reach;
    var members := Ordered(z, First(z, jobs, stem).value);
    assert WholeAt(z, a, stem) && WholeAt(z, b, stem);
    ReachExactly(members);
    var r := Reach(members);
    StoppedMember(members, r);
    assert members[..|members|] == members;
    var t := MemberSlot(stem, members[r].name);
    KeyOfMember(stem, members[r].name);
    assert PackageStores.Good(t);
  }

  lemma StoppedMember(members: seq<Member>, r: nat)
    requires Proper(members) && r < |members|
    ensures GoodName(members[r].name)
    ensures Among(members[..r], members[r].name).None? && Among(members, members[r].name).Some?
  {
    hide GoodName;
    AmongIs(members[..r], members[r].name);
    AmongIs(members, members[r].name);
  }

  /** After any history whose digests differ, the local store holds at every place what the memory store
      holds, exactly when no first package of any key is nested. */
  lemma LocalAgreesExactly(z: Zip, jobs: seq<Job>)
    requires HexDigests(z) && DigestsDiffer(z, jobs)
    ensures Agree(Run(z, NO_FILES, jobs), Run(z, NO_OBJECTS, jobs)) <==> forall stem :: !FirstNested(z, jobs, stem)
  {
    hide Run, FirstNested, Reached, Held, KeyOf, DigestsDiffer;
    HistoryIsWhole(z, NO_FILES, jobs);
    HistoryIsWhole(z, NO_OBJECTS, jobs);
    var a, b := Run(z, NO_FILES, jobs), Run(z, NO_OBJECTS, jobs);
    if stem :| FirstNested(z, jobs, stem) {
      NestedDisagrees(z, jobs, a, b, stem);
    } else {
      forall t | PackageStores.Good(t)
        ensures Held(a, KeyOf(t)) == Held(b, KeyOf(t))
      {
        AgreeAt(z, jobs, a, b, t);
      }
    }
  }

  /** So they agree over any history without nested packages. */
  lemma LocalRefinesMemory(z: Zip, jobs: seq<Job>)
    requires HexDigests(z) && DigestsDiffer(z, jobs)
    requires forall i :: 0 <= i < |jobs| ==> !NestedJob(z, jobs[i])
    ensures Agree(Run(z, NO_FILES, jobs), Run(z, NO_OBJECTS, jobs))
  {
    LocalAgreesExactly(z, jobs);
    forall stem
      ensures !FirstNested(z, jobs, stem)
    {
      FirstIsSomeJob(z, jobs, stem);
    }
  }

  lemma FirstIsSomeJob(z: Zip, jobs: seq<Job>, stem: string)
    requires forall i :: 0 <= i < |jobs| ==> !NestedJob(z, jobs[i])
    ensures !FirstNested(z, jobs, stem)
  {
    hide Nested, SafeMembers, Segment, Stem, First, Ordered, GoodStem;
    if First(z, jobs, stem).Some? {
      FirstIsOffered(z, jobs, stem);
      var i :| 0 <= i < |jobs| && Good(z, jobs[i]) && StemOf(z, jobs[i]) == stem
               && First(z, jobs, stem) == Some(jobs[i].content);
      assert !NestedJob(z, jobs[i]);
      SafeMembersAre(z, Extensions(jobs[i].allowed), jobs[i].content);
    }
  }

  // ----- A nested package -----

  const FILE_AND_FOLDER := [
    ZipEntry("a.txt", false, Some([])),
    ZipEntry("a.txt/b.txt", false, Some([]))]

  lemma TextSuffix(raw: string, front: string, parts: seq<string>)
    requires Parts(raw) == parts + [front + ".txt"] && front != ""
    ensures Suffix(raw) == ".txt" && Lower(Suffix(raw)) == ".txt"
  {
    hide Parts, LastDot;
    assert front + ".txt" == front + "." + "txt";
    LastDotOf(front, "txt");
    assert (front + ".txt")[|front|..] == ".txt";
  }

  lemma ExampleParts()
    ensures Parts("a.txt") == ["a.txt"] && Parts("a.txt/b.txt") == ["a.txt", "b.txt"]
    ensures PosixName("a.txt") == "a.txt" && PosixName("a.txt/b.txt") == "a.txt/b.txt"
    ensures Clash("a.txt", "a.txt/b.txt")
  {
    hide Parts;
    assert "a.txt" + "/" + "b.txt" == "a.txt/b.txt";
    PartsOf("a.txt", "b.txt");
    PartsOf("b.txt", "");
    assert ["a.txt", "b.txt"][1..] == ["b.txt"];
  }

  lemma ExampleIsValid()
    ensures AllValid({".txt"}, FILE_AND_FOLDER) && Apart(FILE_AND_FOLDER)
    ensures ListedAs(FILE_AND_FOLDER) == [Member("a.txt", []), Member("a.txt/b.txt", [])]
  {
    hide Parts, Suffix, PosixName, Lower, Clash;
    ExampleParts();
    assert "a" + ".txt" == "a.txt" && "b" + ".txt" == "b.txt";
    assert [] + ["a" + ".txt"] == ["a.txt"] && ["a.txt"] + ["b" + ".txt"] == ["a.txt", "b.txt"];
    TextSuffix("a.txt", "a", []);
    TextSuffix("a.txt/b.txt", "b", ["a.txt"]);
    assert |Lower("a.txt")| != |Lower("a.txt/b.txt")|;
    assert ValidateName("a.txt", false, {".txt"}) == Ok("a.txt");
    assert ValidateName("a.txt/b.txt", false, {".txt"}) == Ok("a.txt/b.txt");
  }

  lemma TwoNames(ms: seq<Member>, listed: seq<Member>, n: string, m: string)
    requires multiset(ms) == multiset(listed) && |listed| == 2 && listed[0].name == n && listed[1].name == m
    requires Clash(n, m)
    ensures Nested(ms)
  {
    hide Clash;
    assert listed[0] in multiset(ms) && listed[1] in multiset(ms);
    var i :| 0 <= i < |ms| && ms[i] == listed[0];
    var j :| 0 <= j < |ms| && ms[j] == listed[1];
    NoSelfClash(n);
    ClashIsSymmetric(n, m);
  }

  lemma ExampleMembers(z: Zip, content: Bytes)
    requires !z.rawBackslash(content) && z.list(content) == Some(FILE_AND_FOLDER)
    ensures var r := SafeMembers(z, {".txt"}, content); r.Ok? && Nested(r.value)
  {
    hide Clash, Accept, Ordered, Proper, AllValid, Apart, ListedAs, SortBy;
    ExampleIsValid();
    AcceptExactly({".txt"}, FILE_AND_FOLDER);
    SafeMembersAre(z, {".txt"}, content);
    ExampleParts();
    TwoNames(SafeMembers(z, {".txt"}, content).value, Listed(z, content), "a.txt", "a.txt/b.txt");
  }

  /** A ZIP that lists `a.txt` and `a.txt/b.txt` is accepted in memory. On an empty local store it fails,
      and leaves the package behind. */
  lemma FileAndFolder(z: Zip, id: string, content: Bytes)
    requires HexDigests(z) && Segment(id).Ok?
    requires !z.rawBackslash(content) && z.list(content) == Some(FILE_AND_FOLDER)
    ensures Process(z, NO_OBJECTS, id, {".txt"}, content).1.Ok?
    ensures var (after, r) := Process(z, NO_FILES, id, {".txt"}, content);
            r == Err(Blocked) && after != NO_FILES && Held(after, PackageKey(StemFor(z, id, content))) == Some(content)
  {
    hide Segment, SafeMembers, Nested, Process, Stem, PackageKey, Whole, HexDigests, GoodStem;
    ExampleMembers(z, content);
    StemIsGood(z, id, content);
    EmptyIsWhole(z, NO_FILES);
    EmptyIsWhole(z, NO_OBJECTS);
    assert Earlier(z, NO_FILES, id, content).None? && Earlier(z, NO_OBJECTS, id, content).None?;
    ProcessIs(z, NO_OBJECTS, id, {".txt"}, content);
    ProcessIs(z, NO_FILES, id, {".txt"}, content);
  }
}
