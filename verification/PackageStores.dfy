/** The two write-once stores behind package processing, and the keys under which it stores. */
module PackageStores {
  import opened Wrappers
  import opened Sorting
  import opened PackageNames

  /** A file below the root of a local store, by the parts of its path. */
  type Path = seq<string>

  /** The in-memory store keeps objects by key, the local store keeps files by path. The folders of the
      local store are the proper prefixes of its files' paths. */
  datatype Storage = Memory(objects: map<string, Bytes>) | Local(files: map<Path, Bytes>)

  /** `key.replace("\\", "/")`. */
  function Slashed(key: string): (r: string)
    ensures |r| == |key|
  {
    seq(|key|, i requires 0 <= i < |key| => if key[i] == '\\' then '/' else key[i])
  }

  /** `root / key`: leading slashes, doubled slashes and `.` do not count. */
  function PathOf(key: string): Path {
    Parts(Slashed(key))
  }

  /** `q` lies in the folder `p`. */
  predicate Below(p: Path, q: Path) {
    |p| < |q| && q[..|p|] == p
  }

  predicate FileAbove(files: map<Path, Bytes>, path: Path) {
    exists p :: p in files && Below(p, path)
  }

  predicate IsFolder(files: map<Path, Bytes>, path: Path) {
    exists p :: p in files && Below(path, p)
  }

  /** `write_bytes_idempotent`: the new store and whether it wrote, or the error. The local store first
      makes the folders of its path, which fails below a file, and cannot read or write a folder. */
  function Put(sha: Bytes -> string, s: Storage, key: string, content: Bytes): Result<(Storage, bool), Rejection> {
    match s
    case Memory(objects) =>
      if key in objects then if objects[key] == content then Ok((s, false)) else Err(Collision)
      else Ok((Memory(objects[key := content]), true))
    case Local(files) =>
      var path := PathOf(key);
      if path == [] || FileAbove(files, path) then Err(Blocked)
      else if path in files then if sha(files[path]) == sha(content) then Ok((s, false)) else Err(Collision)
      else if IsFolder(files, path) then Err(Blocked)
      else Ok((Local(files[path := content]), true))
  }

  function Held(s: Storage, key: string): Option<Bytes> {
    match s
    case Memory(objects) => if key in objects then Some(objects[key]) else None
    case Local(files) => if PathOf(key) in files then Some(files[PathOf(key)]) else None
  }

  /** Whether an offered content counts as the stored one. */
  predicate SameBytes(sha: Bytes -> string, s: Storage, stored: Bytes, offered: Bytes) {
    match s
    case Memory(_) => stored == offered
    case Local(_) => sha(stored) == sha(offered)
  }

  // ----- Keys -----

  const FOLDER := "sat-packages"

  function PackageKey(stem: string): string {
    FOLDER + "/" + stem + ".zip"
  }

  function EntryKey(stem: string, name: string): string {
    FOLDER + "/" + stem + "/extracted/" + name
  }

  /** The places that package processing uses: a package, or a member of it. */
  datatype Slot = PackageSlot(stem: string) | MemberSlot(stem: string, name: string)

  function KeyOf(slot: Slot): string {
    match slot
    case PackageSlot(stem) => PackageKey(stem)
    case MemberSlot(stem, name) => EntryKey(stem, name)
  }

  predicate IsHex(c: char) {
    '0' <= c <= '9' || 'a' <= c <= 'f'
  }

  /** A segment, a dash and hexadecimal digits. */
  predicate GoodStem(stem: string) {
    stem != "" && (forall i :: 0 <= i < |stem| ==> IsSafeChar(stem[i])) && IsHex(stem[|stem| - 1])
  }

  /** A name as validation returns it. */
  predicate GoodName(name: string) {
    PosixName(name) == name && '\\' !in name && ".." !in Parts(name)
  }

  predicate Good(slot: Slot) {
    GoodStem(slot.stem) && (slot.MemberSlot? ==> GoodName(slot.name))
  }

  function SlotPath(slot: Slot): Path {
    match slot
    case PackageSlot(stem) => [FOLDER, stem + ".zip"]
    case MemberSlot(stem, name) => [FOLDER, stem, "extracted"] + Parts(name)
  }

  lemma SafeText(s: string)
    requires forall i :: 0 <= i < |s| ==> IsSafeChar(s[i])
    ensures Plain(s) && '\\' !in s
  {
  }

  lemma {:induction false} FilterConcat(a: seq<string>, b: seq<string>)
    ensures Filter(Kept, a + b) == Filter(Kept, a) + Filter(Kept, b)
  {
    if b == [] {
      assert a + b == a;
    } else {
      var k := |b| - 1;
      assert (a + b)[..|a + b| - 1] == a + b[..k];
      FilterConcat(a, b[..k]);
    }
  }

  lemma FilterOne(part: string)
    requires Kept(part)
    ensures Filter(Kept, [part]) == [part]
  {
    assert [part][..0] == [];
  }

  /** The parts of a path that starts with a kept part. */
  lemma PartsOf(part: string, rest: string)
    requires Plain(part) && Kept(part)
    ensures Parts(part) == [part]
    ensures Parts(part + "/" + rest) == [part] + Parts(rest)
  {
    SplitFirst(part, rest);
    FilterOne(part);
    FilterConcat([part], Split(rest));
  }

  lemma SlashedIs(key: string)
    requires '\\' !in key
    ensures Slashed(key) == key
  {
    assert forall i :: 0 <= i < |key| ==> key[i] in key;
  }

  lemma PackagePath(stem: string)
    requires GoodStem(stem)
    ensures PathOf(PackageKey(stem)) == [FOLDER, stem + ".zip"]
  {
    hide Parts, Slashed, IsSafeChar;
    SafeText(stem);
    var file := stem + ".zip";
    assert Plain(file) && '\\' !in file;
    assert '\\' !in FOLDER + "/" + file;
    SlashedIs(FOLDER + "/" + file);
    Regroup(FOLDER + "/", stem, ".zip", "");
    PartsOf(FOLDER, file);
    PartsOf(file, "");
  }

  lemma EntryPath(stem: string, name: string)
    requires GoodStem(stem) && '\\' !in name
    ensures PathOf(EntryKey(stem, name)) == [FOLDER, stem, "extracted"] + Parts(name)
  {
    hide Parts, Slashed, IsSafeChar;
    SafeText(stem);
    var c := "extracted" + "/" + name;
    var b := stem + "/" + c;
    EntryKeyIs(stem, name);
    assert '\\' !in FOLDER + "/" + b;
    SlashedIs(FOLDER + "/" + b);
    StemIsKept(stem);
    PartsOf(FOLDER, b);
    PartsOf(stem, c);
    PartsOf("extracted", name);
    assert [FOLDER] + ([stem] + (["extracted"] + Parts(name))) == [FOLDER, stem, "extracted"] + Parts(name);
  }

  lemma StemIsKept(stem: string)
    requires GoodStem(stem)
    ensures Kept(stem)
  {
  }

  lemma EntryKeyIs(stem: string, name: string)
    ensures EntryKey(stem, name) == FOLDER + "/" + (stem + "/" + ("extracted" + "/" + name))
  {
    assert "/extracted/" == "/" + "extracted" + "/";
    Regroup(FOLDER + "/", stem, "/extracted/", name);
    Regroup("/", "extracted", "/", name);
    Regroup(stem, "/", "extracted" + "/" + name, "");
  }

  lemma Regroup(a: string, b: string, c: string, d: string)
    ensures a + b + c == a + (b + c)
    ensures a + b + c + d == a + (b + (c + d))
  {
  }

  /** On the local store a place is the file at its path. */
  lemma PathOfSlot(slot: Slot)
    requires Good(slot)
    ensures PathOf(KeyOf(slot)) == SlotPath(slot)
  {
    match slot
    case PackageSlot(stem) => PackagePath(stem);
    case MemberSlot(stem, name) => EntryPath(stem, name);
  }

  lemma SameBack(a: string, b: string, back: string)
    ensures a + back == b + back ==> a == b
  {
    assert (a + back)[..|a|] == a && (b + back)[..|b|] == b;
  }

  /** A stem with `.zip` is no stem. */
  lemma ZipIsNoStem(stem: string)
    ensures !GoodStem(stem + ".zip")
  {
    var s := stem + ".zip";
    assert s[|s| - 1] == 'p';
  }

  lemma PathsAreDistinct(a: Slot, b: Slot)
    requires Good(a) && Good(b)
    ensures SlotPath(a) == SlotPath(b) ==> a == b
  {
    hide Parts, GoodStem;
    if SlotPath(a) == SlotPath(b) {
      assert SlotPath(a)[1] == SlotPath(b)[1];
      if a.MemberSlot? && b.MemberSlot? {
        assert SlotPath(a)[3..] == Parts(a.name) && SlotPath(b)[3..] == Parts(b.name);
      } else {
        SameBack(a.stem, b.stem, ".zip");
        assert |SlotPath(a)| == 2 <==> a.PackageSlot?;
        assert |SlotPath(b)| == 2 <==> b.PackageSlot?;
      }
    }
  }

  /** Two members of one package where one name would be a folder of the other. */
  predicate Clash(n: string, m: string) {
    Below(Parts(n), Parts(m)) || Below(Parts(m), Parts(n))
  }

  /** One place lies in the folder of another only within one package, by its name. */
  lemma BelowSlots(a: Slot, b: Slot)
    requires Good(a) && Good(b)
    ensures Below(SlotPath(a), SlotPath(b)) <==>
              a.MemberSlot? && b.MemberSlot? && a.stem == b.stem && Below(Parts(a.name), Parts(b.name))
  {
    hide Parts, GoodStem;
    var p, q := SlotPath(a), SlotPath(b);
    ZipIsNoStem(a.stem);
    if a.PackageSlot? {
      if |q| > 2 {
        assert p[1] == a.stem + ".zip" && q[..2][1] == q[1];
      }
    } else if b.MemberSlot? {
      var n := |Parts(a.name)|;
      assert p[1] == a.stem && q[1] == b.stem;
      if n <= |Parts(b.name)| {
        assert q[..3 + n] == [FOLDER, b.stem, "extracted"] + Parts(b.name)[..n];
        if a.stem == b.stem && q[..3 + n] == p {
          assert Parts(b.name)[..n] == q[..3 + n][3..];
          assert Parts(a.name) == p[3..];
        }
        if q[..3 + n] == p {
          assert q[..3 + n][1] == b.stem;
        }
      }
    }
  }

  /** The local store holds nothing but packages and members, and no file of it is a folder. */
  ghost predicate Tidy(s: Storage) {
    s.Local? ==>
      && (forall p :: p in s.files ==> exists slot :: Good(slot) && SlotPath(slot) == p)
      && (forall p, q :: p in s.files && q in s.files ==> !Below(p, q))
  }

  /** A stored member of the same package is in the way. */
  ghost predicate Obstructed(s: Storage, slot: Slot) {
    && s.Local? && slot.MemberSlot?
    && exists n :: GoodName(n) && Held(s, EntryKey(slot.stem, n)).Some? && Clash(n, slot.name)
  }

  lemma HeldAt(s: Storage, slot: Slot)
    requires s.Local? && Good(slot)
    ensures Held(s, KeyOf(slot)) == if SlotPath(slot) in s.files then Some(s.files[SlotPath(slot)]) else None
  {
    PathOfSlot(slot);
  }

  lemma ObstructedIs(s: Storage, slot: Slot)
    requires s.Local? && Tidy(s) && Good(slot)
    ensures Obstructed(s, slot) <==> FileAbove(s.files, SlotPath(slot)) || IsFolder(s.files, SlotPath(slot))
  {
    hide SlotPath, GoodStem, GoodName, Held, Below, KeyOf;
    if Obstructed(s, slot) {
      var n :| GoodName(n) && Held(s, EntryKey(slot.stem, n)).Some? && Clash(n, slot.name);
      var other := MemberSlot(slot.stem, n);
      KeyOfMember(slot.stem, n);
      HeldAt(s, other);
      BelowSlots(other, slot);
      BelowSlots(slot, other);
    }
    if p :| p in s.files && (Below(p, SlotPath(slot)) || Below(SlotPath(slot), p)) {
      var other :| Good(other) && SlotPath(other) == p;
      BelowSlots(other, slot);
      BelowSlots(slot, other);
      HeldAt(s, other);
      KeyOfMember(other.stem, other.name);
    }
  }

  lemma KeyOfMember(stem: string, name: string)
    ensures KeyOf(MemberSlot(stem, name)) == EntryKey(stem, name)
  {
  }

  lemma KeyOfPackage(stem: string)
    ensures KeyOf(PackageSlot(stem)) == PackageKey(stem)
  {
  }

  lemma MemoryKeysAreDistinct(a: Slot, b: Slot)
    requires Good(a) && Good(b) && KeyOf(a) == KeyOf(b)
    ensures a == b
  {
    PathOfSlot(a);
    PathOfSlot(b);
    PathsAreDistinct(a, b);
  }

  /** What one store operation does at the places of package processing, in either store. */
  lemma PutSlot(sha: Bytes -> string, s: Storage, slot: Slot, content: Bytes)
    requires Tidy(s) && Good(slot)
    ensures var held := Held(s, KeyOf(slot));
            match Put(sha, s, KeyOf(slot), content)
            case Err(e) =>
              if Obstructed(s, slot) then e == Blocked
              else e == Collision && held.Some? && !SameBytes(sha, s, held.value, content)
            case Ok((after, wrote)) =>
              && !Obstructed(s, slot) && Tidy(after) && after.Local? == s.Local?
              && (held.Some? ==> SameBytes(sha, s, held.value, content) && !wrote && after == s)
              && (held.None? ==> wrote && after != s)
              && forall t :: Good(t) ==>
                   Held(after, KeyOf(t)) == if t == slot && wrote then Some(content) else Held(s, KeyOf(t))
  {
    hide KeyOf, SlotPath, GoodStem, GoodName, Obstructed, Below;
    var key := KeyOf(slot);
    PathOfSlot(slot);
    hide PathOf;
    assert SlotPath(slot) != [] by { PathIsLong(slot); }
    if s.Local? {
      ObstructedIs(s, slot);
    } else {
      NotObstructed(s, slot);
    }
    var r := Put(sha, s, key, content);
    if r.Ok? && Held(s, key).None? {
      WrittenSlot(s, slot, content);
    }
  }

  function With(s: Storage, key: string, content: Bytes): Storage {
    match s
    case Memory(objects) => Memory(objects[key := content])
    case Local(files) => Local(files[PathOf(key) := content])
  }

  /** Writing a free, unobstructed place changes that place and no other. */
  lemma WrittenSlot(s: Storage, slot: Slot, content: Bytes)
    requires Tidy(s) && Good(slot) && !Obstructed(s, slot) && Held(s, KeyOf(slot)).None?
    ensures var after := With(s, KeyOf(slot), content);
            && Tidy(after) && after != s
            && forall t :: Good(t) ==>
                 Held(after, KeyOf(t)) == if t == slot then Some(content) else Held(s, KeyOf(t))
  {
    hide KeyOf, SlotPath, GoodStem, GoodName, Obstructed, Below;
    var key, after := KeyOf(slot), With(s, KeyOf(slot), content);
    PathOfSlot(slot);
    hide PathOf;
    forall t | Good(t)
      ensures Held(after, KeyOf(t)) == if t == slot then Some(content) else Held(s, KeyOf(t))
    {
      PathOfSlot(t);
      PathsAreDistinct(t, slot);
    }
    assert Held(after, key).Some?;
    if s.Local? {
      ObstructedIs(s, slot);
      assert !Below(SlotPath(slot), SlotPath(slot)) by { NotBelowItself(SlotPath(slot)); }
    }
  }

  lemma NotBelowItself(p: Path)
    ensures !Below(p, p)
  {
  }

  lemma NotObstructed(s: Storage, slot: Slot)
    requires s.Memory?
    ensures !Obstructed(s, slot)
  {
  }

  lemma PathIsLong(slot: Slot)
    ensures |SlotPath(slot)| >= 2
  {
  }

}
