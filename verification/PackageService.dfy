/** Package processing as it runs: the two write-once stores and the loops over ZIP members. */
module PackageService {
  import opened Wrappers
  import opened Text
  import opened Sorting
  import opened PackageNames
  import opened PackageStores
  import opened PackageMembers
  import opened Packages

  datatype StoredBytes = StoredBytes(sha: string, size: nat, written: bool)

  class MemoryPackageStorage {
    const sha: Bytes -> string
    var objects: map<string, Bytes>

    constructor (sha: Bytes -> string)
      ensures this.sha == sha && objects == map[]
    {
      this.sha := sha;
      objects := map[];
    }

    method WriteBytesIdempotent(key: string, content: Bytes) returns (r: Result<StoredBytes, Rejection>)
      modifies this
      ensures match Put(sha, Memory(old(objects)), key, content)
              case Err(e) => r == Err(e) && objects == old(objects)
              case Ok((after, written)) =>
                Memory(objects) == after && r == Ok(StoredBytes(sha(content), |content|, written))
    {
      var digest := sha(content);
      if key in objects {
        if objects[key] != content {
          return Err(Collision);
        }
        return Ok(StoredBytes(digest, |content|, false));
      }
      objects := objects[key := content];
      return Ok(StoredBytes(digest, |content|, true));
    }
  }

  /** The files below the root of a local store. A folder exists while a file below it does. */
  class LocalStorage {
    const sha: Bytes -> string
    var files: map<Path, Bytes>

    constructor (sha: Bytes -> string)
      ensures this.sha == sha && files == map[]
    {
      this.sha := sha;
      files := map[];
    }

    /** Makes the folders of a path; fails below a file. */
    method MakeFolders(path: Path) returns (ok: bool)
      ensures ok == !FileAbove(files, path)
    {
      for i := 0 to |path|
        invariant forall k :: 0 <= k < i ==> path[..k] !in files
      {
        if path[..i] in files {
          assert Below(path[..i], path);
          return false;
        }
      }
      forall p | p in files
        ensures !Below(p, path)
      {
        if |p| < |path| {
          assert path[..|p|] !in files;
        }
      }
      return true;
    }

    /** `path.exists()` for what is not a file. */
    method FolderExists(path: Path) returns (r: bool)
      ensures r == IsFolder(files, path)
    {
      r := false;
      var todo := files.Keys;
      while todo != {}
        invariant todo <= files.Keys
        invariant r <==> exists p :: p in files.Keys - todo && Below(path, p)
        decreases todo
      {
        var p :| p in todo;
        ghost var before := todo;
        r := r || Below(path, p);
        todo := todo - {p};
        assert files.Keys - todo == (files.Keys - before) + {p};
      }
      assert files.Keys - todo == files.Keys;
    }

    method WriteBytesIdempotent(key: string, content: Bytes) returns (r: Result<StoredBytes, Rejection>)
      requires ".." !in PathOf(key)
      modifies this
      ensures match Put(sha, Local(old(files)), key, content)
              case Err(e) => r == Err(e) && files == old(files)
              case Ok((after, written)) =>
                Local(files) == after && r == Ok(StoredBytes(sha(content), |files[PathOf(key)]|, written))
    {
      hide PathOf, FileAbove, IsFolder;
      var path, digest := PathOf(key), sha(content);
      var made := MakeFolders(path);
      if path == [] || !made {
        return Err(Blocked);
      }
      if path in files {
        var existing := files[path];
        if sha(existing) != digest {
          return Err(Collision);
        }
        return Ok(StoredBytes(digest, |existing|, false));
      }
      var folder := FolderExists(path);
      if folder {
        return Err(Blocked);
      }
      files := files[path := content];
      return Ok(StoredBytes(digest, |content|, true));
    }
  }

  /** The storage port: processing works on either store. */
  datatype PackageStorage = InMemory(memory: MemoryPackageStorage) | OnDisk(local: LocalStorage)
  {
    function Sha(): Bytes -> string {
      match this
      case InMemory(m) => m.sha
      case OnDisk(l) => l.sha
    }

    function Contents(): Storage
      reads if InMemory? then {memory as object} else {local as object}
    {
      match this
      case InMemory(m) => Memory(m.objects)
      case OnDisk(l) => Local(l.files)
    }

    /** The result carries whether bytes were written; its digest and size are not used by processing. */
    method Write(key: string, content: Bytes) returns (r: Result<bool, Rejection>)
      requires OnDisk? ==> ".." !in PathOf(key)
      modifies if InMemory? then {memory as object} else {local as object}
      ensures match Put(Sha(), old(Contents()), key, content)
              case Err(e) => r == Err(e) && Contents() == old(Contents())
              case Ok((after, written)) => r == Ok(written) && Contents() == after
    {
      match this
      case InMemory(m) =>
        var stored := m.WriteBytesIdempotent(key, content);
        return if stored.Ok? then Ok(stored.value.written) else Err(stored.error);
      case OnDisk(l) =>
        var stored := l.WriteBytesIdempotent(key, content);
        return if stored.Ok? then Ok(stored.value.written) else Err(stored.error);
    }
  }

  method CheckedMembers(z: Zip, content: Bytes, allowed: set<string>) returns (r: Result<seq<Member>, Rejection>)
    ensures r == SafeMembers(z, allowed, content)
  {
    if z.rawBackslash(content) {
      return Err(BackslashEntry);
    }
    var listing := z.list(content);
    if listing.None? {
      return Err(InvalidZip);
    }
    var infos := listing.value;
    var normalizedNames: set<string> := {};
    var members: seq<Member> := [];
    hide ValidateName, Lower, SameLower;
    NobodyYet();
    for i := 0 to |infos|
      invariant Accept(allowed, infos[..i]) == Ok(members)
      invariant forall low :: low in normalizedNames <==> SameLower(members, low)
    {
      assert infos[..i + 1][..i] == infos[..i];
      var name := ValidateName(infos[i].rawName, infos[i].isDir, allowed);
      if name.Err? || Lower(name.value) in normalizedNames || infos[i].data.None? {
        r := Err(if name.Err? then name.error
                 else if Lower(name.value) in normalizedNames then DuplicateEntry else InvalidZip);
        assert Accept(allowed, infos[..i + 1]) == Err(r.error);
        ErrorsStay(allowed, infos, i + 1);
        return;
      }
      OneMore(members, Member(name.value, infos[i].data.value));
      normalizedNames := normalizedNames + {Lower(name.value)};
      members := members + [Member(name.value, infos[i].data.value)];
    }
    assert infos[..|infos|] == infos;
    return Ok(SortBy(NameOrder, members));
  }

  lemma NobodyYet()
    ensures forall low :: !SameLower([], low)
  {
  }

  lemma OneMore(members: seq<Member>, m: Member)
    ensures forall low :: SameLower(members + [m], low) <==> SameLower(members, low) || Lower(m.name) == low
  {
    hide Lower;
    forall low
      ensures SameLower(members + [m], low) <==> SameLower(members, low) || Lower(m.name) == low
    {
      assert (members + [m])[|members|] == m;
      if i :| 0 <= i < |members| && Lower(members[i].name) == low {
        assert (members + [m])[i] == members[i];
      }
    }
  }

  /** The first error of a list is the error of the list. */
  lemma {:induction false} ErrorsStay(allowed: set<string>, infos: seq<ZipEntry>, k: nat)
    requires k <= |infos| && Accept(allowed, infos[..k]).Err?
    ensures Accept(allowed, infos) == Accept(allowed, infos[..k])
    decreases |infos|
  {
    if k == |infos| {
      assert infos[..k] == infos;
    } else {
      assert infos[..|infos| - 1][..k] == infos[..k];
      ErrorsStay(allowed, infos[..|infos| - 1], k);
    }
  }

  /** No key of package processing climbs out of its folder. */
  lemma KeysStayBelow(z: Zip, id: string, content: Bytes, allowed: set<string>)
    requires HexDigests(z) && Acceptable(z, id, allowed, content)
    ensures var stem, members := StemFor(z, id, content), SafeMembers(z, Extensions(allowed), content).value;
            && ".." !in PathOf(PackageKey(stem))
            && forall i :: 0 <= i < |members| ==> ".." !in PathOf(EntryKey(stem, members[i].name))
  {
    hide *;
    AcceptableParts(z, id, content, allowed);
    var stem, members := StemFor(z, id, content), SafeMembers(z, Extensions(allowed), content).value;
    StemIsGood(z, id, content);
    SafeMembersAre(z, Extensions(allowed), content);
    ProperAt(members);
    PackagePathStays(stem);
    forall i | 0 <= i < |members|
      ensures ".." !in PathOf(EntryKey(stem, members[i].name))
    {
      EntryPathStays(stem, members[i].name);
    }
  }

  lemma AcceptableParts(z: Zip, id: string, content: Bytes, allowed: set<string>)
    requires Acceptable(z, id, allowed, content)
    ensures Segment(id).Ok? && SafeMembers(z, Extensions(allowed), content).Ok?
  {
  }

  lemma ProperAt(members: seq<Member>)
    requires Proper(members)
    ensures forall i :: 0 <= i < |members| ==> GoodName(members[i].name)
  {
    hide GoodName;
  }

  lemma PackagePathStays(stem: string)
    requires GoodStem(stem)
    ensures ".." !in PathOf(PackageKey(stem))
  {
    PackagePath(stem);
    var s := stem + ".zip";
    assert |s| > 2;
  }

  lemma EntryPathStays(stem: string, name: string)
    requires GoodStem(stem) && GoodName(name)
    ensures ".." !in PathOf(EntryKey(stem, name))
  {
    EntryPath(stem, name);
  }

  method ProcessSatPackage(z: Zip, packageId: string, content: Bytes, storage: PackageStorage, allowed: set<string>)
    returns (r: Result<Processed, Rejection>)
    requires storage.Sha() == z.sha && HexDigests(z)
    modifies if storage.InMemory? then {storage.memory as object} else {storage.local as object}
    ensures (storage.Contents(), r) == Process(z, old(storage.Contents()), packageId, allowed, content)
  {
    var packageSha := z.sha(content);
    var segment := Segment(packageId);
    if segment.Err? {
      return Err(segment.error);
    }
    var stem := segment.value + "-" + Short(packageSha);
    var packageKey := PackageKey(stem);
    var checked := CheckedMembers(z, content, Extensions(allowed));
    if checked.Err? {
      return Err(checked.error);
    }
    KeysStayBelow(z, packageId, content, allowed);
    hide Segment, SafeMembers, EntryKey, PackageKey, Put, PathOf, HexDigests, WriteAll;
    var members := checked.value;
    var packageWrite := storage.Write(packageKey, content);
    if packageWrite.Err? {
      return Err(packageWrite.error);
    }
    var entries, error := WriteMembers(z, stem, members, storage);
    if error.Some? {
      return Err(error.value);
    }
    return Ok(Processed(packageId, packageSha, |content|, packageKey, packageWrite.value, entries));
  }

  /** The loop over the members; it ends at the first error. */
  method WriteMembers(z: Zip, stem: string, members: seq<Member>, storage: PackageStorage)
    returns (entries: seq<Entry>, error: Option<Rejection>)
    requires storage.Sha() == z.sha
    requires forall i :: 0 <= i < |members| ==> ".." !in PathOf(EntryKey(stem, members[i].name))
    modifies if storage.InMemory? then {storage.memory as object} else {storage.local as object}
    ensures Progress(storage.Contents(), entries, error) == WriteAll(z, old(storage.Contents()), stem, members)
  {
    hide EntryKey, Suffix, Lower, StripDots, Put, PathOf;
    entries, error := [], None;
    for i := 0 to |members|
      invariant WriteAll(z, old(storage.Contents()), stem, members[..i]) == Progress(storage.Contents(), entries, None)
    {
      assert members[..i + 1][..i] == members[..i];
      var name, data := members[i].name, members[i].data;
      var entryKey := EntryKey(stem, name);
      var entryWrite := storage.Write(entryKey, data);
      if entryWrite.Err? {
        ErrorStays(z, old(storage.Contents()), stem, members, i + 1);
        return entries, Some(entryWrite.error);
      }
      entries := entries + [
        Entry(name, Lower(StripDots(Suffix(name))), z.sha(data), |data|, entryKey, entryWrite.value)];
    }
    assert members[..|members|] == members;
    return entries, None;
  }

  lemma {:induction false} ErrorStays(z: Zip, s: Storage, stem: string, members: seq<Member>, k: nat)
    requires k <= |members| && WriteAll(z, s, stem, members[..k]).error.Some?
    ensures WriteAll(z, s, stem, members) == WriteAll(z, s, stem, members[..k])
    decreases |members|
  {
    if k == |members| {
      assert members[..k] == members;
    } else {
      assert members[..|members| - 1][..k] == members[..k];
      ErrorStays(z, s, stem, members[..|members| - 1], k);
    }
  }
}
