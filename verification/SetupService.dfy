/** The setup transaction as it runs: a disk, a secret provider, a pending import that remembers its
    backups and installed files, and `run_setup` itself. */
module SetupService {
  import opened Wrappers
  import opened SetupProtocol

  /** Files below one profile folder, plus the operator's own source files. */
  datatype Path = Credential(name: string) | Incoming(name: string) | Profile(name: string) | Source(name: string)

  function Read(files: map<Path, Bytes>, path: Path): Option<Bytes> {
    if path in files then Some(files[path]) else None
  }

  function Write(files: map<Path, Bytes>, path: Path, content: Option<Bytes>): map<Path, Bytes> {
    match content
    case Some(b) => files[path := b]
    case None => files - {path}
  }

  /** A file system on which any operation may fail, as its plan says. */
  class Disk {
    const plan: Plan
    const keeps: Path -> bool
    var files: map<Path, Bytes>

    constructor (plan: Plan, keeps: Path -> bool, files: map<Path, Bytes>)
      ensures this.plan == plan && this.keeps == keeps && this.files == files
    {
      this.plan := plan;
      this.keeps := keeps;
      this.files := files;
    }

    /** `os.replace`: atomic. */
    method Replace(site: Site, source: Path, target: Path) returns (ok: bool)
      requires source != target
      modifies this
      ensures ok == (plan.works(site) && source in old(files))
      ensures files == if ok then (old(files) - {source})[target := old(files)[source]] else old(files)
    {
      ok := plan.works(site) && source in files;
      if ok {
        files := (files - {source})[target := files[source]];
      }
    }

    /** `shutil.copy2`: a failed copy may leave debris. */
    method Copy(site: Site, source: Path, target: Path) returns (ok: bool)
      modifies this
      ensures ok == (plan.works(site) && source in old(files))
      ensures files == Write(old(files), target,
                             if ok then Some(old(files)[source]) else Debris(plan, site, Read(old(files), target)))
    {
      ok := plan.works(site) && source in files;
      ghost var before := files;
      files := Write(files, target, if ok then Some(files[source]) else Debris(plan, site, Read(files, target)));
    }

    method WriteText(site: Site, target: Path, content: Bytes) returns (ok: bool)
      modifies this
      ensures ok == plan.works(site)
      ensures files == Write(old(files), target,
                             if ok then Some(content) else Debris(plan, site, Read(old(files), target)))
    {
      ok := plan.works(site);
      files := Write(files, target, if ok then Some(content) else Debris(plan, site, Read(files, target)));
    }

    method Unlink(site: Site, path: Path)
      modifies this
      ensures files == if plan.works(site) then old(files) - {path} else old(files)
    {
      if plan.works(site) {
        files := files - {path};
      }
    }

    /** `shutil.rmtree` on the staging folder, errors reported. */
    method ClearIncoming(site: Site) returns (ok: bool)
      modifies this
      ensures ok == plan.works(site)
      ensures files == map q | q in old(files) && (!q.Incoming? || (!ok && keeps(q))) :: old(files)[q]
    {
      ok := plan.works(site);
      files := map q | q in files && (!q.Incoming? || (!ok && keeps(q))) :: files[q];
    }

    /** `shutil.rmtree(..., ignore_errors=True)` on the staging folder. */
    method RemoveIncoming()
      modifies this
      ensures files == map q | q in old(files) && (!q.Incoming? || keeps(q)) :: old(files)[q]
    {
      files := map q | q in files && (!q.Incoming? || keeps(q)) :: files[q];
    }
  }

  class PendingImport {
    const disk: Disk
    const finals: (Path, Path)
    const staged: (Path, Path)
    var tempDir: bool
    var backups: seq<(Path, Path)>
    var installedFinals: set<Path>
    var round: nat

    function Final(f: File): Path {
      if f.Cert? then finals.0 else finals.1
    }

    function StagedAt(f: File): Path {
      if f.Cert? then staged.0 else staged.1
    }

    function BackupAt(f: File): Path {
      Incoming(Final(f).name + ".bak")
    }

    function FileOf(final: Path): File {
      if final == finals.0 then Cert else Key
    }

    /** The six paths of copied mode differ. */
    ghost predicate PathsOk() {
      && finals.0.Credential? && finals.1.Credential? && finals.0 != finals.1
      && staged == (Incoming(finals.0.name), Incoming(finals.1.name))
      && BackupAt(Cert) != BackupAt(Key)
      && staged.0 != BackupAt(Key) && staged.1 != BackupAt(Cert)
    }

    ghost predicate BackupsOk()
      reads `backups
    {
      && (forall i :: 0 <= i < |backups| ==>
            backups[i] == (finals.0, BackupAt(Cert)) || backups[i] == (finals.1, BackupAt(Key)))
      && (forall i, j :: 0 <= i < j < |backups| ==> backups[i] != backups[j])
    }

    ghost predicate Valid()
      reads this
    {
      tempDir ==> PathsOk() && installedFinals <= {finals.0, finals.1} && BackupsOk()
    }

    ghost function SlotOf(f: File): Slot
      reads this, disk
    {
      Slot(Read(disk.files, Final(f)), Read(disk.files, StagedAt(f)), Read(disk.files, BackupAt(f)),
           (Final(f), BackupAt(f)) in backups, Final(f) in installedFinals)
    }

    ghost predicate Listed(f: File)
      reads this
    {
      (Final(f), BackupAt(f)) in backups
    }

    ghost function View(): Import
      reads this, disk
    {
      Import(SlotOf(Cert), SlotOf(Key), tempDir, round)
    }

    function Leaves(): Leftover {
      Leftover(disk.keeps(StagedAt(Cert)), disk.keeps(BackupAt(Cert)),
               disk.keeps(StagedAt(Key)), disk.keeps(BackupAt(Key)))
    }

    ghost predicate OthersKept(before: map<Path, Bytes>)
      reads disk
    {
      forall q: Path :: !q.Incoming? && q != finals.0 && q != finals.1 ==> Read(disk.files, q) == Read(before, q)
    }

    /** Copied mode, once both copies are in the staging folder. */
    constructor Copied(disk: Disk, certificateName: string, privateKeyName: string)
      requires certificateName != privateKeyName
      requires certificateName != privateKeyName + ".bak" && privateKeyName != certificateName + ".bak"
      ensures Valid() && this.disk == disk && tempDir && backups == [] && installedFinals == {} && round == 0
      ensures finals == (Credential(certificateName), Credential(privateKeyName))
      ensures staged == (Incoming(certificateName), Incoming(privateKeyName))
    {
      this.disk := disk;
      finals := (Credential(certificateName), Credential(privateKeyName));
      staged := (Incoming(certificateName), Incoming(privateKeyName));
      tempDir, backups, installedFinals, round := true, [], {}, 0;
      new;
      BackupNamesDiffer(certificateName, privateKeyName);
    }

    /** Referenced mode: the operator's files stay where they are. */
    constructor Referenced(disk: Disk, certificate: Path, privateKey: Path)
      ensures Valid() && this.disk == disk && !tempDir
              && finals == (certificate, privateKey) && staged == finals && round == 0
    {
      this.disk := disk;
      finals, staged := (certificate, privateKey), (certificate, privateKey);
      tempDir, backups, installedFinals, round := false, [], {}, 0;
    }

    function Other(f: File): File {
      if f.Cert? then Key else Cert
    }

    /** `rollback`, first loop: unlink what was installed. */
    method UnlinkInstalled()
      requires Valid() && tempDir
      modifies disk
      ensures SlotOf(Cert) == RemoveInstalled(disk.plan, round, Cert, old(SlotOf(Cert)))
      ensures SlotOf(Key) == RemoveInstalled(disk.plan, round, Key, old(SlotOf(Key)))
      ensures OthersKept(old(disk.files))
    {
      var todo := installedFinals;
      while todo != {}
        invariant todo <= installedFinals
        invariant SlotOf(Cert) == if Final(Cert) in todo then old(SlotOf(Cert))
                                  else RemoveInstalled(disk.plan, round, Cert, old(SlotOf(Cert)))
        invariant SlotOf(Key) == if Final(Key) in todo then old(SlotOf(Key))
                                 else RemoveInstalled(disk.plan, round, Key, old(SlotOf(Key)))
        invariant OthersKept(old(disk.files))
        decreases todo
      {
        var final :| final in todo;
        if final in disk.files {
          disk.Unlink(RollUnlink(round, FileOf(final)), final);
        }
        todo := todo - {final};
      }
    }

    /** `rollback`, when a backup cannot be moved: copy it and drop it. */
    method CopyBack(f: File) returns (restored: bool)
      requires Valid() && tempDir && BackupAt(f) in disk.files && !disk.plan.works(RollReplace(round, f)) && Listed(f)
      modifies disk
      ensures (SlotOf(f), restored) == RestoreBackup(disk.plan, round, f, old(SlotOf(f)))
      ensures SlotOf(Other(f)) == old(SlotOf(Other(f)))
      ensures OthersKept(old(disk.files))
    {
      hide BackupsOk;
      var copied := disk.Copy(RollCopy(round, f), BackupAt(f), Final(f));
      if copied {
        disk.Unlink(RollDrop(round, f), BackupAt(f));
      }
      restored := copied && BackupAt(f) !in disk.files;
    }

    /** `rollback`, body of the second loop. */
    method RestoreOne(f: File) returns (restored: bool)
      requires Valid() && tempDir && Listed(f)
      modifies disk
      ensures (SlotOf(f), restored) == RestoreBackup(disk.plan, round, f, old(SlotOf(f)))
      ensures SlotOf(Other(f)) == old(SlotOf(Other(f)))
      ensures OthersKept(old(disk.files))
    {
      hide BackupsOk, Debris;
      restored := true;
      if BackupAt(f) in disk.files {
        var moved := disk.Replace(RollReplace(round, f), BackupAt(f), Final(f));
        if !moved {
          restored := CopyBack(f);
        }
      }
    }

    method RestoreBackups() returns (restoredAll: bool)
      requires Valid() && tempDir
      modifies disk
      ensures SlotOf(Cert) == RestoreBackup(disk.plan, round, Cert, old(SlotOf(Cert))).0
      ensures SlotOf(Key) == RestoreBackup(disk.plan, round, Key, old(SlotOf(Key))).0
      ensures restoredAll == (RestoreBackup(disk.plan, round, Cert, old(SlotOf(Cert))).1
                              && RestoreBackup(disk.plan, round, Key, old(SlotOf(Key))).1)
      ensures OthersKept(old(disk.files))
    {
      restoredAll := true;
      ghost var cert := RestoreBackup(disk.plan, round, Cert, SlotOf(Cert));
      ghost var key := RestoreBackup(disk.plan, round, Key, SlotOf(Key));
      var pairs := backups;
      for i := 0 to |pairs|
        invariant SlotOf(Cert) == if (Final(Cert), BackupAt(Cert)) in pairs[i..] then old(SlotOf(Cert)) else cert.0
        invariant SlotOf(Key) == if (Final(Key), BackupAt(Key)) in pairs[i..] then old(SlotOf(Key)) else key.0
        invariant restoredAll == (((Final(Cert), BackupAt(Cert)) in pairs[i..] || cert.1)
                                  && ((Final(Key), BackupAt(Key)) in pairs[i..] || key.1))
        invariant OthersKept(old(disk.files))
      {
        hide RestoreBackup;
        assert pairs[i..] == [pairs[i]] + pairs[i + 1..];
        var restored := RestoreOne(FileOf(pairs[i].0));
        restoredAll := restoredAll && restored;
      }
    }

    /** Removing the staging folder, and forgetting it. */
    method DropFolder()
      requires Valid() && tempDir
      modifies this, disk
      ensures Valid() && OthersKept(old(disk.files)) && !tempDir
              && round == old(round) && backups == [] && installedFinals == {}
      ensures SlotOf(Cert) == Swept(Leaves().certStaged, Leaves().certBackup, old(SlotOf(Cert)))
      ensures SlotOf(Key) == Swept(Leaves().keyStaged, Leaves().keyBackup, old(SlotOf(Key)))
    {
      disk.RemoveIncoming();
      tempDir, backups, installedFinals := false, [], {};
    }

    method Rollback()
      requires Valid()
      modifies this, disk
      ensures Valid() && OthersKept(old(disk.files))
      ensures View() == SetupProtocol.Rollback(disk.plan, Leaves(), old(View()))
    {
      if !tempDir {
        return;
      }
      hide RestoreBackup, RemoveInstalled, Swept;
      UnlinkInstalled();
      var restoredAll := RestoreBackups();
      if restoredAll {
        DropFolder();
      }
      round := round + 1;
    }

    /** `commit`: move an existing final file to its backup path and remember it. */
    method MoveOne(f: File) returns (ok: bool)
      requires Valid() && tempDir && !Listed(f)
      modifies this, disk
      ensures Valid() && tempDir && round == old(round)
              && installedFinals == old(installedFinals) && OthersKept(old(disk.files))
      ensures (SlotOf(f), ok) == MoveToBackup(disk.plan, f, old(SlotOf(f)))
      ensures SlotOf(Other(f)) == old(SlotOf(Other(f)))
    {
      ok := true;
      if Final(f) in disk.files {
        ok := disk.Replace(BackupMove(f), Final(f), BackupAt(f));
        if ok {
          backups := backups + [(Final(f), BackupAt(f))];
        }
      }
    }

    /** `commit`: move the staged file to its final path and remember it. */
    method InstallOne(f: File) returns (ok: bool)
      requires Valid() && tempDir
      modifies this, disk
      ensures Valid() && tempDir && round == old(round) && backups == old(backups) && OthersKept(old(disk.files))
      ensures (SlotOf(f), ok) == InstallStaged(disk.plan, f, old(SlotOf(f)))
      ensures SlotOf(Other(f)) == old(SlotOf(Other(f)))
    {
      hide BackupsOk;
      ok := disk.Replace(Install(f), StagedAt(f), Final(f));
      if ok {
        installedFinals := installedFinals + {Final(f)};
      }
    }

    /** One pair of `commit`'s loop; on a failed install it rolls back and reports failure. */
    method CommitOne(f: File) returns (ok: bool)
      requires Valid() && tempDir && !Listed(f)
      modifies this, disk
      ensures Valid() && OthersKept(old(disk.files))
      ensures (View(), ok) == CommitFile(disk.plan, Leaves(), f, old(View()))
      ensures ok ==> tempDir && (Listed(Other(f)) <==> old(Listed(Other(f))))
    {
      hide InstallStaged, PathsOk, BackupsOk;
      ok := MoveOne(f);
      if !ok {
        return;
      }
      ok := InstallOne(f);
      if !ok {
        Rollback();
      }
    }

    method Commit() returns (ok: bool)
      requires Valid()
      modifies this, disk
      ensures Valid() && OthersKept(old(disk.files))
      ensures (View(), ok) == SetupProtocol.Commit(disk.plan, Leaves(), old(View()))
    {
      if !tempDir {
        return true;
      }
      backups, installedFinals := [], {};
      hide CommitFile;
      ok := CommitOne(Cert);
      if ok {
        ok := CommitOne(Key);
      }
    }

    method Finalize()
      requires Valid()
      modifies this, disk
      ensures Valid() && OthersKept(old(disk.files))
      ensures View() == SetupProtocol.Finalize(Leaves(), old(View()))
    {
      if tempDir {
        disk.RemoveIncoming();
        tempDir := false;
      }
    }
  }

  /** The secret provider, for the one phrase of this profile. */
  class Provider {
    const plan: Plan
    var phrase: Option<string>

    constructor (plan: Plan, phrase: Option<string>)
      ensures this.plan == plan && this.phrase == phrase
    {
      this.plan := plan;
      this.phrase := phrase;
    }

    method Store(site: Site, value: string) returns (ok: bool)
      modifies this
      ensures ok == plan.works(site)
      ensures phrase == if ok then Some(value) else plan.spoil(old(phrase))
    {
      ok := plan.works(site);
      phrase := if ok then Some(value) else plan.spoil(phrase);
    }

    method Delete(site: Site)
      modifies this
      ensures phrase == if plan.supportsDelete && plan.works(site) then None else old(phrase)
    {
      if plan.supportsDelete && plan.works(site) {
        phrase := None;
      }
    }

    /** `_backup_phrase_for_rollback`. */
    method Backup() returns (ok: bool, backup: Option<string>)
      ensures ok == (plan.works(PhraseExists) && (phrase.Some? ==> plan.works(PhraseResolve)))
      ensures ok ==> backup == phrase
    {
      if !plan.works(PhraseExists) {
        return false, None;
      }
      if phrase.None? {
        return true, None;
      }
      ok := plan.works(PhraseResolve);
      backup := if ok then phrase else None;
    }

    /** `_restore_phrase_after_failure`. */
    method Restore(backup: Option<string>)
      modifies this
      ensures phrase == if backup.Some? then (if plan.works(PhraseRestore) then backup else plan.spoil(old(phrase)))
                        else if plan.supportsDelete && plan.works(PhraseDelete) then None
                        else old(phrase)
    {
      if backup.Some? {
        var _ := Store(PhraseRestore, backup.value);
      } else {
        Delete(PhraseDelete);
      }
    }
  }

  const PROFILE_JSON := Profile("profile.json")
  const PROFILE_TMP := Profile("profile.json.tmp")

  /** Staging works: the folder can be cleared, and both files are there and can be copied. */
  predicate StagingWorks(p: Plan, files: map<Path, Bytes>, certificate: Path, privateKey: Path) {
    && p.works(StageSweep) && p.works(StageCopy(Cert)) && certificate in files
    && p.works(StageCopy(Key)) && privateKey in files
  }

  /** Clears the staging folder and copies both files into it; a failure removes the folder again. */
  method CopyBoth(disk: Disk, certificate: Path, certName: string, privateKey: Path, keyName: string)
    returns (ok: bool)
    requires !certificate.Incoming? && !privateKey.Incoming? && certName != keyName
    modifies disk
    ensures forall q: Path :: !q.Incoming? ==> Read(disk.files, q) == Read(old(disk.files), q)
    ensures ok <==> StagingWorks(disk.plan, old(disk.files), certificate, privateKey)
    ensures ok ==>
              && Read(disk.files, Incoming(certName)) == Read(old(disk.files), certificate)
              && Read(disk.files, Incoming(keyName)) == Read(old(disk.files), privateKey)
              && forall n: string :: n != certName && n != keyName ==> Read(disk.files, Incoming(n)) == None
  {
    var cleared := disk.ClearIncoming(StageSweep);
    if !cleared {
      return false;
    }
    assert certificate in disk.files <==> certificate in old(disk.files);
    var first := disk.Copy(StageCopy(Cert), certificate, Incoming(certName));
    if !first {
      disk.RemoveIncoming();
      return false;
    }
    assert privateKey in disk.files <==> privateKey in old(disk.files);
    ok := disk.Copy(StageCopy(Key), privateKey, Incoming(keyName));
    if !ok {
      disk.RemoveIncoming();
    }
  }

  /** `stage_credentials_for_appdata` in copied mode. A failure leaves every final file alone. */
  method StageCopies(disk: Disk, certificate: Path, certSuffix: string, privateKey: Path, keySuffix: string)
    returns (staged: Option<PendingImport>)
    requires !certificate.Incoming? && !privateKey.Incoming?
    modifies disk
    ensures forall q: Path :: !q.Incoming? ==> Read(disk.files, q) == Read(old(disk.files), q)
    ensures staged.Some? <==> StagingWorks(disk.plan, old(disk.files), certificate, privateKey)
    ensures staged.Some? ==>
              var im := staged.value;
              && fresh(im) && im.Valid() && im.disk == disk && im.tempDir && Staged(im.View())
              && im.finals == (Credential("certificate" + certSuffix), Credential("private-key" + keySuffix))
              && im.View().cert.staged == Read(old(disk.files), certificate)
              && im.View().key.staged == Read(old(disk.files), privateKey)
  {
    var certName, keyName := "certificate" + certSuffix, "private-key" + keySuffix;
    NamesDiffer(certSuffix, keySuffix);
    var copied := CopyBoth(disk, certificate, certName, privateKey, keyName);
    if !copied {
      return None;
    }
    hide PendingImport.Valid;
    BakIsLonger(certName, keyName);
    var im := new PendingImport.Copied(disk, certName, keyName);
    return Some(im);
  }

  lemma NamesDiffer(certSuffix: string, keySuffix: string)
    ensures var c, k := "certificate" + certSuffix, "private-key" + keySuffix;
            c != k && c != k + ".bak" && k != c + ".bak" && k + ".bak" != c && c + ".bak" != k
  {
    var c, k := "certificate" + certSuffix, "private-key" + keySuffix;
    assert c[0] == 'c' && k[0] == 'p' && (c + ".bak")[0] == 'c' && (k + ".bak")[0] == 'p';
  }

  lemma BakIsLonger(a: string, b: string)
    ensures a + ".bak" != a && b + ".bak" != b
  {
    assert |a + ".bak"| == |a| + 4 && |b + ".bak"| == |b| + 4;
  }

  ghost function StateOf(im: PendingImport, provider: Provider): Setup
    reads im, im.disk, provider
  {
    Setup(im.View(), Read(im.disk.files, PROFILE_JSON), Read(im.disk.files, PROFILE_TMP), provider.phrase)
  }

  ghost predicate AwayFromProfile(im: PendingImport) {
    !im.finals.0.Profile? && !im.finals.1.Profile? && !im.staged.0.Profile? && !im.staged.1.Profile?
  }

  method PrepareSteps(im: PendingImport, provider: Provider, document: Bytes, phrase: string)
    returns (ok: bool, loaded: bool, backup: Option<string>)
    requires im.Valid() && provider.plan == im.disk.plan && AwayFromProfile(im)
    modifies im.disk, provider
    ensures Tried(StateOf(im, provider), ok, loaded, backup)
            == Prepare(im.disk.plan, old(StateOf(im, provider)), document, phrase)
    ensures im.View() == old(im.View()) && (ok ==> Read(im.disk.files, PROFILE_TMP) == Some(document))
  {
    hide PendingImport.BackupsOk;
    loaded, backup := false, None;
    ok := im.disk.WriteText(ProfileWrite, PROFILE_TMP, document);
    if !ok {
      return;
    }
    ok, backup := provider.Backup();
    if !ok {
      backup := None;
      return;
    }
    loaded := true;
    ok := provider.Store(PhraseStore, phrase);
  }

  /** `os.replace` of the profile document. */
  method SwapProfile(im: PendingImport) returns (ok: bool)
    requires im.Valid() && AwayFromProfile(im)
    modifies im.disk
    ensures im.View() == old(im.View()) && im.Valid()
    ensures ok == (im.disk.plan.works(ProfileSwap) && Read(old(im.disk.files), PROFILE_TMP).Some?)
    ensures Read(im.disk.files, PROFILE_JSON) == Read(old(im.disk.files), if ok then PROFILE_TMP else PROFILE_JSON)
    ensures Read(im.disk.files, PROFILE_TMP) == if ok then None else Read(old(im.disk.files), PROFILE_TMP)
  {
    ok := im.disk.Replace(ProfileSwap, PROFILE_TMP, PROFILE_JSON);
  }

  /** The `try` block of `run_setup`. */
  method TrySteps(im: PendingImport, provider: Provider, document: Bytes, phrase: string)
    returns (ok: bool, loaded: bool, backup: Option<string>)
    requires im.Valid() && provider.plan == im.disk.plan && AwayFromProfile(im)
    modifies im, im.disk, provider
    ensures im.Valid()
    ensures Tried(StateOf(im, provider), ok, loaded, backup)
         == Try(im.disk.plan, im.Leaves(), old(StateOf(im, provider)), document, phrase)
  {
    hide SetupProtocol.Commit, SetupProtocol.Finalize, Prepare, PendingImport.BackupsOk, PendingImport.PathsOk;
    ok, loaded, backup := PrepareSteps(im, provider, document, phrase);
    if !ok {
      return;
    }
    ok := im.Commit();
    if !ok {
      return;
    }
    ok := SwapProfile(im);
    if !ok {
      return;
    }
    im.Finalize();
  }

  /** The `except` block of `run_setup`. */
  method CompensateFailure(im: PendingImport, provider: Provider, loaded: bool, backup: Option<string>)
    requires im.Valid() && provider.plan == im.disk.plan && AwayFromProfile(im)
    modifies im, im.disk, provider
    ensures im.Valid()
    ensures StateOf(im, provider)
            == SetupProtocol.Compensate(im.disk.plan, im.Leaves(), old(StateOf(im, provider)), loaded, backup)
  {
    hide SetupProtocol.Rollback, PendingImport.BackupsOk;
    im.Rollback();
    if loaded {
      provider.Restore(backup);
    }
    im.disk.Unlink(TmpUnlink, PROFILE_TMP);
  }

  /** What the protocol starts from in copied mode, as far as losing the old certificate depends on it. */
  function Begun(certFinal: Option<Bytes>, keyFinal: Option<Bytes>, phrase: Option<string>): Setup {
    Setup(
      Import(Slot(certFinal, None, None, false, false), Slot(keyFinal, None, None, false, false), true, 0),
      None, None, phrase)
  }

  /** The bytes are at a final path or in its backup in the staging folder. */
  predicate StillThere(files: map<Path, Bytes>, name: string, before: Option<Bytes>) {
    before.Some? ==>
      Read(files, Credential(name)) == before || Read(files, Incoming(name + ".bak")) == before
  }

  /** `run_setup` once the files are selected and guarded. `source` are the operator's files in copied
      mode, or the files to be referenced. */
  method RunSetup(disk: Disk, provider: Provider, source: (Path, Path), suffixes: (string, string), copied: bool,
                  digest: Bytes -> string, render: string -> Bytes, phrase: string)
    returns (ok: bool, finals: (Path, Path))
    requires provider.plan == disk.plan && source.0.Source? && source.1.Source?
    modifies disk, provider
    ensures finals == if copied then (Credential("certificate" + suffixes.0), Credential("private-key" + suffixes.1))
                      else source
    ensures ok ==> source.0 in old(disk.files)
    ensures ok ==>
              && Read(disk.files, finals.0) == Read(old(disk.files), source.0)
              && Read(disk.files, finals.1) == Read(old(disk.files), source.1)
              && Read(disk.files, PROFILE_JSON) == Some(render(digest(old(disk.files)[source.0])))
              && provider.phrase == Some(phrase)
    ensures !ok ==> Read(disk.files, PROFILE_JSON) == Read(old(disk.files), PROFILE_JSON)
    ensures !ok && CompensationWorks(disk.plan) ==>
              && Read(disk.files, finals.0) == Read(old(disk.files), finals.0)
              && Read(disk.files, finals.1) == Read(old(disk.files), finals.1)
              && provider.phrase == old(provider.phrase)
    ensures !ok && copied ==>
              var cert, key := Read(old(disk.files), finals.0), Read(old(disk.files), finals.1);
              && StillThere(disk.files, "private-key" + suffixes.1, key)
              && (cert.Some? ==>
                    (StillThere(disk.files, "certificate" + suffixes.0, cert) <==>
                     !(StagingWorks(disk.plan, old(disk.files), source.0, source.1)
                       && SecondRollbackDestroys(disk.plan, Begun(cert, key, old(provider.phrase))))))
  {
    hide Try, CompensationWorks, SetupProtocol.Compensate, PendingImport.BackupsOk, StepsWork;
    finals := if copied then (Credential("certificate" + suffixes.0), Credential("private-key" + suffixes.1))
              else source;
    var im: PendingImport;
    if copied {
      var staged := StageCopies(disk, source.0, suffixes.0, source.1, suffixes.1);
      if staged.None? {
        return false, finals;
      }
      im := staged.value;
    } else {
      im := new PendingImport.Referenced(disk, source.0, source.1);
    }
    if im.staged.0 !in disk.files {
      return false, finals;
    }
    var document := render(digest(disk.files[im.staged.0]));
    ghost var before := StateOf(im, provider);
    var loaded, backup;
    ok, loaded, backup := TrySteps(im, provider, document, phrase);
    if !ok {
      CompensateFailure(im, provider, loaded, backup);
      FailureKeepsProfile(disk.plan, im.Leaves(), before, document, phrase);
      OldBytesSurviveExactly(disk.plan, im.Leaves(), before, document, phrase);
      if CompensationWorks(disk.plan) {
        FailureRestoresAll(disk.plan, im.Leaves(), before, document, phrase);
      }
    } else {
      SuccessIsComplete(disk.plan, im.Leaves(), before, document, phrase);
    }
  }

  lemma BackupNamesDiffer(a: string, b: string)
    requires a != b
    ensures a + ".bak" != b + ".bak"
  {
    assert (a + ".bak")[..|a|] == a;
    assert (b + ".bak")[..|b|] == b;
  }
}
