/** The credential setup transaction as a protocol over values: two credential files, the profile
    document and the stored phrase, with a fault possible at every operation. */
module SetupProtocol {
  import opened Wrappers

  datatype File = Cert | Key

  /** Every place where an operation can fail. `round` counts the calls of `rollback`. */
  datatype Site =
    | StageSweep | StageCopy(file: File)
    | ProfileWrite | PhraseExists | PhraseResolve | PhraseStore
    | BackupMove(file: File) | Install(file: File) | ProfileSwap
    | RollUnlink(round: nat, file: File) | RollReplace(round: nat, file: File)
    | RollCopy(round: nat, file: File) | RollDrop(round: nat, file: File)
    | PhraseRestore | PhraseDelete | TmpUnlink

  /** One choice of faults. A failed copy or write may leave debris at its target, and a failed store may
      spoil the phrase. */
  datatype Plan = Plan(
    works: Site -> bool,
    debris: Site -> Option<Bytes>,
    spoil: Option<string> -> Option<string>,
    supportsDelete: bool)

  function Debris(p: Plan, site: Site, before: Option<Bytes>): Option<Bytes> {
    match p.debris(site)
    case Some(b) => Some(b)
    case None => before
  }

  /** What is on disk for one credential file, and what the pending import remembers about it. */
  datatype Slot = Slot(
    final: Option<Bytes>,
    staged: Option<Bytes>,
    backup: Option<Bytes>,
    registered: bool,
    installed: bool)

  /** A pending import; `open` while `temp_dir` is set. */
  datatype Import = Import(cert: Slot, key: Slot, open: bool, round: nat)

  // ----- Moves of one file -----

  function MoveToBackup(p: Plan, f: File, s: Slot): (Slot, bool) {
    if s.final.None? then (s, true)
    else if p.works(BackupMove(f)) then (s.(final := None, backup := s.final, registered := true), true)
    else (s, false)
  }

  function InstallStaged(p: Plan, f: File, s: Slot): (Slot, bool) {
    if p.works(Install(f)) && s.staged.Some? then (s.(final := s.staged, staged := None, installed := true), true)
    else (s, false)
  }

  function RemoveInstalled(p: Plan, round: nat, f: File, s: Slot): Slot {
    if s.installed && s.final.Some? && p.works(RollUnlink(round, f)) then s.(final := None) else s
  }

  /** Restoring one backup: move it back, or else copy it back and drop it. The flag is the share of
      this file in `restored_all`. */
  function RestoreBackup(p: Plan, round: nat, f: File, s: Slot): (Slot, bool) {
    if !s.registered || s.backup.None? then (s, true)
    else if p.works(RollReplace(round, f)) then (s.(final := s.backup, backup := None), true)
    else if p.works(RollCopy(round, f)) then
      if p.works(RollDrop(round, f)) then (s.(final := s.backup, backup := None), true)
      else (s.(final := s.backup), false)
    else (s.(final := Debris(p, RollCopy(round, f), s.final)), false)
  }

  function RollSlot(p: Plan, round: nat, f: File, s: Slot): (Slot, bool) {
    RestoreBackup(p, round, f, RemoveInstalled(p, round, f, s))
  }

  /** Removal of the staging folder. */
  function Swept(keepStaged: bool, keepBackup: bool, s: Slot): Slot {
    Slot(s.final, if keepStaged then s.staged else None, if keepBackup then s.backup else None, false, false)
  }

  // ----- The import -----

  /** Which staged and backup names a folder removal leaves behind. */
  datatype Leftover = Leftover(certStaged: bool, certBackup: bool, keyStaged: bool, keyBackup: bool)

  function Rollback(p: Plan, l: Leftover, im: Import): Import {
    if !im.open then im
    else
      var (cert, certBack) := RollSlot(p, im.round, Cert, im.cert);
      var (key, keyBack) := RollSlot(p, im.round, Key, im.key);
      if certBack && keyBack then
        Import(Swept(l.certStaged, l.certBackup, cert), Swept(l.keyStaged, l.keyBackup, key), false, im.round + 1)
      else Import(cert, key, true, im.round + 1)
  }

  function CommitFile(p: Plan, l: Leftover, f: File, im: Import): (Import, bool) {
    var slot := if f.Cert? then im.cert else im.key;
    var (moved, backedUp) := MoveToBackup(p, f, slot);
    if !backedUp then (im, false)
    else
      var (placed, ok) := InstallStaged(p, f, moved);
      var next := if f.Cert? then im.(cert := placed) else im.(key := placed);
      if ok then (next, true) else (Rollback(p, l, next), false)
  }

  function Commit(p: Plan, l: Leftover, im: Import): (Import, bool) {
    if !im.open then (im, true)
    else
      var begun := im.(
      cert := im.cert.(registered := false, installed := false),
      key := im.key.(registered := false, installed := false));
      var (one, ok) := CommitFile(p, l, Cert, begun);
      if !ok then (one, false) else CommitFile(p, l, Key, one)
  }

  function Finalize(l: Leftover, im: Import): Import {
    if !im.open then im
    else Import(
        im.cert.(staged := if l.certStaged then im.cert.staged else None,
                 backup := if l.certBackup then im.cert.backup else None),
        im.key.(staged := if l.keyStaged then im.key.staged else None,
                backup := if l.keyBackup then im.key.backup else None),
        false, im.round)
  }

  // ----- The whole run -----

  datatype Setup = Setup(files: Import, profile: Option<Bytes>, tmp: Option<Bytes>, phrase: Option<string>)

  function Compensate(p: Plan, l: Leftover, s: Setup, loaded: bool, backup: Option<string>): Setup {
    Setup(
      Rollback(p, l, s.files),
      s.profile,
      if p.works(TmpUnlink) then None else s.tmp,
      if !loaded then s.phrase
      else if backup.Some? then if p.works(PhraseRestore) then backup else p.spoil(s.phrase)
      else if p.supportsDelete && p.works(PhraseDelete) then None
      else s.phrase)
  }

  /** How far the `try` block came, and what the `except` block knows about the phrase. */
  datatype Tried = Tried(state: Setup, ok: bool, loaded: bool, backup: Option<string>)

  /** The `try` block up to the stored phrase. */
  function Prepare(p: Plan, s: Setup, document: Bytes, phrase: string): Tried {
    if !p.works(ProfileWrite) then Tried(s.(tmp := Debris(p, ProfileWrite, s.tmp)), false, false, None)
    else
      var s1 := s.(tmp := Some(document));
      if !p.works(PhraseExists) || (s.phrase.Some? && !p.works(PhraseResolve)) then Tried(s1, false, false, None)
      else
        var ok := p.works(PhraseStore);
        Tried(s1.(phrase := if ok then Some(phrase) else p.spoil(s.phrase)), ok, true, s.phrase)
  }

  /** The whole `try` block. */
  function Try(p: Plan, l: Leftover, s: Setup, document: Bytes, phrase: string): Tried {
    var t := Prepare(p, s, document, phrase);
    if !t.ok then t
    else
      var (files, committed) := Commit(p, l, s.files);
      if !committed || !p.works(ProfileSwap) then t.(state := t.state.(files := files), ok := false)
      else t.(state := Setup(Finalize(l, files), Some(document), None, t.state.phrase))
  }

  /** `run_setup` from the moment the files are staged. */
  function Run(p: Plan, l: Leftover, s: Setup, document: Bytes, phrase: string): (Setup, bool) {
    var t := Try(p, l, s, document, phrase);
    if t.ok then (t.state, true) else (Compensate(p, l, t.state, t.loaded, t.backup), false)
  }

  // ----- What staging hands over -----

  predicate StagedSlot(s: Slot) {
    s.staged.Some? && s.backup.None? && !s.registered && !s.installed
  }

  /** Copied mode: both files staged, no backup yet. Referenced mode: nothing to move. */
  predicate Staged(im: Import) {
    im.round == 0 && (im.open ==> StagedSlot(im.cert) && StagedSlot(im.key))
  }

  // ----- Theorems -----

  ghost predicate StepsWork(p: Plan, s: Setup) {
    && p.works(ProfileWrite) && p.works(PhraseExists)
    && (s.phrase.Some? ==> p.works(PhraseResolve)) && p.works(PhraseStore)
    && (s.files.open ==>
          && (s.files.cert.final.Some? ==> p.works(BackupMove(Cert))) && p.works(Install(Cert))
          && (s.files.key.final.Some? ==> p.works(BackupMove(Key))) && p.works(Install(Key)))
    && p.works(ProfileSwap)
  }

  /** Setup succeeds exactly when every step works; then all four parts are the new ones. */
  lemma SuccessIsComplete(p: Plan, l: Leftover, s: Setup, document: Bytes, phrase: string)
    requires Staged(s.files)
    ensures Run(p, l, s, document, phrase).1 <==> StepsWork(p, s)
    ensures Run(p, l, s, document, phrase).1 ==>
              var after := Run(p, l, s, document, phrase).0;
              && after.profile == Some(document) && after.phrase == Some(phrase)
              && after.tmp == None && !after.files.open
              && after.files.cert.final == (if s.files.open then s.files.cert.staged else s.files.cert.final)
              && after.files.key.final == (if s.files.open then s.files.key.staged else s.files.key.final)
  {
  }

  ghost predicate CompensationWorks(p: Plan) {
    && p.supportsDelete && p.works(PhraseRestore) && p.works(PhraseDelete)
    && forall r: nat, f: File ::
         && p.works(RollUnlink(r, f)) && p.works(RollReplace(r, f))
         && p.works(RollCopy(r, f)) && p.works(RollDrop(r, f))
  }

  /** Where one file can stand when `rollback` starts: not yet moved, moved to its backup, or replaced. */
  predicate MidCommit(s: Slot, before: Option<Bytes>) {
    || (!s.registered && !s.installed && s.final == before)
    || (s.registered && s.backup.Some? && s.backup == before && (s.installed || s.final.None?))
    || (!s.registered && s.installed && before.None?)
  }

  /** One rollback, whatever fails in it: the old bytes of a replaced file are at its final path or in
      its backup, and the file reports itself restored only if they are at the final path. */
  lemma OneRollbackKeepsOldBytes(p: Plan, round: nat, f: File, s: Slot, before: Option<Bytes>)
    requires MidCommit(s, before)
    ensures var (after, restored) := RollSlot(p, round, f, s);
            && (before.Some? ==> after.final == before || after.backup == before)
            && (before.Some? && restored ==> after.final == before)
            && (before.None? ==>
                  && restored
                  && (after.final.None? || (s.installed && !p.works(RollUnlink(round, f)) && after.final == s.final)))
  {
  }

  /** The staging folder, which holds the backups, is removed only when both files are restored. */
  lemma FolderRemovedOnlyWhenRestored(p: Plan, l: Leftover, im: Import, cert: Option<Bytes>, key: Option<Bytes>)
    requires im.open && MidCommit(im.cert, cert) && MidCommit(im.key, key)
    ensures var after := Rollback(p, l, im);
            && (cert.Some? ==> after.cert.final == cert || (after.open && after.cert.backup == cert))
            && (key.Some? ==> after.key.final == key || (after.open && after.key.backup == key))
  {
    OneRollbackKeepsOldBytes(p, im.round, Cert, im.cert, cert);
    OneRollbackKeepsOldBytes(p, im.round, Key, im.key, key);
    hide RollSlot, MidCommit;
  }

  lemma WorkingRollbackRestores(p: Plan, l: Leftover, im: Import, cert: Option<Bytes>, key: Option<Bytes>)
    requires CompensationWorks(p) && im.open && MidCommit(im.cert, cert) && MidCommit(im.key, key)
    ensures var after := Rollback(p, l, im);
            !after.open && after.cert.final == cert && after.key.final == key
  {
    assert p.works(RollUnlink(im.round, Cert)) && p.works(RollUnlink(im.round, Key));
  }

  /** A failed commit stops with both files in the middle of their moves, or it has just rolled back
      from there. The state from which it did so is returned. */
  lemma FailedCommit(p: Plan, l: Leftover, im: Import) returns (stopped: Import, rolledBack: bool)
    requires im.open && Staged(im) && !Commit(p, l, im).1
    ensures stopped.open && stopped.round == 0
    ensures MidCommit(stopped.cert, im.cert.final) && MidCommit(stopped.key, im.key.final)
    ensures Commit(p, l, im).0 == if rolledBack then Rollback(p, l, stopped) else stopped
    ensures !stopped.key.installed
    ensures rolledBack && stopped.cert.installed <==>
              && (im.cert.final.Some? ==> p.works(BackupMove(Cert))) && p.works(Install(Cert))
              && (im.key.final.Some? ==> p.works(BackupMove(Key))) && !p.works(Install(Key))
    ensures stopped.cert.installed ==> (stopped.cert.registered <==> im.cert.final.Some?)
    ensures rolledBack && stopped.cert.installed ==> (stopped.key.registered <==> im.key.final.Some?)
  {
    stopped, rolledBack := im, false;
    var (cert, certMoved) := MoveToBackup(p, Cert, im.cert);
    if certMoved {
      var (certIn, certOk) := InstallStaged(p, Cert, cert);
      stopped := im.(cert := certIn);
      if !certOk {
        rolledBack := true;
      } else {
        var (key, keyMoved) := MoveToBackup(p, Key, im.key);
        if keyMoved {
          stopped, rolledBack := stopped.(key := InstallStaged(p, Key, key).0), true;
        }
      }
    }
  }

  lemma SuccessfulCommit(p: Plan, l: Leftover, im: Import)
    requires im.open && Staged(im) && Commit(p, l, im).1
    ensures var after := Commit(p, l, im).0;
            && after.open && after.round == 0 && p.works(Install(Key))
            && MidCommit(after.cert, im.cert.final) && MidCommit(after.key, im.key.final)
  {
  }

  /** All or nothing: if any step fails and the compensation works, all four parts are as before. */
  lemma FailureRestoresAll(p: Plan, l: Leftover, s: Setup, document: Bytes, phrase: string)
    requires Staged(s.files) && CompensationWorks(p) && !Run(p, l, s, document, phrase).1
    ensures var after := Run(p, l, s, document, phrase).0;
            && after.files.cert.final == s.files.cert.final
            && after.files.key.final == s.files.key.final
            && after.profile == s.profile
            && after.phrase == s.phrase
            && (p.works(TmpUnlink) ==> after.tmp == None)
  {
    if s.files.open {
      var cert, key := s.files.cert.final, s.files.key.final;
      WorkingRollbackRestores(p, l, s.files, cert, key);
      if Commit(p, l, s.files).1 {
        SuccessfulCommit(p, l, s.files);
        WorkingRollbackRestores(p, l, Commit(p, l, s.files).0, cert, key);
      } else {
        var stopped, _ := FailedCommit(p, l, s.files);
        WorkingRollbackRestores(p, l, stopped, cert, key);
      }
      hide Rollback, Commit;
    }
  }

  /** Whatever fails, a failed setup never touches the stored profile document. */
  lemma FailureKeepsProfile(p: Plan, l: Leftover, s: Setup, document: Bytes, phrase: string)
    requires !Run(p, l, s, document, phrase).1
    ensures Run(p, l, s, document, phrase).0.profile == s.profile
  {
  }

  /** The phrase after a failed setup depends on the phrase steps alone, whatever becomes of the files: it is
      untouched if the attempt ended before it was stored, and otherwise restored, removed or left as the
      provider allows; and the temporary profile is gone if it can be removed. */
  lemma PhraseAfterFailure(p: Plan, l: Leftover, s: Setup, document: Bytes, phrase: string)
    requires !Run(p, l, s, document, phrase).1
    ensures var after := Run(p, l, s, document, phrase).0;
            var reached :=
              p.works(ProfileWrite) && p.works(PhraseExists) && (s.phrase.Some? ==> p.works(PhraseResolve));
            var left := if p.works(PhraseStore) then Some(phrase) else p.spoil(s.phrase);
            && after.phrase == (if !reached then s.phrase
                                else if s.phrase.Some? then if p.works(PhraseRestore) then s.phrase else p.spoil(left)
                                else if p.supportsDelete && p.works(PhraseDelete) then None
                                else left)
            && (p.works(TmpUnlink) ==> after.tmp == None)
  {
    hide Commit, Rollback;
  }

  predicate RestoredWithoutBackup(p: Plan, round: nat, f: File) {
    p.works(RollReplace(round, f)) || (p.works(RollCopy(round, f)) && p.works(RollDrop(round, f)))
  }

  /** The one family of runs that destroys old bytes. Both files existed, the key cannot be installed,
      the rollback inside `commit` gets the certificate back but not the key, so the pending import
      stays open with the certificate still listed as installed; the second rollback then unlinks the
      restored certificate, whose backup is gone. */
  predicate SecondRollbackDestroys(p: Plan, s: Setup) {
    && p.works(ProfileWrite) && p.works(PhraseExists)
    && (s.phrase.Some? ==> p.works(PhraseResolve)) && p.works(PhraseStore)
    && s.files.open && s.files.cert.final.Some? && s.files.key.final.Some?
    && p.works(BackupMove(Cert)) && p.works(Install(Cert)) && p.works(BackupMove(Key)) && !p.works(Install(Key))
    && RestoredWithoutBackup(p, 0, Cert) && !RestoredWithoutBackup(p, 0, Key)
    && p.works(RollUnlink(1, Cert))
  }

  /** A second rollback of a file loses its old bytes exactly when the first one had moved them back
      over an installed file and the second one can unlink it. */
  lemma SecondRollback(p: Plan, f: File, s: Slot, before: Option<Bytes>)
    requires MidCommit(s, before) && before.Some?
    ensures var (twice, restored) := RollSlot(p, 1, f, RollSlot(p, 0, f, s).0);
            && (Survives(twice, before) <==>
                !(s.installed && RestoredWithoutBackup(p, 0, f) && p.works(RollUnlink(1, f))))
            && (Survives(twice, before) && restored ==> twice.final == before)
  {
  }

  predicate Survives(s: Slot, before: Option<Bytes>) {
    before.Some? ==> s.final == before || s.backup == before
  }

  lemma OpenAfterRollback(p: Plan, l: Leftover, im: Import, cert: Option<Bytes>, key: Option<Bytes>)
    requires im.open && im.round == 0 && MidCommit(im.cert, cert) && MidCommit(im.key, key)
    ensures Rollback(p, l, im).open <==>
              || (im.cert.registered && !RestoredWithoutBackup(p, 0, Cert))
              || (im.key.registered && !RestoredWithoutBackup(p, 0, Key))
  {
  }

  lemma RollbackTwice(p: Plan, l: Leftover, im: Import, cert: Option<Bytes>, key: Option<Bytes>)
    requires im.open && im.round == 0 && MidCommit(im.cert, cert) && MidCommit(im.key, key) && !im.key.installed
    ensures var after := Rollback(p, l, Rollback(p, l, im));
            && Survives(after.key, key)
            && (cert.Some? ==>
                  (Survives(after.cert, cert) <==>
                   !(Rollback(p, l, im).open && im.cert.installed
                     && RestoredWithoutBackup(p, 0, Cert) && p.works(RollUnlink(1, Cert)))))
  {
    FolderRemovedOnlyWhenRestored(p, l, im, cert, key);
    if cert.Some? {
      SecondRollback(p, Cert, im.cert, cert);
    }
    if key.Some? {
      SecondRollback(p, Key, im.key, key);
    }
    hide RollSlot, MidCommit;
  }

  /** After a failed setup the old certificate is still on disk exactly when the run is not of that
      family; the old key always is. */
  lemma OldBytesSurviveExactly(p: Plan, l: Leftover, s: Setup, document: Bytes, phrase: string)
    requires Staged(s.files) && !Run(p, l, s, document, phrase).1
    ensures var after := Run(p, l, s, document, phrase).0.files;
            && (s.files.cert.final.Some? ==>
                (Survives(after.cert, s.files.cert.final) <==> !SecondRollbackDestroys(p, s)))
            && Survives(after.key, s.files.key.final)
  {
    var im := s.files;
    if im.open {
      var cert, key := im.cert.final, im.key.final;
      FolderRemovedOnlyWhenRestored(p, l, im, cert, key);
      if Commit(p, l, im).1 {
        SuccessfulCommit(p, l, im);
        FolderRemovedOnlyWhenRestored(p, l, Commit(p, l, im).0, cert, key);
      } else {
        var stopped, rolledBack := FailedCommit(p, l, im);
        FolderRemovedOnlyWhenRestored(p, l, stopped, cert, key);
        OpenAfterRollback(p, l, stopped, cert, key);
        RollbackTwice(p, l, stopped, cert, key);
      }
      hide Rollback, Commit, RestoredWithoutBackup, MidCommit;
    }
  }

  /** A concrete run of that family: the certificate is neither at its final path nor in its backup. */
  lemma SecondRollbackCanDestroy(l: Leftover, before: Bytes, renewed: Bytes)
    ensures var p := Plan(
                       (site: Site) => site != Install(Key) && site != RollReplace(0, Key) && site != RollCopy(0, Key),
                       (site: Site) => None, (v: Option<string>) => v, true);
            var slot := Slot(Some(before), Some(renewed), None, false, false);
            var s := Setup(Import(slot, slot, true, 0), None, None, None);
            var (after, ok) := Run(p, l, s, [], "phrase");
            Staged(s.files) && !ok && !Survives(after.files.cert, Some(before))
  {
    var p := Plan(
      (site: Site) => site != Install(Key) && site != RollReplace(0, Key) && site != RollCopy(0, Key),
      (site: Site) => None, (v: Option<string>) => v, true);
    var slot := Slot(Some(before), Some(renewed), None, false, false);
    var s := Setup(Import(slot, slot, true, 0), None, None, None);
    assert !StepsWork(p, s) && SecondRollbackDestroys(p, s) && Staged(s.files);
    hide Run, StepsWork, SecondRollbackDestroys;
    SuccessIsComplete(p, l, s, [], "phrase");
    OldBytesSurviveExactly(p, l, s, [], "phrase");
  }
}
