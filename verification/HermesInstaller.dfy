/** Installing the Hermes adapter: a sequence of foreign steps, each of which may
    fail, and the rollback after a failure. */
module HermesInstaller {
  import opened HermesState
  import opened HermesDisk
  import opened Options

  /** The steps inside the guarded block, in order. */
  datatype Step =
    | MakeStaging | FillStaging | DropBackup | MakeBackupDir | MovePlugin
    | SaveConfig | PlacePlugin | WriteConfig | WriteToken | EnablePlugin | HashOwned | WriteState | Diagnose

  /** The old plugin has been moved to the backup before this step. */
  predicate AfterMove(s: Step) {
    s != MakeStaging && s != FillStaging && s != DropBackup && s != MakeBackupDir && s != MovePlugin
  }

  /** Refused before anything changed; installed; failed at a step and rolled
      back; or failed with a rollback that was itself cut short. */
  datatype Outcome = Refused | Installed | RolledBack(step: Step) | Incomplete(step: Step)

  function FilesOf(source: seq<(string, Bytes)>): Files {
    if source == [] then map[] else FilesOf(source[..|source| - 1])[source[|source| - 1].0 := source[|source| - 1].1]
  }

  // ----- The rollback, as a function of the disk it finds -----

  function PluginPutBack(d: Disk, hadPlugin: bool): Disk {
    var d1 := RemoveTree(d, Plugin);
    if hadPlugin && BackupPlugin in d1.trees then MoveTree(d1, BackupPlugin, Plugin) else d1
  }

  function Rollback(d: Disk, hadPlugin: bool, original: map<Path, Bytes>): Disk {
    PutBack(PutBack(PutBack(PluginPutBack(d, hadPlugin), Config, original), Token, original), State, original)
  }

  lemma PutBackPuts(d: Disk, p: Path, original: map<Path, Bytes>)
    requires IsOwned(p)
    ensures var e := PutBack(d, p, original);
      && e.trees == d.trees
      && (p in e.files <==> p in original) && (p in original ==> e.files[p] == original[p])
      && (forall q :: q != p ==> (q in e.files <==> q in d.files) && (q in d.files ==> e.files[q] == d.files[q]))
  {
  }

  lemma PluginPutBackPuts(d: Disk, hadPlugin: bool)
    ensures var e := PluginPutBack(d, hadPlugin);
      e.files == d.files && (if hadPlugin then SameTree(d, BackupPlugin, e, Plugin) else Plugin !in e.trees)
  {
  }

  /** A complete rollback restores every file outside the trees, and leaves as the
      plugin whatever the backup holds. */
  lemma RollbackRestores(before: Disk, d: Disk)
    requires SameButOwned(before, d)
    ensures var r := Rollback(d, Plugin in before.trees, before.files);
      && SameOutside(before, r)
      && (if Plugin in before.trees then SameTree(d, BackupPlugin, r, Plugin) else Plugin !in r.trees)
  {
    var original := before.files;
    var d1 := PluginPutBack(d, Plugin in before.trees);
    var d2 := PutBack(d1, Config, original);
    var d3 := PutBack(d2, Token, original);
    PluginPutBackPuts(d, Plugin in before.trees);
    PutBackPuts(d1, Config, original);
    PutBackPuts(d2, Token, original);
    PutBackPuts(d3, State, original);
    hide PutBack, PluginPutBack, SameTree;
    ThreePutBack(original, d.files, PutBack(d3, State, original).files);
  }

  /** Files that agree with the originals on the adapter's own three paths and
      with the disk everywhere else are the originals. */
  lemma ThreePutBack(original: map<Path, Bytes>, d: map<Path, Bytes>, r: map<Path, Bytes>)
    requires forall p :: !IsOwned(p) ==> (p in original <==> p in d) && (p in original ==> original[p] == d[p])
    requires forall p :: !IsOwned(p) ==> (p in r <==> p in d) && (p in d ==> r[p] == d[p])
    requires forall p :: IsOwned(p) ==> (p in r <==> p in original) && (p in original ==> r[p] == original[p])
    ensures r == original
  {
    forall p ensures p in r <==> p in original {
      assert IsOwned(p) || !IsOwned(p);
    }
  }

  /** What is left of the old backup of the plugin when a step before the move
      fails: all of it, some of it, or nothing. */
  ghost predicate BackupAtFailure(before: Disk, d: Disk, step: Step) {
    match step
    case MakeStaging => SameTree(before, BackupPlugin, d, BackupPlugin)
    case FillStaging => SameTree(before, BackupPlugin, d, BackupPlugin)
    case DropBackup =>
      (BackupPlugin in d.trees ==> BackupPlugin in before.trees)
      && IsPartOf(FilesIn(d, BackupPlugin), FilesIn(before, BackupPlugin))
    case _ => BackupPlugin !in d.trees
  }

  /** The steps that are taken at all, and so can fail, by the disk before the call:
      only an old backup is dropped, only an old plugin moved, and only an old
      configuration saved. */
  predicate CanFail(before: Disk, step: Step) {
    && (step == DropBackup ==> BackupPlugin in before.trees || BackupOther in before.trees)
    && (step == MakeBackupDir || step == MovePlugin ==> Plugin in before.trees)
    && (step == SaveConfig ==> Config in before.files)
  }

  /** The disk `d` a failure of `step` may leave behind, as far as the rollback
      depends on it, when the disk before the call was `before`. */
  ghost predicate FailsAt(before: Disk, d: Disk, step: Step) {
    CanFail(before, step) &&
    if AfterMove(step) then
      SameButOwned(before, d) && (Plugin in before.trees ==> SameTree(before, Plugin, d, BackupPlugin))
    else
      SameOutside(before, d) && SameTree(before, Plugin, d, Plugin) && BackupAtFailure(before, d, step)
  }

  /** A complete rollback brings the plugin back. */
  predicate IsRestored(before: Disk, d: Disk) {
    SameTree(before, Plugin, Rollback(d, Plugin in before.trees, before.files), Plugin)
  }

  /** There was no plugin, or it has been moved, or the old backup is a copy of it
      and has not been touched. */
  predicate IsSurelyRestored(before: Disk, step: Step) {
    || Plugin !in before.trees || AfterMove(step)
    || ((step == MakeStaging || step == FillStaging) && SameTree(before, Plugin, before, BackupPlugin))
  }

  /** Or enough of the old backup may be left. */
  predicate MayBeRestored(before: Disk, step: Step) {
    || IsSurelyRestored(before, step)
    || (step == DropBackup && BackupPlugin in before.trees
        && IsPartOf(FilesIn(before, Plugin), FilesIn(before, BackupPlugin)))
  }

  lemma RestoredMeansBackup(before: Disk, d: Disk)
    requires SameButOwned(before, d)
    ensures IsRestored(before, d) <==> Plugin !in before.trees || SameTree(before, Plugin, d, BackupPlugin)
  {
    hide Rollback;
    RollbackRestores(before, d);
  }

  lemma RestoredMeansMayBe(before: Disk, d: Disk, step: Step)
    requires FailsAt(before, d, step)
    ensures IsRestored(before, d) ==> MayBeRestored(before, step)
    ensures IsSurelyRestored(before, step) ==> IsRestored(before, d)
    ensures Plugin in before.trees && (step == MakeBackupDir || step == MovePlugin) ==> !IsRestored(before, d)
  {
    RestoredMeansBackup(before, d);
    hide IsRestored;
  }

  /** The least a failing step leaves. */
  lemma WorstFailure(before: Disk, step: Step) returns (d: Disk)
    requires CanFail(before, step) && !IsSurelyRestored(before, step)
    ensures FailsAt(before, d, step) && !IsRestored(before, d)
  {
    d := if step == MakeStaging || step == FillStaging then before else RemoveTree(before, BackupPlugin);
    RestoredMeansBackup(before, d);
    hide IsRestored;
  }

  lemma BestFailure(before: Disk, step: Step) returns (d: Disk)
    requires CanFail(before, step) && MayBeRestored(before, step)
    ensures FailsAt(before, d, step) && IsRestored(before, d)
  {
    if Plugin !in before.trees {
      d := RemoveTree(before, BackupPlugin);
      if step == MakeStaging || step == FillStaging {
        d := before;
      }
    } else if step == MakeStaging || step == FillStaging {
      d := before;
    } else {
      d := before.(trees := before.trees[BackupPlugin := before.trees[Plugin]]);
    }
    RestoredMeansBackup(before, d);
    hide IsRestored;
  }

  /** By the step, where it can fail, and the disk before the call: every failure is
      followed by a rollback that brings the plugin back exactly in the first case,
      and some failure is exactly in the second. */
  lemma PluginRestoredIff(before: Disk, step: Step)
    requires CanFail(before, step)
    ensures (forall d :: FailsAt(before, d, step) ==> IsRestored(before, d)) <==> IsSurelyRestored(before, step)
    ensures (exists d :: FailsAt(before, d, step) && IsRestored(before, d)) <==> MayBeRestored(before, step)
  {
    if !IsSurelyRestored(before, step) {
      var d := WorstFailure(before, step);
    }
    if MayBeRestored(before, step) {
      var d := BestFailure(before, step);
    }
    forall d | FailsAt(before, d, step) ensures IsRestored(before, d) ==> MayBeRestored(before, step) {
      RestoredMeansMayBe(before, d, step);
    }
    forall d | FailsAt(before, d, step) ensures IsSurelyRestored(before, step) ==> IsRestored(before, d) {
      RestoredMeansMayBe(before, d, step);
    }
    hide *;
  }

  /** For instance a plugin without a backup: when the very first step fails, the
      rollback deletes it. */
  lemma EarlyFailureLosesPlugin(d: Disk)
    ensures var before := Disk(map[Plugin := map["plugin.py" := [1]]], map[]);
      FailsAt(before, d, MakeStaging) ==>
        !IsRestored(before, d) && Plugin !in Rollback(d, true, before.files).trees
  {
    var before := Disk(map[Plugin := map["plugin.py" := [1]]], map[]);
    if FailsAt(before, d, MakeStaging) {
      RestoredMeansBackup(before, d);
      RollbackRestores(before, d);
    }
    hide Rollback;
  }

  // ----- The home and the steps -----

  class Home {
    var disk: Disk
    var hermes: Hermes

    constructor (disk: Disk, hermes: Hermes)
      ensures this.disk == disk && this.hermes == hermes
    {
      this.disk, this.hermes := disk, hermes;
    }

    // Foreign calls: each may fail.

    /** A temporary file renamed into place: all of it or nothing. */
    method AtomicWrite(p: Path, data: Bytes) returns (ok: bool)
      modifies `disk
      ensures disk == if ok then Write(old(disk), p, data) else old(disk)
    {
      ok := *;
      if ok {
        disk := Write(disk, p, data);
      }
    }

    method Delete(p: Path) returns (ok: bool)
      modifies `disk
      ensures disk == if ok then Remove(old(disk), p) else old(disk)
    {
      ok := *;
      if ok {
        disk := Remove(disk, p);
      }
    }

    method MakeTree(t: Tree) returns (ok: bool)
      requires t !in disk.trees
      modifies `disk
      ensures disk == if ok then old(disk).(trees := old(disk).trees[t := map[]]) else old(disk)
    {
      ok := *;
      if ok {
        disk := disk.(trees := disk.trees[t := map[]]);
      }
    }

    /** Deleting a tree may stop half-way. */
    method DeleteTree(t: Tree) returns (ok: bool)
      modifies `disk
      ensures ok ==> disk == RemoveTree(old(disk), t)
      ensures PartlyRemoved(old(disk), disk, t)
    {
      ok := *;
      if ok || t !in disk.trees {
        disk := RemoveTree(disk, t);
      } else {
        var kept: set<string> := *;
        disk := disk.(trees := disk.trees[t := map rel | rel in disk.trees[t] && rel in kept :: disk.trees[t][rel]]);
      }
    }

    /** The backup is one directory, deleted where there is one, in any order. */
    method DeleteBackup() returns (ok: bool)
      modifies `disk
      ensures SameOutside(old(disk), disk)
      ensures SameTree(old(disk), Plugin, disk, Plugin) && SameTree(old(disk), Staging, disk, Staging)
      ensures IsPartOf(FilesIn(disk, BackupPlugin), FilesIn(old(disk), BackupPlugin))
      ensures IsPartOf(FilesIn(disk, BackupOther), FilesIn(old(disk), BackupOther))
      ensures BackupPlugin in disk.trees ==> BackupPlugin in old(disk).trees
      ensures ok ==> BackupPlugin !in disk.trees && BackupOther !in disk.trees
      ensures !ok ==> BackupPlugin in old(disk).trees || BackupOther in old(disk).trees
    {
      if BackupPlugin !in disk.trees && BackupOther !in disk.trees {
        return true;
      }
      var pluginFirst: bool := *;
      ok := DeleteTree(if pluginFirst then BackupPlugin else BackupOther);
      if ok {
        ok := DeleteTree(if pluginFirst then BackupOther else BackupPlugin);
      }
    }

    /** Renaming a directory is atomic. */
    method Rename(a: Tree, b: Tree) returns (ok: bool)
      requires a in disk.trees && b !in disk.trees
      modifies `disk
      ensures disk == if ok then MoveTree(old(disk), a, b) else old(disk)
    {
      ok := *;
      if ok {
        disk := MoveTree(disk, a, b);
      }
    }

    /** A command of the Hermes tool; a failed one may have taken effect or not. */
    method RunEnable() returns (ok: bool)
      modifies `hermes
      ensures OthersSame(old(hermes), hermes)
      ensures ok ==> StatusOf(hermes) == Enabled
    {
      CommandsKeepOthers(hermes);
      ok := *;
      var effective: bool := *;
      if ok || effective {
        hermes := EnableCommand(hermes);
      }
    }

    method RunDisable() returns (ok: bool)
      modifies `hermes
      ensures OthersSame(old(hermes), hermes)
      ensures ok ==> StatusOf(hermes) == Disabled
    {
      CommandsKeepOthers(hermes);
      ok := *;
      var effective: bool := *;
      if ok || effective {
        hermes := DisableCommand(hermes);
      }
    }

    /** Takes the adapter's tombstones off the list of disabled plugins, last one
        first, so that the positions still to come stay right. */
    method UnsetTombstones() returns (ok: bool)
      modifies `hermes
      ensures OthersSame(old(hermes), hermes)
      ensures hermes.enabled == old(hermes).enabled && hermes.entries == old(hermes).entries
      ensures ok ==> hermes.disabled == Others(old(hermes).disabled)
    {
      var before := hermes.disabled;
      var indexes := FindIndexes(before);
      var k := |indexes|;
      RemovedNothing(before, indexes);
      ok := true;
      hide RemovedFrom, AreIndexes, Others, RemoveAt;
      while k > 0
        invariant 0 <= k <= |indexes| && RemovedFrom(before, indexes, k, hermes.disabled)
        invariant Others(hermes.disabled) == Others(before)
        invariant hermes.enabled == old(hermes).enabled && hermes.entries == old(hermes).entries
      {
        var done: bool := *;
        if !done {
          return false;
        }
        k := k - 1;
        RemoveFromBack(before, indexes, k + 1, hermes.disabled);
        RemovedKeepsOthers(before, indexes, k, RemoveAt(hermes.disabled, indexes[k]));
        hermes := hermes.(disabled := RemoveAt(hermes.disabled, indexes[k]));
      }
      AllRemoved(before, indexes, hermes.disabled);
    }

    /** Brings the adapter's plugin state back to `status`. */
    method RestorePluginState(status: Status) returns (ok: bool)
      modifies `hermes
      ensures OthersSame(old(hermes), hermes)
      ensures ok ==> StatusOf(hermes) == status
    {
      if status == Enabled {
        ok := RunEnable();
        return;
      }
      ok := RunDisable();
      if !ok || status == Disabled {
        return;
      }
      OthersLeavesNone(hermes.disabled);
      ok := UnsetTombstones();
      if ok {
        var entryUnset: bool := *;
        if entryUnset {
          hermes := hermes.(entries := hermes.entries - {PLUGIN_NAME});
        }
      }
    }

    // The guarded block.

    /** Up to and including the move of the old plugin to the backup.  Whatever
        fails, the plugin and everything outside the trees are untouched. */
    method Prepare(source: seq<(string, Bytes)>) returns (failed: Option<Step>)
      requires Staging !in disk.trees
      modifies `disk
      ensures SameOutside(old(disk), disk)
      ensures failed.Some? ==> CanFail(old(disk), failed.value)
      ensures failed.Some? ==> !AfterMove(failed.value) && SameTree(old(disk), Plugin, disk, Plugin)
      ensures failed.Some? ==> BackupAtFailure(old(disk), disk, failed.value)
      ensures failed.None? ==> Staging in disk.trees && disk.trees[Staging] == FilesOf(source) && Plugin !in disk.trees
      ensures failed.None? ==> SameTree(old(disk), Plugin, disk, BackupPlugin) && FilesIn(disk, BackupOther) == map[]
    {
      var ok := MakeTree(Staging);
      if !ok {
        return Some(MakeStaging);
      }
      for i := 0 to |source|
        invariant Staging in disk.trees && disk.trees[Staging] == FilesOf(source[..i])
        invariant SameOutside(old(disk), disk)
        invariant SameOtherTrees(old(disk), disk, Staging)
      {
        ok := AtomicWrite(In(Staging, source[i].0), source[i].1);
        if !ok {
          return Some(FillStaging);
        }
        assert source[..i + 1][..i] == source[..i];
      }
      assert source[..|source|] == source;
      ok := DeleteBackup();
      if !ok {
        return Some(DropBackup);
      }
      if Plugin in disk.trees {
        ok := MakeTree(BackupOther);
        if !ok {
          return Some(MakeBackupDir);
        }
        ok := Rename(Plugin, BackupPlugin);
        if !ok {
          return Some(MovePlugin);
        }
      }
      failed := None;
    }

    /** From saving the old configuration to the final diagnosis.  What is saved is
        the old configuration, byte for byte, and nothing where there was none. */
    method Commit(config: Bytes, token: Bytes, state: Bytes, oldConfig: Option<Bytes>) returns (failed: Option<Step>)
      requires Staging in disk.trees && Plugin !in disk.trees
      modifies this
      ensures SameButOwned(old(disk), disk) && SameTree(old(disk), BackupPlugin, disk, BackupPlugin)
      ensures OthersSame(old(hermes), hermes)
      ensures failed.Some? ==> AfterMove(failed.value) && (failed.value == SaveConfig ==> oldConfig.Some?)
      ensures failed.None? ==>
        && SameTree(old(disk), Staging, disk, Plugin) && Staging !in disk.trees
        && disk.files == old(disk).files[Config := config][Token := token][State := state]
        && StatusOf(hermes) == Enabled
        && FilesIn(disk, BackupOther) ==
             if oldConfig.Some? then FilesIn(old(disk), BackupOther)["mno-memory.json" := oldConfig.value]
             else FilesIn(old(disk), BackupOther)
    {
      var ok: bool;
      if oldConfig.Some? {
        ok := AtomicWrite(In(BackupOther, "mno-memory.json"), oldConfig.value);
        if !ok {
          return Some(SaveConfig);
        }
      }
      ok := Rename(Staging, Plugin);
      if !ok {
        return Some(PlacePlugin);
      }
      ok := AtomicWrite(Config, config);
      if !ok {
        return Some(WriteConfig);
      }
      ok := AtomicWrite(Token, token);
      if !ok {
        return Some(WriteToken);
      }
      ok := RunEnable();
      if !ok {
        return Some(EnablePlugin);
      }
      var hashed: bool := *;
      if !hashed {
        return Some(HashOwned);
      }
      ok := AtomicWrite(State, state);
      if !ok {
        return Some(WriteState);
      }
      var healthy: bool := *;
      if !healthy {
        return Some(Diagnose);
      }
      failed := None;
    }

    /** Undoes the files; stops where a step fails. */
    method RollBackFiles(hadPlugin: bool, original: map<Path, Bytes>) returns (ok: bool)
      modifies `disk
      ensures ok ==> disk == Rollback(old(disk), hadPlugin, original)
    {
      ok := DeleteTree(Plugin);
      if !ok {
        return;
      }
      if hadPlugin && BackupPlugin in disk.trees {
        ok := Rename(BackupPlugin, Plugin);
        if !ok {
          return;
        }
      }
      ok := Restore(Config, original);
      if !ok {
        return;
      }
      ok := Restore(Token, original);
      if !ok {
        return;
      }
      ok := Restore(State, original);
    }

    method Restore(p: Path, original: map<Path, Bytes>) returns (ok: bool)
      modifies `disk
      ensures ok ==> disk == PutBack(old(disk), p, original)
    {
      if p in original {
        ok := AtomicWrite(p, original[p]);
      } else {
        ok := Delete(p);
      }
    }

    /** The installation.  `atFailure` is the disk as the failing step left it. */
    method Install(source: seq<(string, Bytes)>, config: Bytes, token: Bytes, state: Bytes)
      returns (outcome: Outcome, ghost atFailure: Disk)
      modifies this
      ensures OthersSame(old(hermes), hermes)
      ensures outcome.Refused? ==> SameTree(old(disk), Plugin, disk, Plugin) && SameOutside(old(disk), disk) && hermes == old(hermes)
      ensures outcome.Installed? ==>
        && Plugin in disk.trees && disk.trees[Plugin] == FilesOf(source)
        && disk.files == old(disk).files[Config := config][Token := token][State := state]
        && StatusOf(hermes) == Enabled
      // The backup holds what was there before, and nothing else.
      ensures outcome.Installed? ==>
        && SameTree(old(disk), Plugin, disk, BackupPlugin)
        && FilesIn(disk, BackupOther) ==
             if Config in old(disk).files then map["mno-memory.json" := old(disk).files[Config]] else map[]
      ensures outcome.RolledBack? ==>
        SameOutside(old(disk), disk) && StatusOf(hermes) == StatusOf(old(hermes))
      // The plugin tree, by the failing step and what the backup held before.
      ensures outcome.RolledBack? ==>
        FailsAt(old(disk), atFailure, outcome.step)
        && (SameTree(old(disk), Plugin, disk, Plugin) <==> IsRestored(old(disk), atFailure))
      ensures outcome.RolledBack? && IsSurelyRestored(old(disk), outcome.step) ==> SameTree(old(disk), Plugin, disk, Plugin)
      ensures outcome.RolledBack? && SameTree(old(disk), Plugin, disk, Plugin) ==> MayBeRestored(old(disk), outcome.step)
      ensures outcome.RolledBack? && Plugin in old(disk).trees && !AfterMove(outcome.step) ==>
        SameTree(atFailure, BackupPlugin, disk, Plugin)
      ensures outcome.RolledBack? && (outcome.step == MakeBackupDir || outcome.step == MovePlugin) ==>
        Plugin in old(disk).trees ==> Plugin !in disk.trees
    {
      hide Rollback, StatusOf, Others, FilesOf;
      atFailure := disk;
      var refused: bool := *;
      if refused {
        return Refused, atFailure;
      }
      var previous := StatusOf(hermes);
      var cleaned := DeleteTree(Staging);
      if !cleaned {
        return Refused, atFailure;
      }
      var hadPlugin := Plugin in disk.trees;
      var original := disk.files;
      var oldConfig := if Config in original then Some(original[Config]) else None;
      var failed := Prepare(source);
      if failed.None? {
        failed := Commit(config, token, state, oldConfig);
      }
      if failed.None? {
        return Installed, atFailure;
      }
      atFailure := disk;
      var undone := Undo(hadPlugin, original, previous);
      RollbackRestores(old(disk), atFailure);
      RestoredMeansMayBe(old(disk), atFailure, failed.value);
      RestoredMeansBackup(old(disk), atFailure);
      hide IsSurelyRestored, MayBeRestored;
      outcome := if undone then RolledBack(failed.value) else Incomplete(failed.value);
    }

    /** Undoes the files and the plugin state; the staging directory goes in any
        case, and failing to remove it changes nothing else. */
    method Undo(hadPlugin: bool, original: map<Path, Bytes>, previous: Status) returns (undone: bool)
      modifies this
      ensures OthersSame(old(hermes), hermes)
      ensures undone ==> StatusOf(hermes) == previous
      ensures undone ==>
        var r := Rollback(old(disk), hadPlugin, original); SameOutside(r, disk) && SameOtherTrees(r, disk, Staging)
    {
      hide Rollback, StatusOf;
      var filesBack := RollBackFiles(hadPlugin, original);
      var stateBack := RestorePluginState(previous);
      var _ := DeleteTree(Staging);
      undone := filesBack && stateBack;
    }
  }
}
