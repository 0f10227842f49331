/** Removing the Hermes adapter: everything to be deleted is read first, so that
    a failure part-way can be undone. */
module HermesUninstaller {
  import opened HermesState
  import opened HermesDisk
  import opened HermesInstaller

  /** Nothing installed; refused; removed; stopped with files and plugin state put
      back; or stopped with that cut short. */
  datatype Removal = NotInstalled | RemovalRefused | Uninstalled | PutBackAll | PutBackPart

  lemma WriteHas(d: Disk, p: Path, data: Bytes)
    ensures Has(Write(d, p, data), p) && Read(Write(d, p, data), p) == data
    ensures forall q :: q != p ==> (Has(Write(d, p, data), q) <==> Has(d, q))
    ensures forall q :: q != p && Has(d, q) ==> Read(Write(d, p, data), q) == Read(d, q)
  {
  }

  lemma RemoveHas(d: Disk, p: Path)
    ensures forall q :: Has(Remove(d, p), q) <==> Has(d, q) && q != p
    ensures forall q :: q != p && Has(d, q) ==> Read(Remove(d, p), q) == Read(d, q)
  {
  }

  predicate InBackup(p: Path) {
    p.In? && (p.tree == BackupPlugin || p.tree == BackupOther)
  }

  /** What the deletion phase may remove. */
  ghost predicate Removable(p: Path, owned: set<Path>, hasBackup: bool) {
    p in owned || (hasBackup && InBackup(p)) || p == Token || p == State
  }

  /** `d` is `before` with some of the files in `gone` missing. */
  ghost predicate OnlyMissing(before: Disk, d: Disk, gone: iset<Path>) {
    && (forall p :: Has(d, p) ==> Has(before, p) && Read(d, p) == Read(before, p))
    && (forall p :: Has(before, p) && p !in gone ==> Has(d, p))
  }

  /** Everything removable that exists, with its bytes. */
  ghost predicate SnapshotsAll(d: Disk, owned: set<Path>, hasBackup: bool, snapshots: map<Path, Bytes>) {
    && (forall p :: p in snapshots ==> Has(d, p) && snapshots[p] == Read(d, p))
    && (forall p :: Has(d, p) && Removable(p, owned, hasBackup) ==> p in snapshots)
  }

  function BackupPaths(d: Disk): (paths: set<Path>)
    ensures forall p :: p in paths <==> InBackup(p) && Has(d, p)
  {
    (set rel | rel in FilesIn(d, BackupPlugin) :: In(BackupPlugin, rel))
    + (set rel | rel in FilesIn(d, BackupOther) :: In(BackupOther, rel))
  }

  method TakeSnapshots(home: Home, owned: set<Path>, hasBackup: bool) returns (snapshots: map<Path, Bytes>)
    requires State in home.disk.files
    ensures SnapshotsAll(home.disk, owned, hasBackup, snapshots)
  {
    snapshots := map[State := home.disk.files[State]];
    if Token in home.disk.files {
      snapshots := snapshots[Token := home.disk.files[Token]];
    }
    var todo := owned + if hasBackup then BackupPaths(home.disk) else {};
    while todo != {}
      invariant forall p :: p in snapshots ==> Has(home.disk, p) && snapshots[p] == Read(home.disk, p)
      invariant forall p :: Has(home.disk, p) && Removable(p, owned, hasBackup) ==> p in snapshots || p in todo
      decreases todo
    {
      var p :| p in todo;
      if Has(home.disk, p) {
        snapshots := snapshots[p := Read(home.disk, p)];
      }
      todo := todo - {p};
    }
  }

  ghost function Gone(owned: set<Path>, hasBackup: bool): iset<Path> {
    iset p | Removable(p, owned, hasBackup)
  }

  /** The deletion phase; it may stop anywhere. */
  method DeleteAll(home: Home, owned: set<Path>, hasBackup: bool) returns (ok: bool)
    modifies home`disk
    ensures OnlyMissing(old(home.disk), home.disk, Gone(owned, hasBackup))
    ensures ok ==> forall p :: Removable(p, owned, hasBackup) ==> !Has(home.disk, p)
  {
    ghost var before := home.disk;
    var todo := owned;
    while todo != {}
      invariant todo <= owned
      invariant OnlyMissing(before, home.disk, Gone(owned, hasBackup))
      invariant forall p :: p in owned && Has(home.disk, p) ==> p in todo
      decreases todo
    {
      var p :| p in todo;
      if Has(home.disk, p) {
        RemoveHas(home.disk, p);
        ok := home.Delete(p);
        if !ok {
          return;
        }
      }
      todo := todo - {p};
    }
    if hasBackup {
      ghost var mid := home.disk;
      ok := home.DeleteBackup();
      BackupPartlyGone(mid, home.disk);
      if !ok {
        return;
      }
    }
    RemoveHas(home.disk, Token);
    ok := home.Delete(Token);
    if !ok {
      return;
    }
    RemoveHas(home.disk, State);
    ok := home.Delete(State);
  }

  lemma BackupPartlyGone(d: Disk, e: Disk)
    requires SameOutside(d, e) && SameTree(d, Plugin, e, Plugin) && SameTree(d, Staging, e, Staging)
    requires IsPartOf(FilesIn(e, BackupPlugin), FilesIn(d, BackupPlugin))
    requires IsPartOf(FilesIn(e, BackupOther), FilesIn(d, BackupOther))
    ensures OnlyMissing(d, e, iset p | InBackup(p))
  {
    forall p | Has(e, p) ensures Has(d, p) && Read(e, p) == Read(d, p) {
      if p.In? && p.tree == BackupPlugin {
        assert p.rel in FilesIn(e, BackupPlugin);
      } else if p.In? && p.tree == BackupOther {
        assert p.rel in FilesIn(e, BackupOther);
      }
    }
    forall p | Has(d, p) && !InBackup(p) ensures Has(e, p) {
      assert p.In? ==> p.tree == Plugin || p.tree == Staging;
    }
  }

  /** Writes the snapshots back. */
  method WriteBack(home: Home, snapshots: map<Path, Bytes>, ghost before: Disk) returns (ok: bool)
    requires OnlyMissing(before, home.disk, iset p | p in snapshots)
    requires forall p :: p in snapshots ==> Has(before, p) && snapshots[p] == Read(before, p)
    modifies home`disk
    ensures ok ==> SameFiles(before, home.disk)
  {
    var todo := snapshots.Keys;
    while todo != {}
      invariant todo <= snapshots.Keys
      invariant OnlyMissing(before, home.disk, iset p | p in todo)
      decreases todo
    {
      var p :| p in todo;
      WriteHas(home.disk, p, snapshots[p]);
      ok := home.AtomicWrite(p, snapshots[p]);
      if !ok {
        return;
      }
      todo := todo - {p};
    }
    ok := true;
  }

  /** The removal.  `owned` are the recorded paths, `desired` the plugin state
      before the adapter was installed. */
  method Uninstall(home: Home, owned: set<Path>, hasBackup: bool, desired: Status) returns (r: Removal)
    modifies home
    ensures OthersSame(old(home.hermes), home.hermes)
    ensures r.NotInstalled? <==> State !in old(home.disk).files
    ensures r.NotInstalled? || r.RemovalRefused? ==> home.disk == old(home.disk) && home.hermes == old(home.hermes)
    ensures r.Uninstalled? ==>
      && StatusOf(home.hermes) == desired
      && (forall p :: Has(home.disk, p) <==> Has(old(home.disk), p) && !Removable(p, owned, hasBackup))
      && (forall p :: Has(home.disk, p) ==> Read(home.disk, p) == Read(old(home.disk), p))
    // All or nothing: whatever was deleted before the failure is back, byte for byte.
    ensures r.PutBackAll? ==>
      SameFiles(old(home.disk), home.disk) && StatusOf(home.hermes) == StatusOf(old(home.hermes))
  {
    if State !in home.disk.files {
      return NotInstalled;
    }
    var refused: bool := *;
    if refused {
      return RemovalRefused;
    }
    ghost var before := home.disk;
    var current := StatusOf(home.hermes);
    var snapshots := TakeSnapshots(home, owned, hasBackup);
    var ok := home.RestorePluginState(desired);
    if !ok {
      ok := home.RestorePluginState(current);
      return if ok then PutBackAll else PutBackPart;
    }
    ok := DeleteAll(home, owned, hasBackup);
    if ok {
      return Uninstalled;
    }
    var filesBack := WriteBack(home, snapshots, before);
    var stateBack := home.RestorePluginState(current);
    return if filesBack && stateBack then PutBackAll else PutBackPart;
  }
}
