/** The part of the Hermes home that the installer works on. */
module HermesDisk {

  type Bytes = seq<int>

  /** The directory trees moved or deleted as a whole. */
  datatype Tree = Plugin | Staging | BackupPlugin | BackupOther

  /** A file in one of the trees, one of the adapter's own three files, or any
      other file of the home. */
  datatype Path = In(tree: Tree, rel: string) | Config | Token | State | Other(name: string)

  type Files = map<string, Bytes>

  /** The trees that exist, with their files, and the files outside the trees. */
  datatype Disk = Disk(trees: map<Tree, Files>, files: map<Path, Bytes>)

  predicate Has(d: Disk, p: Path) {
    if p.In? then p.tree in d.trees && p.rel in d.trees[p.tree] else p in d.files
  }

  function Read(d: Disk, p: Path): Bytes
    requires Has(d, p)
  {
    if p.In? then d.trees[p.tree][p.rel] else d.files[p]
  }

  function FilesIn(d: Disk, t: Tree): Files {
    if t in d.trees then d.trees[t] else map[]
  }

  /** Replaces one file, making its directory where there is none. */
  function Write(d: Disk, p: Path, data: Bytes): Disk {
    if p.In? then d.(trees := d.trees[p.tree := FilesIn(d, p.tree)[p.rel := data]]) else d.(files := d.files[p := data])
  }

  function Remove(d: Disk, p: Path): Disk {
    if p.In? then
      if p.tree in d.trees then d.(trees := d.trees[p.tree := d.trees[p.tree] - {p.rel}]) else d
    else d.(files := d.files - {p})
  }

  function RemoveTree(d: Disk, t: Tree): Disk {
    d.(trees := d.trees - {t})
  }

  /** Renames tree `a` to `b`. */
  function MoveTree(d: Disk, a: Tree, b: Tree): Disk
    requires a in d.trees
  {
    d.(trees := (d.trees - {a})[b := d.trees[a]])
  }

  /** Writes a file back, or removes it where there was none. */
  function PutBack(d: Disk, p: Path, original: map<Path, Bytes>): Disk {
    if p in original then Write(d, p, original[p]) else Remove(d, p)
  }

  /** A tree is there, or absent, alike and with the same files. */
  predicate SameTree(d: Disk, a: Tree, e: Disk, b: Tree) {
    (a in d.trees <==> b in e.trees) && (a in d.trees ==> d.trees[a] == e.trees[b])
  }

  /** Every file outside the trees is the same. */
  predicate SameOutside(d: Disk, e: Disk) {
    d.files == e.files
  }

  predicate IsOwned(p: Path) {
    p == Config || p == Token || p == State
  }

  /** Every file outside the trees is the same but perhaps the adapter's own three. */
  ghost predicate SameButOwned(d: Disk, e: Disk) {
    forall p :: !IsOwned(p) ==> (p in d.files <==> p in e.files) && (p in d.files ==> d.files[p] == e.files[p])
  }

  /** The same files with the same bytes everywhere. */
  ghost predicate SameFiles(d: Disk, e: Disk) {
    forall p :: (Has(d, p) <==> Has(e, p)) && (Has(d, p) ==> Read(d, p) == Read(e, p))
  }

  /** Every tree but `t` is the same. */
  predicate SameOtherTrees(d: Disk, e: Disk, t: Tree) {
    && (t != Plugin ==> SameTree(d, Plugin, e, Plugin))
    && (t != Staging ==> SameTree(d, Staging, e, Staging))
    && (t != BackupPlugin ==> SameTree(d, BackupPlugin, e, BackupPlugin))
    && (t != BackupOther ==> SameTree(d, BackupOther, e, BackupOther))
  }

  predicate IsPartOf(f: Files, g: Files) {
    forall rel :: rel in f ==> rel in g && f[rel] == g[rel]
  }

  /** Some of a tree's files are gone, perhaps the tree too; nothing else differs. */
  predicate PartlyRemoved(d: Disk, e: Disk, t: Tree) {
    && d.files == e.files
    && IsPartOf(FilesIn(e, t), FilesIn(d, t))
    && (t in e.trees ==> t in d.trees)
    && SameOtherTrees(d, e, t)
  }
}
