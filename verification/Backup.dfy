/**
 cmd/rosshield-server/backup.go and restore.go: the data directory becomes a list of archive entries,
 and a list of entries becomes files below a data directory.
 */
module Backup {
  import opened Common
  import opened Bytes

  type Path = seq<string>

  /** A file or a directory with its named children, in the order of the walk. */
  datatype Tree = File(data: Data) | Dir(children: Forest)

  datatype Forest = End | Named(name: string, tree: Tree, rest: Forest)

  datatype EntryKind = DirectoryEntry | RegularEntry | OtherEntry

  datatype Entry = Entry(name: string, kind: EntryKind, data: Data)

  const SNAPSHOT_PREFIX := ".backup-snapshot-"

  predicate SnapshotName(p: Path) {
    p != [] && StartsWith(p[|p| - 1], SNAPSHOT_PREFIX)
  }

  predicate SkippedDir(name: string) {
    name == ".staging" || name == ".quarantine"
  }

  // ---------------------------------------------------------------- looking up files

  /** Names are single path elements, and no directory has two children of one name. */
  predicate TreeOk(t: Tree) {
    match t
    case File(_) => true
    case Dir(f) => ForestOk(f)
  }

  predicate ForestOk(f: Forest) {
    match f
    case End => true
    case Named(name, t, rest) => NameOk(name) && Child(rest, name).None? && TreeOk(t) && ForestOk(rest)
  }

  predicate NameOk(name: string) {
    name != "" && name != "." && name != ".." && '/' !in name
  }

  function Child(f: Forest, name: string): Option<Tree> {
    match f
    case End => None
    case Named(n, t, rest) => if n == name then Some(t) else Child(rest, name)
  }

  /** The file at the path. */
  function Lookup(t: Tree, p: Path): Option<Data>
    decreases |p|, 1
  {
    match t
    case File(d) => if p == [] then Some(d) else None
    case Dir(f) => Below(f, p)
  }

  function Below(f: Forest, p: Path): Option<Data>
    decreases |p|, 0
  {
    if p == [] || Child(f, p[0]).None? then None else Lookup(Child(f, p[0]).value, p[1..])
  }

  /** The path is not below a transient directory, and does not end in a snapshot file's name. */
  predicate Kept(p: Path) {
    && p != [] && !SnapshotName(p)
    && forall i :: 0 <= i < |p| - 1 ==> !SkippedDir(p[i])
  }

  /** In plain words. */
  lemma KeptMeans(p: Path)
    ensures Kept(p) <==>
              && p != [] && !StartsWith(p[|p| - 1], ".backup-snapshot-")
              && ".staging" !in p[..|p| - 1] && ".quarantine" !in p[..|p| - 1]
  {
    if p != [] {
      var dirs := p[..|p| - 1];
      assert forall i :: 0 <= i < |dirs| ==> p[i] == dirs[i];
      assert (forall i :: 0 <= i < |dirs| ==> !SkippedDir(dirs[i])) <==> forall d :: d in dirs ==> !SkippedDir(d);
    }
  }

  // ---------------------------------------------------------------- the walk

  /** What the walk writes for the tree at this place. */
  function Walked(t: Tree, at: Path): seq<(Path, Data)> {
    match t
    case File(d) => if SnapshotName(at) then [] else [(at, d)]
    case Dir(f) => if at != [] && SkippedDir(at[|at| - 1]) then [] else WalkedAll(f, at)
  }

  function WalkedAll(f: Forest, at: Path): seq<(Path, Data)> {
    match f
    case End => []
    case Named(name, t, rest) => Walked(t, at + [name]) + WalkedAll(rest, at)
  }

  function ToEntry(prefix: string, w: (Path, Data)): Entry {
    Entry(prefix + "/" + Join(w.0, "/"), RegularEntry, w.1)
  }

  function ToEntries(prefix: string, ws: seq<(Path, Data)>): (es: seq<Entry>)
    ensures |es| == |ws|
    ensures forall i :: 0 <= i < |es| ==> es[i] == ToEntry(prefix, ws[i])
  {
    seq(|ws|, i requires 0 <= i < |ws| => ToEntry(prefix, ws[i]))
  }

  lemma EntriesTogether(prefix: string, ws: seq<(Path, Data)>, others: seq<(Path, Data)>)
    ensures ToEntries(prefix, ws) + ToEntries(prefix, others) == ToEntries(prefix, ws + others)
  {
    hide ToEntry;
  }

  class TarWriter {
    var entries: seq<Entry>

    constructor ()
      ensures entries == []
    {
      entries := [];
    }

    method WriteFile(name: string, data: Data)
      modifies this
      ensures entries == old(entries) + [Entry(name, RegularEntry, data)]
    {
      entries := entries + [Entry(name, RegularEntry, data)];
    }

    /** The callback of the walk, on one file or directory and everything below it. */
    method Walk(t: Tree, at: Path, prefix: string)
      modifies this
      ensures entries == old(entries) + ToEntries(prefix, Walked(t, at))
      decreases t
    {
      match t
      case File(d) =>
        if SnapshotName(at) {
          return;
        }
        WriteFile(prefix + "/" + Join(at, "/"), d);
      case Dir(f) =>
        if at != [] && SkippedDir(at[|at| - 1]) {
          return;
        }
        WalkChildren(f, at, prefix);
    }

    method WalkChildren(f: Forest, at: Path, prefix: string)
      modifies this
      ensures entries == old(entries) + ToEntries(prefix, WalkedAll(f, at))
      decreases f
    {
      match f
      case End =>
      case Named(name, t, rest) =>
        var ws, others := Walked(t, at + [name]), WalkedAll(rest, at);
        Walk(t, at + [name], prefix);
        WalkChildren(rest, at, prefix);
        hide ToEntries;
        EntriesTogether(prefix, ws, others);
    }

    /** A missing directory is no error; a file in its place is. */
    method WalkAndArchive(root: Option<Tree>, prefix: string) returns (ok: bool)
      modifies this
      ensures ok <==> !(root.Some? && root.value.File?)
      ensures entries == old(entries) + if ok && root.Some? then ToEntries(prefix, Walked(root.value, [])) else []
    {
      if root.None? {
        return true;
      }
      if root.value.File? {
        return false;
      }
      Walk(root.value, [], prefix);
      ok := true;
    }
  }

  predicate Usable(root: Option<Tree>) {
    root.Some? ==> root.value.Dir?
  }

  function Section(prefix: string, root: Option<Tree>): seq<Entry> {
    if root.Some? then ToEntries(prefix, Walked(root.value, [])) else []
  }

  function Archived(snapshot: Data, keys: Option<Tree>, evidence: Option<Tree>, skipEvidence: bool): seq<Entry> {
    [Entry("data.db", RegularEntry, snapshot)] + Section("keys", keys)
    + if skipEvidence then [] else Section("evidence", evidence)
  }

  method WriteArchiveEntries(snapshot: Data, keys: Option<Tree>, evidence: Option<Tree>, skipEvidence: bool)
    returns (r: Option<seq<Entry>>)
    ensures r.Some? <==> Usable(keys) && (skipEvidence || Usable(evidence))
    ensures r.Some? ==> r.value == Archived(snapshot, keys, evidence, skipEvidence)
  {
    hide ToEntries;
    var tw := new TarWriter();
    tw.WriteFile("data.db", snapshot);
    var ok := tw.WalkAndArchive(keys, "keys");
    if !ok {
      return None;
    }
    if !skipEvidence {
      ok := tw.WalkAndArchive(evidence, "evidence");
      if !ok {
        return None;
      }
    }
    r := Some(tw.entries);
  }

  // ---------------------------------------------------------------- what the walk finds

  /** No directory above the path, or at it, is transient. */
  predicate Clean(at: Path) {
    forall i :: 0 <= i < |at| ==> !SkippedDir(at[i])
  }

  /** Everything written for a place lies there. */
  lemma {:induction false} WalkStays(t: Tree, at: Path)
    ensures forall w :: w in Walked(t, at) ==> at <= w.0
    decreases t
  {
    if t.Dir? {
      WalkAllStays(t.children, at);
    }
  }

  lemma {:induction false} WalkAllStays(f: Forest, at: Path)
    ensures forall w :: w in WalkedAll(f, at) ==> |w.0| > |at| && at <= w.0 && Child(f, w.0[|at|]).Some?
    decreases f
  {
    match f
    case End =>
    case Named(name, t, rest) =>
      WalkStays(t, at + [name]);
      WalkAllStays(rest, at);
      forall w | w in WalkedAll(f, at) ensures |w.0| > |at| && at <= w.0 && Child(f, w.0[|at|]).Some? {
        if w in Walked(t, at + [name]) {
          assert w.0[..|at| + 1] == at + [name];
          assert w.0[..|at|] == w.0[..|at| + 1][..|at|];
          assert w.0[|at|] == w.0[..|at| + 1][|at|];
        }
      }
  }

  /** The walk finds exactly the kept files of the tree. */
  lemma {:induction false} WalkFinds(t: Tree, at: Path, p: Path, d: Data)
    requires TreeOk(t) && Clean(if at == [] then [] else at[..|at| - 1])
    requires p == [] && t.File? ==> at != []
    ensures (at + p, d) in Walked(t, at) <==> Lookup(t, p) == Some(d) && Kept(at + p)
    decreases t
  {
    match t
    case File(e) =>
      assert p == [] ==> at + p == at;
    case Dir(f) =>
      if at != [] && SkippedDir(at[|at| - 1]) {
        if p != [] {
          assert (at + p)[|at| - 1] == at[|at| - 1];
        }
      } else {
        WalkAllFinds(f, at, p, d);
      }
  }

  lemma {:induction false} WalkAllFinds(f: Forest, at: Path, p: Path, d: Data)
    requires ForestOk(f) && Clean(at)
    ensures (at + p, d) in WalkedAll(f, at) <==> Below(f, p) == Some(d) && Kept(at + p)
    decreases f
  {
    WalkAllStays(f, at);
    match f
    case End =>
    case Named(name, t, rest) =>
      WalkStays(t, at + [name]);
      WalkAllStays(rest, at);
      if p != [] {
        assert (at + p)[|at|] == p[0];
        WalkAllFinds(rest, at, p, d);
        if p[0] == name {
          assert at + p == at + [name] + p[1..];
          assert (at + [name])[..|at + [name]| - 1] == at;
          WalkFinds(t, at + [name], p[1..], d);
          assert Child(rest, name).None?;
        }
      }
  }

  predicate PathsOnce(ws: seq<(Path, Data)>) {
    forall i, j :: 0 <= i < j < |ws| ==> ws[i].0 != ws[j].0
  }

  /** The walk writes no path twice. */
  lemma {:induction false} WalkOnce(t: Tree, at: Path)
    requires TreeOk(t)
    ensures PathsOnce(Walked(t, at))
    decreases t
  {
    if t.Dir? {
      WalkAllOnce(t.children, at);
    }
  }

  lemma {:induction false} WalkAllOnce(f: Forest, at: Path)
    requires ForestOk(f)
    ensures PathsOnce(WalkedAll(f, at))
    decreases f
  {
    match f
    case End =>
    case Named(name, t, rest) =>
      WalkOnce(t, at + [name]);
      WalkAllOnce(rest, at);
      WalkStays(t, at + [name]);
      WalkAllStays(rest, at);
      var ws, others := Walked(t, at + [name]), WalkedAll(rest, at);
      forall v, w | v in ws && w in others ensures v.0 != w.0 {
        assert v.0[..|at| + 1][|at|] == name;
      }
      OnceTogether(ws, others);
  }

  lemma OnceTogether(a: seq<(Path, Data)>, b: seq<(Path, Data)>)
    requires PathsOnce(a) && PathsOnce(b) && forall v, w :: v in a && w in b ==> v.0 != w.0
    ensures PathsOnce(a + b)
  {
    var c := a + b;
    forall i, j | 0 <= i < j < |c| ensures c[i].0 != c[j].0 {
      if i < |a| <= j {
        assert c[i] in a && c[j] in b;
      }
    }
  }

  /** A file has nothing below it. */
  lemma {:induction false} FileIsLeaf(t: Tree, p: Path, q: Path)
    requires Lookup(t, p).Some? && p <= q && p != q
    ensures Lookup(t, q).None?
    decreases |p|
  {
    if p != [] {
      assert q[0] == p[0] && p[1..] <= q[1..];
      FileIsLeaf(Child(t.children, p[0]).value, p[1..], q[1..]);
    }
  }

  lemma {:induction false} NamesOk(t: Tree, p: Path)
    requires TreeOk(t) && Lookup(t, p).Some?
    ensures forall i :: 0 <= i < |p| ==> NameOk(p[i])
    decreases |p|
  {
    if p != [] {
      ChildOk(t.children, p[0]);
      NamesOk(Child(t.children, p[0]).value, p[1..]);
      assert forall i :: 1 <= i < |p| ==> p[i] == p[1..][i - 1];
    }
  }

  lemma {:induction false} ChildOk(f: Forest, name: string)
    requires ForestOk(f) && Child(f, name).Some?
    ensures NameOk(name) && TreeOk(Child(f, name).value)
    decreases f
  {
    if f.Named? && f.name != name {
      ChildOk(f.rest, name);
    }
  }
}
