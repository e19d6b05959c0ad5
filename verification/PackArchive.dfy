/**
 cmd/pack-tools/converter/archive.go: a pack directory becomes a signed archive. The directory's files
 are held in a map, whose iteration order is arbitrary.
 */
module PackArchive {
  import opened Common
  import opened Bytes
  import opened Sorting

  const MANIFEST_FILE := "MANIFEST.json"
  const SIGNATURE_FILE := "SIGNATURE"
  const PACK_YAML_FILE := "pack.yaml"

  datatype ManifestEntry = ManifestEntry(path: string, sha256: string, size: nat)

  datatype Manifest = Manifest(files: seq<ManifestEntry>, packKey: string, schemaVersion: int)

  /** Hashing (as hexadecimal text), JSON, Ed25519 and the pack key read from pack.yaml. */
  datatype Lib = Lib(
    shaHex: Data -> string,
    encode: Manifest -> Data,
    decode: Data -> Option<Manifest>,
    sign: (Data, Data) -> Data,
    verify: (Data, Data, Data) -> bool,
    packKey: Data -> Option<string>)

  datatype ArchiveError = InvalidKey | PackYamlMissing | PackYamlInvalid

  // ---------------------------------------------------------------- the directory

  datatype Kind = Directory | Regular | OtherKind

  /** What the walk meets: a path below the pack directory, its kind, and its bytes. */
  datatype DirEntry = DirEntry(path: string, kind: Kind, body: Data)

  type Dir = seq<DirEntry>

  predicate DirOk(dir: Dir) {
    forall i, j :: 0 <= i < j < |dir| ==> dir[i].path != dir[j].path
  }

  predicate Reserved(path: string) {
    path == MANIFEST_FILE || path == SIGNATURE_FILE
  }

  predicate Packed(e: DirEntry) {
    e.kind.Regular? && !Reserved(e.path)
  }

  /** Exactly the packed entries among the first n, with their bytes. */
  ghost predicate Collected(dir: Dir, n: nat, files: map<string, Data>)
    requires n <= |dir|
  {
    && (forall i :: 0 <= i < n && Packed(dir[i]) ==> dir[i].path in files && files[dir[i].path] == dir[i].body)
    && (forall p :: p in files ==> exists i :: 0 <= i < n && Packed(dir[i]) && dir[i].path == p)
  }

  method CollectPackFiles(dir: Dir) returns (files: map<string, Data>)
    requires DirOk(dir)
    ensures Collected(dir, |dir|, files)
  {
    files := map[];
    for i := 0 to |dir|
      invariant Collected(dir, i, files)
    {
      var e := dir[i];
      if e.kind.Directory? {
        continue;
      }
      if !e.kind.Regular? {
        continue;
      }
      if e.path == MANIFEST_FILE || e.path == SIGNATURE_FILE {
        continue;
      }
      files := files[e.path := e.body];
    }
  }

  /** The order of the walk does not matter. */
  lemma CollectedOnce(dir: Dir, other: Dir, files: map<string, Data>, files': map<string, Data>)
    requires (forall e :: e in dir <==> e in other)
    requires Collected(dir, |dir|, files) && Collected(other, |other|, files')
    ensures files == files'
  {
    forall p | p in files ensures p in files' && files'[p] == files[p] {
      var i :| 0 <= i < |dir| && Packed(dir[i]) && dir[i].path == p;
      assert dir[i] in other;
    }
    forall p | p in files' ensures p in files {
      var i :| 0 <= i < |other| && Packed(other[i]) && other[i].path == p;
      assert other[i] in dir;
    }
  }

  // ---------------------------------------------------------------- sorted paths

  ghost predicate Ordered(paths: seq<string>, keys: set<string>) {
    Sorted(paths, TextLe) && Distinct(paths) && Elements(paths) == keys
  }

  lemma OrderedOnce(a: seq<string>, b: seq<string>, keys: set<string>)
    requires Ordered(a, keys) && Ordered(b, keys)
    ensures a == b
  {
    TextOrder();
    DistinctSame(a, b);
    SortedOnce(a, b, TextLe);
  }

  lemma {:induction false} SomeOrder(keys: set<string>) returns (paths: seq<string>)
    ensures Ordered(paths, keys)
    decreases |keys|
  {
    if keys == {} {
      paths := [];
    } else {
      var p :| p in keys;
      var rest := SomeOrder(keys - {p});
      assert p !in Elements(rest);
      TextOrder();
      InsertSorted(p, rest, TextLe);
      InsertDistinct(p, rest, TextLe);
      paths := Insert(p, rest, TextLe);
      assert multiset([p] + rest) == multiset{p} + multiset(rest);
      MultisetMember(paths, [p] + rest);
      assert Elements([p] + rest) == {p} + Elements(rest);
    }
  }

  ghost function SortedPaths(files: map<string, Data>): (paths: seq<string>)
    ensures Ordered(paths, files.Keys)
    ensures |paths| == |files|
    ensures forall i :: 0 <= i < |paths| ==> paths[i] in files
  {
    PathsExist(files.Keys);
    var paths :| Ordered(paths, files.Keys);
    DistinctCount(paths);
    assert forall i :: 0 <= i < |paths| ==> paths[i] in Elements(paths);
    paths
  }

  lemma PathsExist(keys: set<string>)
    ensures exists paths :: Ordered(paths, keys)
  {
    var paths := SomeOrder(keys);
  }

  // ---------------------------------------------------------------- what an archive is

  function EntryOf(path: string, body: Data, lib: Lib): ManifestEntry {
    ManifestEntry(path, lib.shaHex(body), |body|)
  }

  /** The manifest of the files: every path once, in order, with its hash and size. */
  ghost function ManifestOf(files: map<string, Data>, packKey: string, lib: Lib): Manifest {
    var paths := SortedPaths(files);
    Manifest(seq(|paths|, i requires 0 <= i < |paths| => EntryOf(paths[i], files[paths[i]], lib)), packKey, 1)
  }

  /** One tar entry for each file, in the order of the paths. */
  ghost function FileItems(files: map<string, Data>): (items: seq<TarItem>)
    ensures |items| == |files|
    ensures forall i :: 0 <= i < |items| ==>
              && SortedPaths(files)[i] in files
              && items[i] == TarItem(SortedPaths(files)[i], false, files[SortedPaths(files)[i]])
  {
    var paths := SortedPaths(files);
    seq(|paths|, i requires 0 <= i < |paths| => TarItem(paths[i], false, files[paths[i]]))
  }

  ghost function ArchiveOf(files: map<string, Data>, packKey: string, key: Data, lib: Lib): (items: seq<TarItem>)
    ensures |items| == |files| + 2
    ensures var manifest := lib.encode(ManifestOf(files, packKey, lib));
            && items[0] == TarItem(MANIFEST_FILE, false, manifest)
            && items[1] == TarItem(SIGNATURE_FILE, false, lib.sign(key, manifest))
    ensures forall i :: 2 <= i < |items| ==> items[i] == FileItems(files)[i - 2]
    ensures forall i :: 2 <= i < |items| ==>
              && SortedPaths(files)[i - 2] in files
              && items[i] == TarItem(SortedPaths(files)[i - 2], false, files[SortedPaths(files)[i - 2]])
  {
    hide ManifestOf, FileItems, Ordered;
    var manifest := lib.encode(ManifestOf(files, packKey, lib));
    [TarItem(MANIFEST_FILE, false, manifest), TarItem(SIGNATURE_FILE, false, lib.sign(key, manifest))]
    + FileItems(files)
  }

  // ---------------------------------------------------------------- building one

  function PathLe(a: ManifestEntry, b: ManifestEntry): bool {
    TextLe(a.path, b.path)
  }

  function PathsIn(entries: seq<ManifestEntry>): (ps: seq<string>)
    ensures |ps| == |entries|
  {
    seq(|entries|, i requires 0 <= i < |entries| => entries[i].path)
  }

  /** The entries stand for these files, in any order. */
  ghost predicate Stand(entries: seq<ManifestEntry>, files: map<string, Data>, done: set<string>, lib: Lib) {
    && (forall i :: 0 <= i < |entries| ==>
          entries[i].path in done && entries[i].path in files
          && entries[i] == EntryOf(entries[i].path, files[entries[i].path], lib))
    && Distinct(PathsIn(entries)) && Elements(PathsIn(entries)) == done
  }

  /** Sorting by path leaves one list, whatever the order before. */
  lemma SortedEntries(entries: seq<ManifestEntry>, files: map<string, Data>, packKey: string, lib: Lib)
    requires Stand(entries, files, files.Keys, lib)
    ensures Sort(entries, PathLe) == ManifestOf(files, packKey, lib).files
  {
    var s := Sort(entries, PathLe);
    SortedByPath(entries);
    PathsSame(s, entries);
    MultisetMember(s, entries);
    hide Distinct, Elements, Sorted;
    OrderedOnce(PathsIn(s), SortedPaths(files), files.Keys);
    var m := ManifestOf(files, packKey, lib).files;
    forall i | 0 <= i < |s| ensures s[i] == m[i] {
      assert s[i] in multiset(s);
      assert s[i] in entries;
      assert PathsIn(s)[i] == SortedPaths(files)[i];
    }
    assert s == m;
  }

  lemma SortedByPath(entries: seq<ManifestEntry>)
    ensures Sorted(PathsIn(Sort(entries, PathLe)), TextLe)
  {
    TextOrder();
    hide TextLe;
    assert Preorder(PathLe);
    SortSorted(entries, PathLe);
  }

  lemma PathsSame(s: seq<ManifestEntry>, t: seq<ManifestEntry>)
    requires multiset(s) == multiset(t)
    ensures Elements(PathsIn(s)) == Elements(PathsIn(t))
    ensures Distinct(PathsIn(t)) ==> Distinct(PathsIn(s))
  {
    MultisetMember(s, t);
    forall p ensures p in PathsIn(s) <==> p in PathsIn(t) {
      if p in PathsIn(s) {
        var i :| 0 <= i < |s| && s[i].path == p;
        assert s[i] in Elements(s);
        var j :| 0 <= j < |t| && t[j] == s[i];
        assert PathsIn(t)[j] == p;
      }
      if p in PathsIn(t) {
        var i :| 0 <= i < |t| && t[i].path == p;
        assert t[i] in Elements(t);
        var j :| 0 <= j < |s| && s[j] == t[i];
        assert PathsIn(s)[j] == p;
      }
    }
    assert Elements(PathsIn(s)) == Elements(PathsIn(t));
    if Distinct(PathsIn(t)) {
      DistinctCount(PathsIn(t));
      CountDistinct(PathsIn(s));
    }
  }

  /** A list with as many different values as places has no repeats. */
  lemma {:induction false} CountDistinct(s: seq<string>)
    ensures |Elements(s)| <= |s|
    ensures |Elements(s)| == |s| ==> Distinct(s)
  {
    if s != [] {
      var rest := s[1..];
      CountDistinct(rest);
      assert Elements(s) == {s[0]} + Elements(rest);
      if |Elements(s)| == |s| {
        assert s[0] !in Elements(rest);
      }
    }
  }

  /** One manifest entry for every file, in whatever order the map gives them. */
  method ManifestEntries(files: map<string, Data>, lib: Lib) returns (entries: seq<ManifestEntry>)
    ensures Stand(entries, files, files.Keys, lib)
  {
    entries := [];
    NoEntries(files, lib);
    hide Stand;
    var todo := files.Keys;
    ghost var done: set<string> := {};
    while todo != {}
      invariant done <= files.Keys && todo == files.Keys - done
      invariant Stand(entries, files, done, lib)
      decreases |todo|
    {
      var p :| p in todo;
      AddEntry(entries, p, files, done, lib);
      entries := entries + [EntryOf(p, files[p], lib)];
      done := done + {p};
      todo := todo - {p};
    }
    assert done == files.Keys;
  }

  lemma NoEntries(files: map<string, Data>, lib: Lib)
    ensures Stand([], files, {}, lib)
  {
  }

  lemma AddEntry(entries: seq<ManifestEntry>, p: string, files: map<string, Data>, done: set<string>, lib: Lib)
    requires Stand(entries, files, done, lib) && p in files && p !in done
    ensures Stand(entries + [EntryOf(p, files[p], lib)], files, done + {p}, lib)
  {
    var more := entries + [EntryOf(p, files[p], lib)];
    assert PathsIn(more) == PathsIn(entries) + [p];
    assert p !in Elements(PathsIn(entries));
    assert Elements(PathsIn(entries) + [p]) == Elements(PathsIn(entries)) + {p};
  }

  method RegularPaths(files: map<string, Data>) returns (paths: seq<string>)
    ensures paths == SortedPaths(files)
  {
    paths := [];
    var todo := files.Keys;
    while todo != {}
      invariant todo <= files.Keys
      invariant Distinct(paths) && Elements(paths) == files.Keys - todo
      decreases |todo|
    {
      var p :| p in todo;
      assert p !in Elements(paths);
      assert Elements(paths + [p]) == Elements(paths) + {p};
      paths := paths + [p];
      todo := todo - {p};
    }
    SortPaths(paths, files);
    paths := Sort(paths, TextLe);
  }

  lemma SortPaths(paths: seq<string>, files: map<string, Data>)
    requires Distinct(paths) && Elements(paths) == files.Keys
    ensures Sort(paths, TextLe) == SortedPaths(files)
  {
    TextOrder();
    SortSorted(paths, TextLe);
    var s := Sort(paths, TextLe);
    MultisetMember(s, paths);
    DistinctIsOnce(paths);
    DistinctIsOnce(s);
    OrderedOnce(s, SortedPaths(files), files.Keys);
  }

  function BodyFor(p: string, files: map<string, Data>, manifest: Data, signature: Data): Data {
    if p == MANIFEST_FILE then manifest
    else if p == SIGNATURE_FILE then signature
    else if p in files then files[p] else []
  }

  /** The tar entries, one for each path. */
  method WriteEntries(files: map<string, Data>, paths: seq<string>, manifest: Data, signature: Data)
    returns (items: seq<TarItem>)
    ensures |items| == |paths|
    ensures forall i :: 0 <= i < |paths| ==>
              items[i] == TarItem(paths[i], false, BodyFor(paths[i], files, manifest, signature))
  {
    items := [];
    for i := 0 to |paths|
      invariant |items| == i
      invariant forall k :: 0 <= k < i ==>
                  items[k] == TarItem(paths[k], false, BodyFor(paths[k], files, manifest, signature))
    {
      var p := paths[i];
      var body: Data := [];
      if p == MANIFEST_FILE {
        body := manifest;
      } else if p == SIGNATURE_FILE {
        body := signature;
      } else if p in files {
        body := files[p];
      }
      items := items + [TarItem(p, false, body)];
    }
  }

  lemma Written(items: seq<TarItem>, files: map<string, Data>, packKey: string, key: Data, lib: Lib)
    requires forall p :: p in files ==> !Reserved(p)
    requires var manifest := lib.encode(ManifestOf(files, packKey, lib));
             var paths := [MANIFEST_FILE, SIGNATURE_FILE] + SortedPaths(files);
             && |items| == |paths|
             && forall i :: 0 <= i < |paths| ==>
                  items[i] == TarItem(paths[i], false, BodyFor(paths[i], files, manifest, lib.sign(key, manifest)))
    ensures items == ArchiveOf(files, packKey, key, lib)
  {
    hide ManifestOf, Ordered;
    var paths := [MANIFEST_FILE, SIGNATURE_FILE] + SortedPaths(files);
    var a := ArchiveOf(files, packKey, key, lib);
    assert paths[0] == MANIFEST_FILE && paths[1] == SIGNATURE_FILE;
    hide ArchiveOf;
    forall i | 0 <= i < |items| ensures items[i] == a[i] {
      if i >= 2 {
        assert paths[i] == SortedPaths(files)[i - 2];
        assert !Reserved(paths[i]);
      }
    }
  }

  /** What is built from the files, whatever the order of the walk and of the map. */
  ghost function Built(files: map<string, Data>, key: Data, lib: Lib): Result<seq<TarItem>, ArchiveError> {
    if |key| != 64 then Err(InvalidKey)
    else if PACK_YAML_FILE !in files then Err(PackYamlMissing)
    else match lib.packKey(files[PACK_YAML_FILE])
      case None => Err(PackYamlInvalid)
      case Some(packKey) => Ok(ArchiveOf(files, packKey, key, lib))
  }

  method BuildArchive(dir: Dir, privateKey: Data, lib: Lib) returns (r: Result<seq<TarItem>, ArchiveError>)
    requires DirOk(dir)
    ensures exists files :: Collected(dir, |dir|, files) && r == Built(files, privateKey, lib)
  {
    hide ManifestOf, Ordered, Stand, Collected, ArchiveOf, BodyFor;
    var files := CollectPackFiles(dir);
    if |privateKey| != 64 {
      return Err(InvalidKey);
    }
    if PACK_YAML_FILE !in files {
      return Err(PackYamlMissing);
    }
    var packKey := lib.packKey(files[PACK_YAML_FILE]);
    if packKey.None? {
      return Err(PackYamlInvalid);
    }
    var entries := ManifestEntries(files, lib);
    SortedEntries(entries, files, packKey.value, lib);
    ManifestIs(files, packKey.value, lib);
    entries := Sort(entries, PathLe);
    var manifest := lib.encode(Manifest(entries, packKey.value, 1));
    var signature := lib.sign(privateKey, manifest);
    var paths := RegularPaths(files);
    NotReserved(dir, files);
    var items := WriteEntries(files, [MANIFEST_FILE, SIGNATURE_FILE] + paths, manifest, signature);
    Written(items, files, packKey.value, privateKey, lib);
    r := Ok(items);
  }

  lemma ManifestIs(files: map<string, Data>, packKey: string, lib: Lib)
    ensures ManifestOf(files, packKey, lib) == Manifest(ManifestOf(files, packKey, lib).files, packKey, 1)
  {
  }

  lemma NotReserved(dir: Dir, files: map<string, Data>)
    requires Collected(dir, |dir|, files)
    ensures forall p :: p in files ==> !Reserved(p)
  {
  }

  // ---------------------------------------------------------------- what the archive says

  lemma ListedPaths(files: map<string, Data>, packKey: string, lib: Lib)
    ensures var es, paths := ManifestOf(files, packKey, lib).files, SortedPaths(files);
            |es| == |paths| && forall i :: 0 <= i < |es| ==> es[i].path == paths[i]
  {
    hide Ordered;
  }

  /** The manifest and, behind its first two entries, the archive list the paths in the order of the
      dictionary, each once. */
  lemma PathsInOrder(files: map<string, Data>, packKey: string, key: Data, lib: Lib)
    ensures var es := ManifestOf(files, packKey, lib).files;
            var items := ArchiveOf(files, packKey, key, lib);
            && |items| == |es| + 2 && |es| == |files|
            && (forall i :: 0 <= i < |es| ==> es[i].path in files && items[i + 2].name == es[i].path)
            && (forall i :: 0 <= i < |es| - 1 ==> es[i].path != es[i + 1].path && Before(es[i].path, es[i + 1].path))
  {
    var paths := SortedPaths(files);
    var es := ManifestOf(files, packKey, lib).files;
    ListedPaths(files, packKey, lib);
    hide Elements, Distinct, Before, ArchiveOf, ManifestOf;
    SortedMeans(paths);
    hide Sorted;
    forall i | 0 <= i < |es| - 1 ensures es[i].path != es[i + 1].path && Before(es[i].path, es[i + 1].path) {
      NotTwice(paths, files, i, i + 1);
    }
  }

  /** The manifest lists every entry but itself and the signature, once each and in the same order, with
      its hash and size. */
  lemma ManifestCovers(files: map<string, Data>, packKey: string, key: Data, lib: Lib)
    ensures var items := ArchiveOf(files, packKey, key, lib);
            var m := ManifestOf(files, packKey, lib);
            && items[0] == TarItem(MANIFEST_FILE, false, lib.encode(m))
            && items[1] == TarItem(SIGNATURE_FILE, false, lib.sign(key, items[0].data))
            && |m.files| == |items| - 2 && Distinct(PathsIn(m.files))
            && forall i :: 0 <= i < |m.files| ==>
                 && items[i + 2].name == m.files[i].path && !items[i + 2].isDir
                 && m.files[i].sha256 == lib.shaHex(items[i + 2].data) && m.files[i].size == |items[i + 2].data|
  {
    hide ArchiveOf, FileItems, MANIFEST_FILE, SIGNATURE_FILE, Sorted;
    assert PathsIn(ManifestOf(files, packKey, lib).files) == SortedPaths(files);
  }

  /** The same directory with its entries met in another order gives the same archive. */
  lemma OrderIrrelevant(dir: Dir, other: Dir, files: map<string, Data>, files': map<string, Data>, key: Data, lib: Lib)
    requires (forall e :: e in dir <==> e in other)
    requires Collected(dir, |dir|, files) && Collected(other, |other|, files')
    ensures Built(files, key, lib) == Built(files', key, lib)
  {
    CollectedOnce(dir, other, files, files');
  }

  /** The archive's entries written to an empty directory. */
  function Unpacked(items: seq<TarItem>): (dir: Dir)
    ensures |dir| == |items|
  {
    seq(|items|, i requires 0 <= i < |items| =>
      DirEntry(items[i].name, if items[i].isDir then Directory else Regular, items[i].data))
  }

  /** The manifest and the signature, then each file once. */
  ghost predicate Shaped(items: seq<TarItem>, files: map<string, Data>, manifest: Data, signature: Data) {
    && |items| >= 2
    && items[0] == TarItem(MANIFEST_FILE, false, manifest) && items[1] == TarItem(SIGNATURE_FILE, false, signature)
    && (forall i :: 2 <= i < |items| ==> IsFile(items[i], files))
    && (forall i, j :: 0 <= i < j < |items| ==> items[i].name != items[j].name)
    && (forall p :: p in files ==> exists i :: 2 <= i < |items| && items[i].name == p)
  }

  predicate IsFile(item: TarItem, files: map<string, Data>) {
    !item.isDir && !Reserved(item.name) && item.name in files && item.data == files[item.name]
  }

  lemma ArchiveShaped(files: map<string, Data>, packKey: string, key: Data, lib: Lib)
    requires forall p :: p in files ==> !Reserved(p)
    ensures var manifest := lib.encode(ManifestOf(files, packKey, lib));
            Shaped(ArchiveOf(files, packKey, key, lib), files, manifest, lib.sign(key, manifest))
  {
    hide ManifestOf, ArchiveOf, Sorted, Distinct, Elements, Ordered;
    var paths := SortedPaths(files);
    var items := ArchiveOf(files, packKey, key, lib);
    forall i | 2 <= i < |items| ensures IsFile(items[i], files) && items[i].name == paths[i - 2] {
      assert paths[i - 2] in files;
    }
    forall p | p in files ensures exists i :: 2 <= i < |items| && items[i].name == p {
      var k := PathOf(files, p);
      assert items[k + 2].name == p;
    }
    assert items[0].name == MANIFEST_FILE && items[1].name == SIGNATURE_FILE;
    forall i, j | 0 <= i < j < |items| ensures items[i].name != items[j].name {
      if 2 <= i {
        NotTwice(paths, files, i - 2, j - 2);
      } else if 2 <= j {
        assert IsFile(items[j], files);
      }
    }
  }

  lemma PathOf(files: map<string, Data>, p: string) returns (k: nat)
    requires p in files
    ensures k < |SortedPaths(files)| && SortedPaths(files)[k] == p
  {
    var paths := SortedPaths(files);
    assert p in Elements(paths);
    k :| 0 <= k < |paths| && paths[k] == p;
  }

  lemma NotTwice(paths: seq<string>, files: map<string, Data>, i: nat, j: nat)
    requires Ordered(paths, files.Keys) && i < j < |paths|
    ensures paths[i] != paths[j]
  {
  }

  /** Collecting the unpacked archive gives the files back. */
  lemma CollectsBack(items: seq<TarItem>, files: map<string, Data>, manifest: Data, signature: Data,
                     files': map<string, Data>)
    requires Shaped(items, files, manifest, signature)
    requires forall p :: p in files ==> !Reserved(p)
    requires var dir := Unpacked(items); Collected(dir, |dir|, files')
    ensures DirOk(Unpacked(items)) && files' == files
  {
    var dir := Unpacked(items);
    UnpackedShape(items, files, manifest, signature);
    hide Shaped, Unpacked, Reserved, MANIFEST_FILE, SIGNATURE_FILE;
    forall p | p in files ensures p in files' && files'[p] == files[p] {
      var k :| 2 <= k < |dir| && dir[k].path == p;
      assert Packed(dir[k]);
    }
    forall p | p in files' ensures p in files {
      var i :| 0 <= i < |dir| && Packed(dir[i]) && dir[i].path == p;
      assert i >= 2;
    }
  }

  /** The manifest and the signature are not packed again; everything else is a file. */
  lemma UnpackedShape(items: seq<TarItem>, files: map<string, Data>, manifest: Data, signature: Data)
    requires Shaped(items, files, manifest, signature)
    ensures var dir := Unpacked(items);
            && DirOk(dir) && |dir| >= 2 && !Packed(dir[0]) && !Packed(dir[1])
            && (forall i :: 2 <= i < |dir| ==>
                  Packed(dir[i]) && dir[i].path in files && dir[i].body == files[dir[i].path])
            && (forall p :: p in files ==> exists i :: 2 <= i < |dir| && dir[i].path == p)
  {
    hide MANIFEST_FILE, SIGNATURE_FILE;
    var dir := Unpacked(items);
    forall i | 2 <= i < |dir| ensures Packed(dir[i]) && dir[i].path in files && dir[i].body == files[dir[i].path] {
      assert IsFile(items[i], files);
    }
    forall p | p in files ensures exists i :: 2 <= i < |dir| && dir[i].path == p {
      var k :| 2 <= k < |items| && items[k].name == p;
      assert dir[k].path == p;
    }
  }

  /** Unpacking an archive and building again with the same key gives the same archive. */
  lemma RebuildSame(files: map<string, Data>, key: Data, lib: Lib, files': map<string, Data>)
    requires forall p :: p in files ==> !Reserved(p)
    requires Built(files, key, lib).Ok?
    requires var dir := Unpacked(Built(files, key, lib).value); Collected(dir, |dir|, files')
    ensures DirOk(Unpacked(Built(files, key, lib).value))
    ensures Built(files', key, lib) == Built(files, key, lib)
  {
    hide ArchiveOf, Collected, Unpacked, DirOk, Shaped, ManifestOf;
    var packKey := lib.packKey(files[PACK_YAML_FILE]).value;
    var manifest := lib.encode(ManifestOf(files, packKey, lib));
    ArchiveShaped(files, packKey, key, lib);
    CollectsBack(Built(files, key, lib).value, files, manifest, lib.sign(key, manifest), files');
  }
}
