/**
 internal/domain/benchmark/archive.go: the server's check of a pack archive, and how it answers to the
 archives that the converter builds.
 */
module PackLoader {
  import opened Common
  import opened Bytes
  import opened Sorting
  import opened PackArchive

  const MAX_FILE_SIZE := 0x100_0000
  const MAX_TOTAL_SIZE := 0x1000_0000

  datatype LoadError =
    | PathTraversal | FileTooBig | ArchiveTooBig | ManifestMissing | SignatureMissing | BadSignatureSize
    | BadSignature | ManifestInvalid | HashMismatch | ExtraFile

  /** path.Clean. */
  type Cleaner = string -> string

  predicate SafePath(path: string) {
    !StartsWith(path, "/") && !Contains(path, "..")
  }

  /** A path that does not start at the root and has no two dots in a row. */
  lemma SafeMeans(path: string)
    ensures SafePath(path) <==>
              && (path != "" ==> path[0] != '/')
              && forall i :: 0 <= i < |path| - 1 ==> !(path[i] == '.' && path[i + 1] == '.')
  {
    assert StartsWith(path, "/") <==> path != "" && path[0] == '/' by {
      if path != "" {
        assert path[..1] == [path[0]];
      }
    }
    forall i | 0 <= i < |path| - 1 ensures OccursAt(path, "..", i) <==> path[i] == '.' && path[i + 1] == '.' {
      assert path[i..i + 2] == [path[i], path[i + 1]];
    }
    if i :| 0 <= i < |path| - 1 && path[i] == '.' && path[i + 1] == '.' {
      assert OccursAt(path, "..", i);
    }
    if Contains(path, "..") {
      var i :| 0 <= i <= |path| - 2 && OccursAt(path, "..", i);
      assert path[i] == '.' && path[i + 1] == '.';
    }
  }

  // ---------------------------------------------------------------- unpacking into memory

  function TotalSize(items: seq<TarItem>, n: nat): nat
    requires n <= |items|
  {
    if n == 0 then 0 else TotalSize(items, n - 1) + if items[n - 1].isDir then 0 else |items[n - 1].data|
  }

  predicate Fits(items: seq<TarItem>, n: nat, clean: Cleaner)
    requires n <= |items|
  {
    && (forall i :: 0 <= i < n && !items[i].isDir ==>
          SafePath(clean(items[i].name)) && |items[i].data| <= MAX_FILE_SIZE)
    && TotalSize(items, n) <= MAX_TOTAL_SIZE
  }

  /** Of two entries with one name the later counts. */
  function Contents(items: seq<TarItem>, n: nat, clean: Cleaner): map<string, Data>
    requires n <= |items|
  {
    if n == 0 then map[]
    else
      var before := Contents(items, n - 1, clean);
      if items[n - 1].isDir then before else before[clean(items[n - 1].name) := items[n - 1].data]
  }

  lemma {:induction false} TotalGrows(items: seq<TarItem>, m: nat, n: nat)
    requires m <= n <= |items|
    ensures TotalSize(items, m) <= TotalSize(items, n)
  {
    if m < n {
      TotalGrows(items, m, n - 1);
    }
  }

  /** The limits in numbers: 16 MiB for one file, 256 MiB for all. */
  lemma LimitsAre()
    ensures MAX_FILE_SIZE == 16 * 1024 * 1024 && MAX_TOTAL_SIZE == 256 * 1024 * 1024
  {
  }

  method ExtractTarGz(items: seq<TarItem>, clean: Cleaner) returns (r: Result<map<string, Data>, LoadError>)
    ensures r.Ok? <==> Fits(items, |items|, clean)
    ensures r.Ok? ==> r.value == Contents(items, |items|, clean)
  {
    hide SafePath;
    var files: map<string, Data> := map[];
    var totalSize := 0;
    for i := 0 to |items|
      invariant Fits(items, i, clean) && files == Contents(items, i, clean) && totalSize == TotalSize(items, i)
    {
      var item := items[i];
      if item.isDir {
        continue;
      }
      var name := clean(item.name);
      if !SafePath(name) {
        return Err(PathTraversal);
      }
      if |item.data| > MAX_FILE_SIZE {
        return Err(FileTooBig);
      }
      if totalSize + |item.data| > MAX_TOTAL_SIZE {
        TotalGrows(items, i + 1, |items|);
        return Err(ArchiveTooBig);
      }
      files := files[name := item.data];
      totalSize := totalSize + |item.data|;
    }
    r := Ok(files);
  }

  // ---------------------------------------------------------------- the checks

  predicate EntryMatches(e: ManifestEntry, files: map<string, Data>, lib: Lib) {
    e.path in files && |files[e.path]| == e.size && lib.shaHex(files[e.path]) == e.sha256
  }

  predicate Listed(p: string, m: Manifest) {
    exists i :: 0 <= i < |m.files| && m.files[i].path == p
  }

  /** The files carry a signed manifest, match it, and are listed in it. */
  predicate Verified(files: map<string, Data>, pub: Data, lib: Lib) {
    && MANIFEST_FILE in files && SIGNATURE_FILE in files
    && |files[SIGNATURE_FILE]| == 64 && lib.verify(pub, files[MANIFEST_FILE], files[SIGNATURE_FILE])
    && lib.decode(files[MANIFEST_FILE]).Some?
    && var m := lib.decode(files[MANIFEST_FILE]).value;
    && (forall i :: 0 <= i < |m.files| ==> EntryMatches(m.files[i], files, lib))
    && (forall p :: p in files ==> Reserved(p) || Listed(p, m))
  }

  predicate Accepts(items: seq<TarItem>, pub: Data, lib: Lib, clean: Cleaner) {
    Fits(items, |items|, clean) && Verified(Contents(items, |items|, clean), pub, lib)
  }

  method VerifyArchive(items: seq<TarItem>, pub: Data, lib: Lib, clean: Cleaner)
    returns (r: Result<(map<string, Data>, Manifest), LoadError>)
    ensures r.Ok? <==> Accepts(items, pub, lib, clean)
    ensures r.Ok? ==> r.value.0 == Contents(items, |items|, clean)
                      && lib.decode(r.value.0[MANIFEST_FILE]) == Some(r.value.1)
  {
    hide Fits, Contents;
    var extracted := ExtractTarGz(items, clean);
    if extracted.Err? {
      return Err(extracted.error);
    }
    var files := extracted.value;
    if MANIFEST_FILE !in files {
      return Err(ManifestMissing);
    }
    if SIGNATURE_FILE !in files {
      return Err(SignatureMissing);
    }
    if |files[SIGNATURE_FILE]| != 64 {
      return Err(BadSignatureSize);
    }
    if !lib.verify(pub, files[MANIFEST_FILE], files[SIGNATURE_FILE]) {
      return Err(BadSignature);
    }
    var decoded := lib.decode(files[MANIFEST_FILE]);
    if decoded.None? {
      return Err(ManifestInvalid);
    }
    var m := decoded.value;
    var listed: set<string> := {};
    for i := 0 to |m.files|
      invariant forall k :: 0 <= k < i ==> EntryMatches(m.files[k], files, lib)
      invariant forall p :: p in listed <==> exists k :: 0 <= k < i && m.files[k].path == p
    {
      var e := m.files[i];
      if e.path !in files {
        return Err(ManifestInvalid);
      }
      if |files[e.path]| != e.size || lib.shaHex(files[e.path]) != e.sha256 {
        return Err(HashMismatch);
      }
      listed := listed + {e.path};
    }
    var todo := files.Keys;
    while todo != {}
      invariant todo <= files.Keys
      invariant forall p :: p in files && p !in todo ==> Reserved(p) || Listed(p, m)
      decreases |todo|
    {
      var p :| p in todo;
      if !Reserved(p) && p !in listed {
        return Err(ExtraFile);
      }
      todo := todo - {p};
    }
    r := Ok((files, m));
  }

  // ---------------------------------------------------------------- what is built can be loaded

  /** The signed bytes of a pack. */
  ghost function ManifestText(files: map<string, Data>, packKey: string, lib: Lib): Data {
    lib.encode(ManifestOf(files, packKey, lib))
  }

  /** JSON and signatures do what they are for, on the manifest of this pack and with this pair of keys. */
  ghost predicate Faithful(files: map<string, Data>, packKey: string, key: Data, pub: Data, lib: Lib) {
    var d := ManifestText(files, packKey, lib);
    && lib.decode(d) == Some(ManifestOf(files, packKey, lib))
    && |lib.sign(key, d)| == 64 && lib.verify(pub, d, lib.sign(key, d))
  }

  /** The files with the manifest and the signature beside them. */
  ghost function WithManifest(files: map<string, Data>, packKey: string, key: Data, lib: Lib): map<string, Data> {
    var manifest := ManifestText(files, packKey, lib);
    files[MANIFEST_FILE := manifest][SIGNATURE_FILE := lib.sign(key, manifest)]
  }

  lemma {:induction false} ContentsFrom(items: seq<TarItem>, n: nat, clean: Cleaner)
    requires n <= |items|
    requires forall i :: 0 <= i < n ==> !items[i].isDir && clean(items[i].name) == items[i].name
    requires forall i, j :: 0 <= i < j < n ==> items[i].name != items[j].name
    ensures var c := Contents(items, n, clean);
            && (forall i :: 0 <= i < n ==> items[i].name in c && c[items[i].name] == items[i].data)
            && (forall p :: p in c ==> exists i :: 0 <= i < n && items[i].name == p)
  {
    if n > 0 {
      ContentsFrom(items, n - 1, clean);
    }
  }

  /** A map that holds each item under its name, and nothing else. */
  ghost predicate Holds(c: map<string, Data>, items: seq<TarItem>) {
    && (forall i :: 0 <= i < |items| ==> items[i].name in c && c[items[i].name] == items[i].data)
    && (forall p :: p in c ==> exists i :: 0 <= i < |items| && items[i].name == p)
  }

  lemma HeldFiles(c: map<string, Data>, items: seq<TarItem>, files: map<string, Data>, manifest: Data, signature: Data)
    requires Shaped(items, files, manifest, signature) && Holds(c, items)
    ensures forall p :: p in files ==> p in c && c[p] == files[p]
    ensures |items| >= 2 && forall p :: p in c ==> p in files || p == items[0].name || p == items[1].name
  {
    hide MANIFEST_FILE, SIGNATURE_FILE, Reserved;
    forall p | p in files ensures p in c && c[p] == files[p] {
      var k :| 2 <= k < |items| && items[k].name == p;
      assert IsFile(items[k], files);
    }
    forall p | p in c ensures p in files || p == items[0].name || p == items[1].name {
      var i :| 0 <= i < |items| && items[i].name == p;
      assert i >= 2 ==> IsFile(items[i], files);
    }
  }

  lemma TwoMore(c: map<string, Data>, files: map<string, Data>, a: string, x: Data, b: string, y: Data)
    requires a != b && a !in files && b !in files
    requires a in c && c[a] == x && b in c && c[b] == y
    requires forall p :: p in files ==> p in c && c[p] == files[p]
    requires forall p :: p in c ==> p in files || p == a || p == b
    ensures c == files[a := x][b := y]
  {
  }

  /** Unpacking what was built gives the files back, with the manifest and the signature. */
  lemma UnpacksTo(items: seq<TarItem>, files: map<string, Data>, manifest: Data, signature: Data, clean: Cleaner)
    requires Shaped(items, files, manifest, signature) && forall p :: p in files ==> !Reserved(p)
    requires forall p :: p in files || Reserved(p) ==> clean(p) == p
    ensures Contents(items, |items|, clean) == files[MANIFEST_FILE := manifest][SIGNATURE_FILE := signature]
  {
    hide Shaped, Contents, Holds, Reserved;
    var c := Contents(items, |items|, clean);
    UnpackedHolds(items, files, manifest, signature, clean);
    HeldFiles(c, items, files, manifest, signature);
    HeldReserved(c, items, files, manifest, signature);
    TwoMore(c, files, MANIFEST_FILE, manifest, SIGNATURE_FILE, signature);
  }

  lemma UnpackedHolds(items: seq<TarItem>, files: map<string, Data>, manifest: Data, signature: Data, clean: Cleaner)
    requires Shaped(items, files, manifest, signature)
    requires forall p :: p in files || Reserved(p) ==> clean(p) == p
    ensures Holds(Contents(items, |items|, clean), items)
  {
    ShapedNames(items, files, manifest, signature);
    hide Shaped, Contents, Reserved;
    forall i | 0 <= i < |items| ensures clean(items[i].name) == items[i].name {
    }
    ContentsFrom(items, |items|, clean);
  }

  lemma ShapedNames(items: seq<TarItem>, files: map<string, Data>, manifest: Data, signature: Data)
    requires Shaped(items, files, manifest, signature)
    ensures forall i :: 0 <= i < |items| ==> !items[i].isDir && (items[i].name in files || Reserved(items[i].name))
    ensures forall i, j :: 0 <= i < j < |items| ==> items[i].name != items[j].name
  {
    hide MANIFEST_FILE, SIGNATURE_FILE;
    forall i | 0 <= i < |items| ensures !items[i].isDir && (items[i].name in files || Reserved(items[i].name)) {
      assert i >= 2 ==> IsFile(items[i], files);
    }
  }

  lemma HeldReserved(c: map<string, Data>, items: seq<TarItem>, files: map<string, Data>,
                     manifest: Data, signature: Data)
    requires Shaped(items, files, manifest, signature) && Holds(c, items) && forall p :: p in files ==> !Reserved(p)
    ensures |items| >= 2 && items[0].name == MANIFEST_FILE && items[1].name == SIGNATURE_FILE
            && MANIFEST_FILE != SIGNATURE_FILE
    ensures MANIFEST_FILE !in files && MANIFEST_FILE in c && c[MANIFEST_FILE] == manifest
    ensures SIGNATURE_FILE !in files && SIGNATURE_FILE in c && c[SIGNATURE_FILE] == signature
  {
    assert items[0].name in c && items[1].name in c;
  }

  /** Everything but the limits holds of what was built. */
  lemma BuiltVerifies(files: map<string, Data>, packKey: string, key: Data, pub: Data, lib: Lib)
    requires (forall p :: p in files ==> !Reserved(p)) && Faithful(files, packKey, key, pub, lib)
    ensures Verified(WithManifest(files, packKey, key, lib), pub, lib)
  {
    var w := WithManifest(files, packKey, key, lib);
    var m := ManifestOf(files, packKey, lib);
    hide ManifestOf, EntryMatches, Listed;
    forall p | p in w ensures Reserved(p) || Listed(p, m) {
      if p in files {
        FileListed(files, packKey, lib, p);
      }
    }
    forall i | 0 <= i < |m.files| ensures EntryMatches(m.files[i], w, lib) {
      EntryRight(files, packKey, lib, i, w);
    }
  }

  lemma FileListed(files: map<string, Data>, packKey: string, lib: Lib, p: string)
    requires p in files
    ensures Listed(p, ManifestOf(files, packKey, lib))
  {
    hide Ordered;
    var k := PathOf(files, p);
    assert ManifestOf(files, packKey, lib).files[k].path == p;
  }

  lemma EntryRight(files: map<string, Data>, packKey: string, lib: Lib, i: nat, w: map<string, Data>)
    requires i < |ManifestOf(files, packKey, lib).files|
    requires forall p :: p in files ==> p in w && w[p] == files[p]
    ensures EntryMatches(ManifestOf(files, packKey, lib).files[i], w, lib)
  {
    hide Ordered;
    assert SortedPaths(files)[i] in files;
  }

  ghost predicate WithinLimits(files: map<string, Data>, items: seq<TarItem>)
    requires items != []
  {
    && (forall p :: p in files ==> SafePath(p) && |files[p]| <= MAX_FILE_SIZE)
    && |items[0].data| <= MAX_FILE_SIZE
    && TotalSize(items, |items|) <= MAX_TOTAL_SIZE
  }

  /** The limits, on a built archive. */
  lemma BuiltFits(items: seq<TarItem>, files: map<string, Data>, manifest: Data, signature: Data, clean: Cleaner)
    requires Shaped(items, files, manifest, signature) && |signature| == 64
    requires forall p :: p in files || Reserved(p) ==> clean(p) == p
    ensures Fits(items, |items|, clean) <==> WithinLimits(files, items)
  {
    hide SafePath, TotalSize;
    ReservedSafe();
    assert forall i :: 2 <= i < |items| ==> IsFile(items[i], files);
    if Fits(items, |items|, clean) {
      forall p | p in files ensures SafePath(p) && |files[p]| <= MAX_FILE_SIZE {
        var k :| 2 <= k < |items| && items[k].name == p;
        assert IsFile(items[k], files);
      }
    }
  }

  /** The server takes a built archive exactly when every path is safe and nothing is too large; a path
      with two dots in a row anywhere in it is refused. */
  lemma BuiltLoads(files: map<string, Data>, packKey: string, key: Data, pub: Data, lib: Lib, clean: Cleaner)
    requires (forall p :: p in files ==> !Reserved(p)) && Faithful(files, packKey, key, pub, lib)
    requires forall p :: p in files || Reserved(p) ==> clean(p) == p
    ensures var items := ArchiveOf(files, packKey, key, lib);
            && Contents(items, |items|, clean) == WithManifest(files, packKey, key, lib)
            && (Accepts(items, pub, lib, clean) <==> WithinLimits(files, items))
  {
    hide ArchiveOf, Contents, Verified, ManifestOf, WithinLimits, Fits, Shaped;
    var items := ArchiveOf(files, packKey, key, lib);
    var manifest := lib.encode(ManifestOf(files, packKey, lib));
    var signature := lib.sign(key, manifest);
    assert |signature| == 64;
    ArchiveShaped(files, packKey, key, lib);
    UnpacksTo(items, files, manifest, signature, clean);
    BuiltVerifies(files, packKey, key, pub, lib);
    BuiltFits(items, files, manifest, signature, clean);
  }

  /** A pack with a file whose name has two dots in a row is built and signed, and refused. */
  lemma DottedNameRefused(files: map<string, Data>, packKey: string, key: Data, pub: Data, lib: Lib, clean: Cleaner)
    requires (forall p :: p in files ==> !Reserved(p)) && Faithful(files, packKey, key, pub, lib)
    requires (forall p :: p in files || Reserved(p) ==> clean(p) == p) && "notes..md" in files
    ensures !Accepts(ArchiveOf(files, packKey, key, lib), pub, lib, clean)
  {
    hide ArchiveOf, Faithful, Accepts, SafePath, Contents, WithManifest, TotalSize;
    BuiltLoads(files, packKey, key, pub, lib, clean);
    DottedUnsafe();
  }

  lemma DottedUnsafe()
    ensures !SafePath("notes..md")
  {
    assert "notes..md"[5..7] == "..";
    assert OccursAt("notes..md", "..", 5);
  }

  lemma ReservedSafe()
    ensures SafePath(MANIFEST_FILE) && SafePath(SIGNATURE_FILE)
  {
    assert MANIFEST_FILE[..1][0] == 'M' && SIGNATURE_FILE[..1][0] == 'S';
    forall i | 0 <= i <= |MANIFEST_FILE| - 2 ensures !OccursAt(MANIFEST_FILE, "..", i) {
      assert MANIFEST_FILE[i..i + 2][0] == MANIFEST_FILE[i] && MANIFEST_FILE[i..i + 2][1] == MANIFEST_FILE[i + 1];
    }
    forall i | 0 <= i <= |SIGNATURE_FILE| - 2 ensures !OccursAt(SIGNATURE_FILE, "..", i) {
      assert SIGNATURE_FILE[i..i + 2][0] == SIGNATURE_FILE[i];
    }
  }

  // ---------------------------------------------------------------- what is loaded was built

  /** No two files of one name collide under the hash. */
  ghost predicate NoCollision(a: map<string, Data>, b: map<string, Data>, lib: Lib) {
    forall p :: p in a && p in b && lib.shaHex(a[p]) == lib.shaHex(b[p]) ==> a[p] == b[p]
  }

  /** Two accepted archives with one manifest hold the same files. */
  lemma ManifestPins(a: map<string, Data>, b: map<string, Data>, pub: Data, pub': Data, lib: Lib)
    requires Verified(a, pub, lib) && Verified(b, pub', lib) && a[MANIFEST_FILE] == b[MANIFEST_FILE]
    requires NoCollision(a, b, lib)
    ensures a - {SIGNATURE_FILE} == b - {SIGNATURE_FILE}
  {
    var m := lib.decode(a[MANIFEST_FILE]).value;
    forall p | p in a && p != SIGNATURE_FILE ensures p in b && a[p] == b[p] {
      PinnedFile(a, b, p, m, lib);
    }
    forall p | p in b && p != SIGNATURE_FILE ensures p in a {
      PinnedFile(b, a, p, m, lib);
    }
  }

  lemma PinnedFile(a: map<string, Data>, b: map<string, Data>, p: string, m: Manifest, lib: Lib)
    requires p in a && p != SIGNATURE_FILE && (Reserved(p) || Listed(p, m))
    requires MANIFEST_FILE in a && MANIFEST_FILE in b && a[MANIFEST_FILE] == b[MANIFEST_FILE]
    requires forall i :: 0 <= i < |m.files| ==> EntryMatches(m.files[i], a, lib) && EntryMatches(m.files[i], b, lib)
    requires NoCollision(a, b, lib)
    ensures p in b && a[p] == b[p]
  {
    if !Reserved(p) {
      var i :| 0 <= i < |m.files| && m.files[i].path == p;
      assert EntryMatches(m.files[i], a, lib) && EntryMatches(m.files[i], b, lib);
    }
  }

  /** What is built and signed: files, and the name of their pack. */
  datatype Pack = Pack(files: map<string, Data>, packKey: string)

  /** The archive carries a signature that verifies. */
  predicate Signed(c: map<string, Data>, pub: Data, lib: Lib) {
    && MANIFEST_FILE in c && SIGNATURE_FILE in c
    && |c[SIGNATURE_FILE]| == 64 && lib.verify(pub, c[MANIFEST_FILE], c[SIGNATURE_FILE])
  }

  /** If its signature verifies, its manifest is one of the signed ones. */
  ghost predicate Unforged(c: map<string, Data>, packs: set<Pack>, pub: Data, lib: Lib) {
    Signed(c, pub, lib) ==> exists p :: p in packs && c[MANIFEST_FILE] == ManifestText(p.files, p.packKey, lib)
  }

  /** What was built: its files and its manifest, with a signature that verifies. */
  ghost predicate IsPack(c: map<string, Data>, p: Pack, pub: Data, lib: Lib) {
    && Signed(c, pub, lib)
    && c[MANIFEST_FILE] == ManifestText(p.files, p.packKey, lib)
    && c - {MANIFEST_FILE, SIGNATURE_FILE} == p.files
  }

  /** What the result below asks: the packs' manifests are signed, this archive's signature is not forged,
      and its files do not collide with theirs. */
  ghost predicate Trusted(c: map<string, Data>, packs: set<Pack>, key: Data, pub: Data, lib: Lib) {
    && (forall p :: p in packs ==>
          && (forall f :: f in p.files ==> !Reserved(f)) && Faithful(p.files, p.packKey, key, pub, lib)
          && NoCollision(c, WithManifest(p.files, p.packKey, key, lib), lib))
    && Unforged(c, packs, pub, lib)
  }

  /** Whatever packs a key has signed, the server accepts an archive exactly when it fits and is one of them:
      no file added, dropped or changed, and nothing from two of them mixed. */
  lemma AcceptedIsBuilt(items: seq<TarItem>, packs: set<Pack>, key: Data, pub: Data, lib: Lib, clean: Cleaner)
    requires Trusted(Contents(items, |items|, clean), packs, key, pub, lib)
    ensures var c := Contents(items, |items|, clean);
            Accepts(items, pub, lib, clean) <==>
            Fits(items, |items|, clean) && exists p :: p in packs && IsPack(c, p, pub, lib)
  {
    var c := Contents(items, |items|, clean);
    hide Contents, Fits, Verified, Faithful, NoCollision, WithManifest, ManifestText, IsPack, Reserved;
    if Accepts(items, pub, lib, clean) {
      VerifiedSigned(c, pub, lib);
      var p :| p in packs && c[MANIFEST_FILE] == ManifestText(p.files, p.packKey, lib);
      VerifiedIsPack(c, p, key, pub, lib);
    }
    if p :| p in packs && IsPack(c, p, pub, lib) {
      PackVerifies(c, p, key, pub, lib);
    }
  }

  lemma VerifiedSigned(c: map<string, Data>, pub: Data, lib: Lib)
    requires Verified(c, pub, lib)
    ensures Signed(c, pub, lib)
  {
  }

  lemma VerifiedIsPack(c: map<string, Data>, p: Pack, key: Data, pub: Data, lib: Lib)
    requires (forall f :: f in p.files ==> !Reserved(f)) && Faithful(p.files, p.packKey, key, pub, lib)
    requires Verified(c, pub, lib) && NoCollision(c, WithManifest(p.files, p.packKey, key, lib), lib)
    requires c[MANIFEST_FILE] == ManifestText(p.files, p.packKey, lib)
    ensures IsPack(c, p, pub, lib)
  {
    var w := WithManifest(p.files, p.packKey, key, lib);
    var manifest := ManifestText(p.files, p.packKey, lib);
    VerifiedSigned(c, pub, lib);
    BuiltVerifies(p.files, p.packKey, key, pub, lib);
    hide ManifestText, Faithful, NoCollision, Verified;
    assert MANIFEST_FILE != SIGNATURE_FILE && w[MANIFEST_FILE] == manifest;
    ManifestPins(c, w, pub, pub, lib);
    OnlyFiles(c, p.files, manifest, lib.sign(key, manifest));
  }

  /** The checks look at the signature only to verify it. */
  lemma PackVerifies(c: map<string, Data>, p: Pack, key: Data, pub: Data, lib: Lib)
    requires (forall f :: f in p.files ==> !Reserved(f)) && Faithful(p.files, p.packKey, key, pub, lib)
    requires IsPack(c, p, pub, lib)
    ensures Verified(c, pub, lib)
  {
    var w := WithManifest(p.files, p.packKey, key, lib);
    BuiltVerifies(p.files, p.packKey, key, pub, lib);
    SameButSignature(c, p, key, pub, lib);
    hide WithManifest, Faithful, IsPack, ManifestText;
    var m := lib.decode(w[MANIFEST_FILE]).value;
    BuiltNames(p, key, pub, lib);
    forall i | 0 <= i < |m.files| ensures EntryMatches(m.files[i], c, lib) {
      assert EntryMatches(m.files[i], w, lib);
    }
  }

  lemma SameButSignature(c: map<string, Data>, p: Pack, key: Data, pub: Data, lib: Lib)
    requires (forall f :: f in p.files ==> !Reserved(f)) && IsPack(c, p, pub, lib)
    ensures var w := WithManifest(p.files, p.packKey, key, lib);
            c.Keys == w.Keys && forall f :: f in c && f != SIGNATURE_FILE ==> c[f] == w[f]
  {
    hide ManifestText;
    var files := c - {MANIFEST_FILE, SIGNATURE_FILE};
    assert forall f :: f in files ==> files[f] == c[f];
    assert forall f :: f in c <==> f in p.files || Reserved(f);
  }

  /** A manifest lists no reserved name. */
  lemma BuiltNames(p: Pack, key: Data, pub: Data, lib: Lib)
    requires (forall f :: f in p.files ==> !Reserved(f)) && Faithful(p.files, p.packKey, key, pub, lib)
    ensures var w := WithManifest(p.files, p.packKey, key, lib);
            && MANIFEST_FILE in w && lib.decode(w[MANIFEST_FILE]).Some?
            && forall e :: e in lib.decode(w[MANIFEST_FILE]).value.files ==> !Reserved(e.path)
  {
    hide Ordered;
    assert MANIFEST_FILE != SIGNATURE_FILE;
  }

  lemma OnlyFiles(c: map<string, Data>, files: map<string, Data>, manifest: Data, signature: Data)
    requires forall p :: p in files ==> !Reserved(p)
    requires c - {SIGNATURE_FILE} == files[MANIFEST_FILE := manifest][SIGNATURE_FILE := signature] - {SIGNATURE_FILE}
    ensures c - {MANIFEST_FILE, SIGNATURE_FILE} == files
  {
    var c' := c - {MANIFEST_FILE, SIGNATURE_FILE};
    var d := c - {SIGNATURE_FILE};
    assert forall p :: p in c' <==> p in d && p != MANIFEST_FILE;
    assert forall p :: p in d <==> (p in files || p == MANIFEST_FILE);
    assert forall p :: p in c' ==> c'[p] == d[p] == files[p];
    assert c' == files;
  }
}
