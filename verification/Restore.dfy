/** cmd/rosshield-server/restore.go: archive entries become files below a data directory. */
module Restore {
  import opened Common
  import opened Bytes
  import opened Backup
  import opened Sorting

  // ---------------------------------------------------------------- the file system

  datatype Disk = Disk(files: map<Path, Data>, dirs: set<Path>)

  function Parents(p: Path): set<Path> {
    set k | 0 <= k <= |p| :: p[..k]
  }

  /** os.MkdirAll fails where a file stands in the way. */
  function MkdirAll(disk: Disk, dir: Path): Option<Disk> {
    if exists a :: a in Parents(dir) && a in disk.files then None
    else Some(disk.(dirs := disk.dirs + Parents(dir)))
  }

  function WriteFile(disk: Disk, dst: Path, data: Data): Option<Disk> {
    if dst == [] then None
    else match MkdirAll(disk, dst[..|dst| - 1])
      case None => None
      case Some(d) => if dst in d.dirs then None else Some(d.(files := d.files[dst := data]))
  }

  // ---------------------------------------------------------------- where an entry goes

  /** filepath.Clean of an absolute directory and a slash-separated name below it. */
  function Resolve(at: Path, elements: seq<string>): Path
    decreases |elements|
  {
    if elements == [] then at
    else
      var e := elements[0];
      if e == "" || e == "." then Resolve(at, elements[1..])
      else if e == ".." then Resolve(if at == [] then [] else at[..|at| - 1], elements[1..])
      else Resolve(at + [e], elements[1..])
  }

  function Destination(base: Path, name: string): Path {
    Resolve(base, Split(name, '/'))
  }

  /** The guard on text prefixes, by path elements. With the root directory as base the text to match
      starts with two slashes, which no clean path does. */
  predicate Inside(base: Path, dst: Path) {
    dst == base || (base != [] && base <= dst)
  }

  // ---------------------------------------------------------------- restoring

  datatype Progress = Progress(disk: Disk, total: int, count: nat)

  /** How the archive ends behind its whole entries: properly, where no further header can be read, or
      inside an entry, of which data is what could still be copied. */
  datatype Ending = Complete | NoHeader | BrokenOff(last: Entry)

  /** A file whose copy breaks off stays, with what was copied. */
  function Ended(ending: Ending, base: Path, s: Progress): (Progress, int) {
    match ending
    case Complete => (s, 0)
    case NoHeader => (s, 1)
    case BrokenOff(e) =>
      var dst := Destination(base, e.name);
      if !Inside(base, dst) then (s, 3)
      else match e.kind
        case DirectoryEntry => (s.(disk := After(MkdirAll(s.disk, dst), s.disk)), 1)
        case RegularEntry => (s.(disk := After(WriteFile(s.disk, dst, e.data), s.disk)), 1)
        case OtherEntry => (s, 1)
  }

  function After(written: Option<Disk>, disk: Disk): Disk {
    if written.Some? then written.value else disk
  }

  /** What the entries leave, and the exit code: 0, 1 for a failed read or write or an unsupported entry,
      and 3 for an entry outside the data directory. */
  function Restored(es: seq<Entry>, ending: Ending, base: Path, s: Progress): (Progress, int)
    decreases |es|
  {
    if es == [] then Ended(ending, base, s)
    else
      var e := es[0];
      var dst := Destination(base, e.name);
      if !Inside(base, dst) then (s, 3)
      else match e.kind
        case DirectoryEntry =>
          (match MkdirAll(s.disk, dst)
           case None => (s, 1)
           case Some(d) => Restored(es[1..], ending, base, s.(disk := d)))
        case RegularEntry =>
          (match WriteFile(s.disk, dst, e.data)
           case None => (s, 1)
           case Some(d) => Restored(es[1..], ending, base, Progress(d, s.total + |e.data|, s.count + 1)))
        case OtherEntry => (s, 1)
  }

  class FileSystem {
    var disk: Disk

    method ExtractArchive(es: seq<Entry>, ending: Ending, base: Path) returns (total: int, count: nat, code: int)
      modifies this
      ensures (Progress(disk, total, count), code) == Restored(es, ending, base, Progress(old(disk), 0, 0))
    {
      hide Destination, Inside, MkdirAll, WriteFile;
      total, count := 0, 0;
      assert es[0..] == es;
      for i := 0 to |es|
        invariant Restored(es[i..], ending, base, Progress(disk, total, count))
               == Restored(es, ending, base, Progress(old(disk), 0, 0))
      {
        assert es[i..][1..] == es[i + 1..];
        var e := es[i];
        var dst := Destination(base, e.name);
        if !Inside(base, dst) {
          return total, count, 3;
        }
        match e.kind
        case DirectoryEntry =>
          var made := MkdirAll(disk, dst);
          if made.None? {
            return total, count, 1;
          }
          disk := made.value;
        case RegularEntry =>
          var written := WriteFile(disk, dst, e.data);
          if written.None? {
            return total, count, 1;
          }
          disk := written.value;
          total := total + |e.data|;
          count := count + 1;
        case OtherEntry =>
          return total, count, 1;
      }
      assert es[|es|..] == [];
      match ending
      case Complete =>
        code := 0;
      case NoHeader =>
        code := 1;
      case BrokenOff(e) =>
        var dst := Destination(base, e.name);
        if !Inside(base, dst) {
          return total, count, 3;
        }
        code := 1;
        match e.kind
        case DirectoryEntry =>
          disk := After(MkdirAll(disk, dst), disk);
        case RegularEntry =>
          disk := After(WriteFile(disk, dst, e.data), disk);
        case OtherEntry =>
    }
  }

  predicate EntryInside(e: Entry, base: Path) {
    Inside(base, Destination(base, e.name))
  }

  /** The entries whose headers can be read. */
  function Headers(es: seq<Entry>, ending: Ending): seq<Entry> {
    es + if ending.BrokenOff? then [ending.last] else []
  }

  /** Some entry lies outside, and its predecessors inside. */
  predicate FirstOutside(es: seq<Entry>, base: Path) {
    exists i :: 0 <= i < |es| && !EntryInside(es[i], base) && forall j :: 0 <= j < i ==> EntryInside(es[j], base)
  }

  lemma OutsideBehind(es: seq<Entry>, base: Path)
    requires es != [] && EntryInside(es[0], base) && FirstOutside(es[1..], base)
    ensures FirstOutside(es, base)
  {
    hide EntryInside;
    var i :| 0 <= i < |es[1..]| && !EntryInside(es[1..][i], base)
             && forall j :: 0 <= j < i ==> EntryInside(es[1..][j], base);
    forall j | 0 <= j < i + 1 ensures EntryInside(es[j], base) {
      assert j > 0 ==> es[j] == es[1..][j - 1];
    }
    assert es[i + 1] == es[1..][i];
  }

  /** What the exit codes say: 0 only when the archive is whole and every entry lies inside and is a file or
      a directory, 3 only at the first entry outside, and an entry outside is never passed over. */
  lemma {:induction false} ExitMeaning(es: seq<Entry>, ending: Ending, base: Path, s: Progress)
    ensures var code := Restored(es, ending, base, s).1;
            && (code == 0 || code == 1 || code == 3)
            && (code == 0 ==> ending.Complete? && forall e :: e in es ==> EntryInside(e, base) && !e.kind.OtherEntry?)
            && (code == 3 ==> FirstOutside(Headers(es, ending), base))
    decreases |es|
  {
    hide Destination, MkdirAll, WriteFile, Inside, After, FirstOutside;
    var all := Headers(es, ending);
    if es == [] {
      LastOutside(all, base);
    } else if !EntryInside(es[0], base) {
      HeadOutside(all, base);
    } else {
      var e := es[0];
      var dst := Destination(base, e.name);
      if e.kind.DirectoryEntry? && MkdirAll(s.disk, dst).Some? {
        ExitMeaning(es[1..], ending, base, s.(disk := MkdirAll(s.disk, dst).value));
      } else if e.kind.RegularEntry? && WriteFile(s.disk, dst, e.data).Some? {
        var d := WriteFile(s.disk, dst, e.data).value;
        ExitMeaning(es[1..], ending, base, Progress(d, s.total + |e.data|, s.count + 1));
      }
      assert Headers(es[1..], ending) == all[1..];
      if FirstOutside(all[1..], base) {
        OutsideBehind(all, base);
      }
      assert forall x :: x in es ==> x == es[0] || x in es[1..];
    }
  }

  lemma HeadOutside(es: seq<Entry>, base: Path)
    requires es != [] && !EntryInside(es[0], base)
    ensures FirstOutside(es, base)
  {
    hide EntryInside;
  }

  lemma LastOutside(es: seq<Entry>, base: Path)
    requires |es| <= 1
    ensures es != [] && !EntryInside(es[0], base) ==> FirstOutside(es, base)
  {
    hide EntryInside;
  }

  // ---------------------------------------------------------------- nothing outside

  /** No file of the first disk is lost, and what is new or changed lies below the base. */
  predicate OnlyBelow(before: Disk, after: Disk, base: Path) {
    && (forall p :: p in after.files && !(base <= p) ==> p in before.files && after.files[p] == before.files[p])
    && (forall p :: p in before.files ==> p in after.files)
  }

  lemma MadeBelow(disk: Disk, dst: Path, base: Path)
    requires MkdirAll(disk, dst).Some?
    ensures OnlyBelow(disk, MkdirAll(disk, dst).value, base)
  {
    MakesNoFiles(disk, dst);
  }

  lemma WrittenBelow(disk: Disk, dst: Path, data: Data, base: Path)
    requires Inside(base, dst) && WriteFile(disk, dst, data).Some?
    ensures OnlyBelow(disk, WriteFile(disk, dst, data).value, base)
  {
    MakesNoFiles(disk, dst[..|dst| - 1]);
    hide MkdirAll;
  }

  /** Whatever the archive says and wherever it breaks off, every file that is new or changed lies below the
      data directory. */
  lemma {:induction false} StaysInside(es: seq<Entry>, ending: Ending, base: Path, s: Progress)
    ensures OnlyBelow(s.disk, Restored(es, ending, base, s).0.disk, base)
    decreases |es|
  {
    hide Destination, MkdirAll, WriteFile, Inside;
    if es == [] {
      if ending.BrokenOff? {
        EntryBelow(ending.last, base, s.disk);
      }
    } else {
      var e := es[0];
      var dst := Destination(base, e.name);
      EntryBelow(e, base, s.disk);
      if Inside(base, dst) {
        if e.kind.DirectoryEntry? && MkdirAll(s.disk, dst).Some? {
          StaysInside(es[1..], ending, base, s.(disk := MkdirAll(s.disk, dst).value));
        } else if e.kind.RegularEntry? && WriteFile(s.disk, dst, e.data).Some? {
          var d := WriteFile(s.disk, dst, e.data).value;
          StaysInside(es[1..], ending, base, Progress(d, s.total + |e.data|, s.count + 1));
        }
      }
    }
  }

  lemma EntryBelow(e: Entry, base: Path, disk: Disk)
    ensures var dst := Destination(base, e.name);
            Inside(base, dst) ==>
              && (MkdirAll(disk, dst).Some? ==> OnlyBelow(disk, MkdirAll(disk, dst).value, base))
              && (WriteFile(disk, dst, e.data).Some? ==> OnlyBelow(disk, WriteFile(disk, dst, e.data).value, base))
  {
    var dst := Destination(base, e.name);
    hide Destination, MkdirAll, WriteFile, Inside, OnlyBelow;
    if Inside(base, dst) {
      if MkdirAll(disk, dst).Some? { MadeBelow(disk, dst, base); }
      if WriteFile(disk, dst, e.data).Some? { WrittenBelow(disk, dst, e.data, base); }
    }
  }

  lemma MakesNoFiles(disk: Disk, dir: Path)
    requires MkdirAll(disk, dir).Some?
    ensures MkdirAll(disk, dir).value.files == disk.files
  {
  }

  // ---------------------------------------------------------------- where entries go

  /** How a name is cleaned: empty and one-dot elements are dropped, a two-dot element drops the one before it, and
      above the root there is only the root. */
  lemma CleanSteps(at: Path, e: string, rest: seq<string>)
    requires NameOk(e)
    ensures Resolve(at, [""] + rest) == Resolve(at, rest) && Resolve(at, ["."] + rest) == Resolve(at, rest)
    ensures Resolve(at, [e, ".."] + rest) == Resolve(at, rest)
    ensures Resolve([], [".."] + rest) == Resolve([], rest)
    ensures Resolve(at, [e] + rest) == Resolve(at + [e], rest)
  {
    assert ([""] + rest)[1..] == rest && (["."] + rest)[1..] == rest && ([".."] + rest)[1..] == rest;
    assert ([e] + rest)[1..] == rest;
    assert ([e, ".."] + rest)[1..] == [".."] + rest;
    assert (at + [e])[..|at|] == at;
  }

  /** A name that leads to a sibling of the data directory, or above it, is refused. */
  lemma LeadingOutRefused(base: Path, e: Entry, name: string, es: seq<Entry>, ending: Ending, s: Progress)
    requires base != [] && NameOk(name) && name != base[|base| - 1]
    requires e.name == "../" + name || e.name == ".."
    ensures Restored([e] + es, ending, base, s) == (s, 3)
  {
    var up := base[..|base| - 1];
    SplitAtom("..", '/');
    assert [".."][1..] == [];
    if e.name == ".." {
      assert Destination(base, e.name) == up;
    } else {
      SplitAtom(name, '/');
      SplitConcat("..", '/', name);
      assert ".." + ['/'] + name == e.name;
      assert ["..", name][1..] == [name] && [name][1..] == [];
      assert Split(e.name, '/') == ["..", name];
      assert Destination(base, e.name) == Resolve(up, [name]) == up + [name];
      assert !(base <= up + [name]) by {
        assert (up + [name])[|base| - 1] == name;
      }
    }
  }

  // ---------------------------------------------------------------- the shape of the disk

  /** No file is a directory too, and everything above a file or a directory is a directory. */
  predicate Shaped(disk: Disk) {
    && (forall f, k :: f in disk.files && 0 <= k < |f| ==> f[..k] in disk.dirs)
    && (forall d, k :: d in disk.dirs && 0 <= k < |d| ==> d[..k] in disk.dirs)
    && disk.files.Keys !! disk.dirs
  }

  lemma MkdirShaped(disk: Disk, dir: Path)
    requires Shaped(disk) && MkdirAll(disk, dir).Some?
    ensures Shaped(MkdirAll(disk, dir).value) && dir in MkdirAll(disk, dir).value.dirs
  {
    var d := MkdirAll(disk, dir).value;
    assert dir == dir[..|dir|];
    forall a, k | a in d.dirs && 0 <= k < |a| ensures a[..k] in d.dirs {
      if a in Parents(dir) {
        ParentsAbove(dir, a);
        assert a[..k] == dir[..k];
      }
    }
  }

  lemma WriteShaped(disk: Disk, dst: Path, data: Data)
    requires Shaped(disk) && WriteFile(disk, dst, data).Some?
    ensures Shaped(WriteFile(disk, dst, data).value)
  {
    var dir := dst[..|dst| - 1];
    MkdirShaped(disk, dir);
    hide MkdirAll;
    var d := MkdirAll(disk, dir).value;
    forall k | 0 <= k < |dst| ensures dst[..k] in d.dirs {
      if k < |dir| {
        assert dst[..k] == dir[..k];
      } else {
        assert dst[..k] == dir;
      }
    }
  }

  /** A restore keeps the shape, however it ends: it never puts a file where a directory is, or below a file. */
  lemma {:induction false} RestoreShaped(es: seq<Entry>, ending: Ending, base: Path, s: Progress)
    requires Shaped(s.disk)
    ensures Shaped(Restored(es, ending, base, s).0.disk)
    decreases |es|
  {
    hide Shaped, Inside, Destination, MkdirAll, WriteFile;
    var e := if es != [] then es[0] else if ending.BrokenOff? then ending.last else Entry("", OtherEntry, []);
    var dst := Destination(base, e.name);
    if MkdirAll(s.disk, dst).Some? { MkdirShaped(s.disk, dst); }
    if WriteFile(s.disk, dst, e.data).Some? { WriteShaped(s.disk, dst, e.data); }
    if es != [] && Inside(base, dst) {
      if e.kind.DirectoryEntry? && MkdirAll(s.disk, dst).Some? {
        RestoreShaped(es[1..], ending, base, s.(disk := MkdirAll(s.disk, dst).value));
      } else if e.kind.RegularEntry? && WriteFile(s.disk, dst, e.data).Some? {
        var d := WriteFile(s.disk, dst, e.data).value;
        RestoreShaped(es[1..], ending, base, Progress(d, s.total + |e.data|, s.count + 1));
      }
    }
  }

  // ---------------------------------------------------------------- what is on the disk afterwards

  /** The entry writes this path. */
  predicate Writes(e: Entry, base: Path, p: Path) {
    e.kind.RegularEntry? && Destination(base, e.name) == p
  }

  predicate LastWriter(es: seq<Entry>, base: Path, p: Path, i: int) {
    0 <= i < |es| && Writes(es[i], base, p) && forall j :: i < j < |es| ==> !Writes(es[j], base, p)
  }

  predicate NoWriter(es: seq<Entry>, base: Path, p: Path) {
    forall e :: e in es ==> !Writes(e, base, p)
  }

  /** The first step of a restore that succeeds. */
  lemma FirstStep(es: seq<Entry>, base: Path, s: Progress, p: Path) returns (s': Progress)
    requires es != [] && Restored(es, Complete, base, s).1 == 0
    ensures Restored(es, Complete, base, s) == Restored(es[1..], Complete, base, s')
    ensures Writes(es[0], base, p) ==> p in s'.disk.files && s'.disk.files[p] == es[0].data
    ensures !Writes(es[0], base, p) ==>
              (p in s'.disk.files <==> p in s.disk.files) && (p in s.disk.files ==> s'.disk.files[p] == s.disk.files[p])
  {
    hide Inside, Destination, MkdirAll;
    var e := es[0];
    var dst := Destination(base, e.name);
    if e.kind.DirectoryEntry? {
      MakesNoFiles(s.disk, dst);
      s' := s.(disk := MkdirAll(s.disk, dst).value);
    } else {
      MakesNoFiles(s.disk, dst[..|dst| - 1]);
      s' := Progress(WriteFile(s.disk, dst, e.data).value, s.total + |e.data|, s.count + 1);
    }
  }

  /** After a restore that succeeds, a path has the bytes of the last entry that writes it, also where there was a
      file before; a path that no entry writes is as it was. */
  lemma {:induction false} LastEntryCounts(es: seq<Entry>, base: Path, s: Progress, p: Path)
    requires Restored(es, Complete, base, s).1 == 0
    ensures var files := Restored(es, Complete, base, s).0.disk.files;
            && (forall i :: LastWriter(es, base, p, i) ==> p in files && files[p] == es[i].data)
            && (NoWriter(es, base, p) ==>
                  (p in files <==> p in s.disk.files) && (p in files ==> files[p] == s.disk.files[p]))
    decreases |es|
  {
    hide Writes;
    if es != [] {
      var s' := FirstStep(es, base, s, p);
      hide Restored;
      LastEntryCounts(es[1..], base, s', p);
      assert forall i :: 0 <= i < |es[1..]| ==> es[1..][i] == es[i + 1];
      assert forall i :: LastWriter(es, base, p, i) && i > 0 ==> LastWriter(es[1..], base, p, i - 1);
      if LastWriter(es, base, p, 0) {
        assert forall e :: e in es[1..] ==> !Writes(e, base, p);
      }
      if NoWriter(es, base, p) {
        assert es[0] in es && forall e :: e in es[1..] ==> e in es;
      }
    }
  }

  // ---------------------------------------------------------------- plain lists of files

  function PathEntry(w: (Path, Data)): Entry {
    Entry(Join(w.0, "/"), RegularEntry, w.1)
  }

  function PathEntries(ws: seq<(Path, Data)>): (es: seq<Entry>)
    ensures |es| == |ws|
    ensures forall i :: 0 <= i < |es| ==> es[i] == PathEntry(ws[i])
  {
    seq(|ws|, i requires 0 <= i < |ws| => PathEntry(ws[i]))
  }

  predicate PathOk(p: Path) {
    p != [] && forall i :: 0 <= i < |p| ==> NameOk(p[i])
  }

  /** No path is another or lies below it. */
  predicate PrefixFree(ws: seq<(Path, Data)>) {
    forall i, j :: 0 <= i < |ws| && 0 <= j < |ws| && i != j ==> !(ws[i].0 <= ws[j].0)
  }

  predicate Plain(ws: seq<(Path, Data)>) {
    PrefixFree(ws) && forall i :: 0 <= i < |ws| ==> PathOk(ws[i].0)
  }

  function TotalSize(ws: seq<(Path, Data)>): int {
    if ws == [] then 0 else |ws[0].1| + TotalSize(ws[1..])
  }

  /** The disk holds exactly the first n files, and directories above them or above the base. */
  ghost predicate Holds(disk: Disk, ws: seq<(Path, Data)>, n: nat, base: Path)
    requires n <= |ws|
  {
    && (forall i :: 0 <= i < n ==> base + ws[i].0 in disk.files && disk.files[base + ws[i].0] == ws[i].1)
    && (forall p :: p in disk.files ==> exists i :: 0 <= i < n && p == base + ws[i].0)
    && (forall d :: d in disk.dirs ==>
          d <= base || exists i :: 0 <= i < n && d <= base + ws[i].0 && d != base + ws[i].0)
  }

  lemma {:induction false} ResolvePlain(at: Path, p: Path)
    requires forall i :: 0 <= i < |p| ==> NameOk(p[i])
    ensures Resolve(at, p) == at + p
    decreases |p|
  {
    if p != [] {
      ResolvePlain(at + [p[0]], p[1..]);
      assert at + [p[0]] + p[1..] == at + p;
    }
  }

  lemma GoesThere(base: Path, p: Path)
    requires PathOk(p)
    ensures Destination(base, Join(p, "/")) == base + p
  {
    assert forall e :: e in p ==> '/' !in e;
    SplitJoin(p, '/');
    ResolvePlain(base, p);
  }

  lemma ParentsAbove(p: Path, a: Path)
    ensures a in Parents(p) <==> a <= p
  {
    if a <= p {
      assert a == p[..|a|];
    }
  }

  /** Nothing stands in the way of the next file. */
  lemma NoClash(disk: Disk, ws: seq<(Path, Data)>, n: nat, base: Path)
    requires Plain(ws) && n < |ws| && Holds(disk, ws, n, base)
    ensures var dst := base + ws[n].0; dst !in disk.dirs && forall a :: a in disk.files ==> !(a <= dst)
  {
    hide NameOk;
    var dst := base + ws[n].0;
    forall a | a in disk.files ensures !(a <= dst) {
      var i :| 0 <= i < n && a == base + ws[i].0;
      Cancel(base, ws[i].0, ws[n].0);
    }
    forall d | d in disk.dirs ensures d != dst {
      if !(d <= base) {
        var i :| 0 <= i < n && d <= base + ws[i].0 && d != base + ws[i].0;
        Cancel(base, ws[n].0, ws[i].0);
      }
    }
  }

  lemma WriteWorks(disk: Disk, dst: Path, data: Data)
    requires dst != [] && dst !in disk.dirs && forall a :: a in disk.files ==> !(a <= dst)
    ensures var dir := dst[..|dst| - 1];
            WriteFile(disk, dst, data) == Some(Disk(disk.files[dst := data], disk.dirs + Parents(dir)))
  {
    var dir := dst[..|dst| - 1];
    assert dir <= dst;
    forall a | a in Parents(dir) ensures a !in disk.files && a != dst {
      ParentsAbove(dir, a);
    }
  }

  lemma HoldsOneMore(disk: Disk, ws: seq<(Path, Data)>, n: nat, base: Path)
    requires PrefixFree(ws) && n < |ws| && ws[n].0 != [] && Holds(disk, ws, n, base)
    ensures var dst := base + ws[n].0;
            Holds(Disk(disk.files[dst := ws[n].1], disk.dirs + Parents(dst[..|dst| - 1])), ws, n + 1, base)
  {
    var dst := base + ws[n].0;
    var dir := dst[..|dst| - 1];
    forall i | 0 <= i < n ensures base + ws[i].0 != dst {
      Cancel(base, ws[i].0, ws[n].0);
    }
    forall d | d in Parents(dir) ensures d <= dst && d != dst {
      ParentsAbove(dir, d);
    }
    hide PrefixFree, Parents;
    forall d | d in disk.dirs + Parents(dir)
      ensures d <= base || exists i :: 0 <= i < n + 1 && d <= base + ws[i].0 && d != base + ws[i].0
    {
      if d in Parents(dir) {
        assert d <= base + ws[n].0 && d != base + ws[n].0;
      }
    }
  }

  /** Writing one more file of a prefix-free list succeeds and adds that file. */
  lemma WritesOne(disk: Disk, ws: seq<(Path, Data)>, n: nat, base: Path)
    requires Plain(ws) && n < |ws| && base != [] && Holds(disk, ws, n, base)
    ensures var r := WriteFile(disk, base + ws[n].0, ws[n].1);
            r.Some? && Holds(r.value, ws, n + 1, base)
  {
    NoClash(disk, ws, n, base);
    hide Holds, PrefixFree, NameOk, WriteFile;
    WriteWorks(disk, base + ws[n].0, ws[n].1);
    HoldsOneMore(disk, ws, n, base);
  }

  lemma Cancel(base: Path, p: Path, q: Path)
    ensures base + p <= base + q <==> p <= q
    ensures base + p == base + q <==> p == q
  {
    if base + p <= base + q {
      assert p == (base + p)[|base|..] && q == (base + q)[|base|..];
      assert (base + q)[..|base + p|][|base|..] == q[..|p|];
    }
    if base + p == base + q {
      assert p == (base + p)[|base|..] && q == (base + q)[|base|..];
    }
    if p <= q {
      assert (base + q)[..|base + p|] == base + q[..|p|];
    }
  }

  /** From the n-th file of a plain list to the m-th. */
  lemma {:induction false} RestoresList(ws: seq<(Path, Data)>, n: nat, m: nat, ending: Ending, base: Path, s: Progress)
    returns (s': Progress)
    requires Plain(ws) && n <= m <= |ws| && base != [] && Holds(s.disk, ws, n, base)
    ensures Restored(PathEntries(ws[n..m]), ending, base, s) == Ended(ending, base, s')
    ensures Holds(s'.disk, ws, m, base)
    ensures s'.total == s.total + TotalSize(ws[n..m]) && s'.count == s.count + m - n
    decreases m - n
  {
    hide Holds, WriteFile, PrefixFree, Destination, NameOk, Ended;
    if n == m {
      s' := s;
    } else {
      var rest := ws[n..m];
      assert rest[0] == ws[n] && rest[1..] == ws[n + 1..m];
      assert PathEntries(rest)[1..] == PathEntries(rest[1..]);
      GoesThere(base, ws[n].0);
      WritesOne(s.disk, ws, n, base);
      var d := WriteFile(s.disk, base + ws[n].0, ws[n].1).value;
      s' := RestoresList(ws, n + 1, m, ending, base, Progress(d, s.total + |ws[n].1|, s.count + 1));
    }
  }

  // ---------------------------------------------------------------- a backup restored

  function Under(prefix: string, ws: seq<(Path, Data)>): (r: seq<(Path, Data)>)
    ensures |r| == |ws|
    ensures forall i :: 0 <= i < |r| ==> r[i] == ([prefix] + ws[i].0, ws[i].1)
  {
    seq(|ws|, i requires 0 <= i < |ws| => ([prefix] + ws[i].0, ws[i].1))
  }

  function SectionFiles(prefix: string, root: Option<Tree>): seq<(Path, Data)> {
    if root.Some? then Under(prefix, Walked(root.value, [])) else []
  }

  function BackedUp(snapshot: Data, keys: Option<Tree>, evidence: Option<Tree>, skipEvidence: bool): seq<(Path, Data)> {
    [(["data.db"], snapshot)] + SectionFiles("keys", keys)
    + if skipEvidence then [] else SectionFiles("evidence", evidence)
  }

  predicate RootOk(root: Option<Tree>) {
    root.Some? ==> root.value.Dir? && TreeOk(root.value)
  }

  /** The kept files of a directory. */
  predicate IsKept(root: Option<Tree>, p: Path, d: Data) {
    root.Some? && Lookup(root.value, p) == Some(d) && Kept(p)
  }

  lemma RootFinds(root: Tree, p: Path, d: Data)
    requires root.Dir? && TreeOk(root)
    ensures (p, d) in Walked(root, []) <==> Lookup(root, p) == Some(d) && Kept(p)
  {
    assert [] + p == p;
    WalkFinds(root, [], p, d);
  }

  lemma SectionEntries(prefix: string, root: Option<Tree>)
    requires RootOk(root)
    ensures PathEntries(SectionFiles(prefix, root)) == Section(prefix, root)
  {
    if root.Some? {
      var ws := Walked(root.value, []);
      var a, b := PathEntries(SectionFiles(prefix, root)), Section(prefix, root);
      forall i | 0 <= i < |a| ensures a[i] == b[i] {
        RootFinds(root.value, ws[i].0, ws[i].1);
        assert ws[i] == (ws[i].0, ws[i].1) && ws[i] in ws;
        assert ([prefix] + ws[i].0)[1..] == ws[i].0;
      }
      assert a == b;
    }
  }

  lemma SectionPlain(prefix: string, root: Option<Tree>)
    requires RootOk(root) && NameOk(prefix)
    ensures Plain(SectionFiles(prefix, root))
    ensures forall p, d :: ([prefix] + p, d) in SectionFiles(prefix, root) <==> IsKept(root, p, d)
  {
    var fs := SectionFiles(prefix, root);
    if root.Some? {
      var t := root.value;
      var ws := Walked(t, []);
      WalkOnce(t, []);
      hide Kept, Walked, TreeOk, NameOk;
      forall i | 0 <= i < |ws| ensures Lookup(t, ws[i].0) == Some(ws[i].1) && ws[i].0 != [] && PathOk(fs[i].0) {
        RootFinds(t, ws[i].0, ws[i].1);
        assert ws[i] == (ws[i].0, ws[i].1) && ws[i] in ws;
        NamesOk(t, ws[i].0);
        KeptNotEmpty(ws[i].0);
      }
      forall i, j | 0 <= i < |fs| && 0 <= j < |fs| && i != j ensures !(fs[i].0 <= fs[j].0) {
        Cancel([prefix], ws[i].0, ws[j].0);
        if ws[i].0 <= ws[j].0 {
          FileIsLeaf(t, ws[i].0, ws[j].0);
        }
      }
      forall p, d ensures ([prefix] + p, d) in fs <==> IsKept(root, p, d) {
        RootFinds(t, p, d);
        UnderMember(prefix, ws, p, d);
      }
    }
  }

  lemma KeptNotEmpty(p: Path)
    requires Kept(p)
    ensures p != []
  {
  }

  lemma UnderMember(prefix: string, ws: seq<(Path, Data)>, p: Path, d: Data)
    ensures ([prefix] + p, d) in Under(prefix, ws) <==> (p, d) in ws
  {
    var fs := Under(prefix, ws);
    if ([prefix] + p, d) in fs {
      var i :| 0 <= i < |fs| && fs[i] == ([prefix] + p, d);
      Cancel([prefix], p, ws[i].0);
      assert ws[i] == (p, d);
    }
    if (p, d) in ws {
      var i :| 0 <= i < |ws| && ws[i] == (p, d);
      assert fs[i] == ([prefix] + p, d);
    }
  }

  /** All paths of the list start with this element. */
  predicate AllBelow(ws: seq<(Path, Data)>, first: string) {
    forall i :: 0 <= i < |ws| ==> ws[i].0 != [] && ws[i].0[0] == first
  }

  lemma PlainTogether(a: seq<(Path, Data)>, b: seq<(Path, Data)>)
    requires Plain(a) && Plain(b)
    requires forall i, j :: 0 <= i < |a| && 0 <= j < |b| ==> a[i].0[0] != b[j].0[0]
    ensures Plain(a + b)
  {
    hide NameOk;
    var c := a + b;
    forall i, j | 0 <= i < |c| && 0 <= j < |c| && i != j ensures !(c[i].0 <= c[j].0) {
      if i < |a| <= j {
        assert a[i].0[0] != b[j - |a|].0[0];
      } else if j < |a| <= i {
        assert a[j].0[0] != b[i - |a|].0[0];
      }
    }
  }

  lemma Prefixes()
    ensures NameOk("data.db") && NameOk("keys") && NameOk("evidence")
    ensures "data.db" != "keys" && "data.db" != "evidence" && "keys" != "evidence"
  {
  }

  lemma BackedUpPlain(snapshot: Data, keys: Option<Tree>, evidence: Option<Tree>, skipEvidence: bool)
    requires RootOk(keys) && RootOk(evidence)
    ensures Plain(BackedUp(snapshot, keys, evidence, skipEvidence))
    ensures Archived(snapshot, keys, evidence, skipEvidence) ==
            PathEntries(BackedUp(snapshot, keys, evidence, skipEvidence))
  {
    Prefixes();
    SectionPlain("keys", keys);
    SectionPlain("evidence", evidence);
    SectionEntries("keys", keys);
    SectionEntries("evidence", evidence);
    var db := [(["data.db"], snapshot)];
    var ks := SectionFiles("keys", keys);
    var es := if skipEvidence then [] else SectionFiles("evidence", evidence);
    assert AllBelow(db, "data.db") && AllBelow(ks, "keys") && AllBelow(es, "evidence");
    assert Plain(db);
    hide NameOk, Section, SectionFiles, RootOk, Plain, PathEntries;
    ThreePlain(db, ks, es);
    DbEntry(snapshot);
    EntriesConcat(db + ks, es);
    EntriesConcat(db, ks);
  }

  lemma ThreePlain(a: seq<(Path, Data)>, b: seq<(Path, Data)>, c: seq<(Path, Data)>)
    requires Plain(a) && Plain(b) && Plain(c)
    requires AllBelow(a, "data.db") && AllBelow(b, "keys") && AllBelow(c, "evidence")
    ensures Plain(a + b + c)
  {
    Prefixes();
    hide Plain;
    PlainTogether(a, b);
    assert forall i :: 0 <= i < |a + b| ==> (a + b)[i].0[0] != "evidence";
    PlainTogether(a + b, c);
  }

  lemma DbEntry(snapshot: Data)
    ensures PathEntries([(["data.db"], snapshot)]) == [Entry("data.db", RegularEntry, snapshot)]
    ensures PathEntries([]) == []
  {
  }

  lemma EntriesConcat(a: seq<(Path, Data)>, b: seq<(Path, Data)>)
    ensures PathEntries(a + b) == PathEntries(a) + PathEntries(b)
  {
  }

  /** What the restored data directory should hold at a path. */
  predicate ShouldHold(q: Path, d: Data, snapshot: Data, keys: Option<Tree>, evidence: Option<Tree>,
                       skipEvidence: bool)
  {
    || (q == ["data.db"] && d == snapshot)
    || (q != [] && q[0] == "keys" && IsKept(keys, q[1..], d))
    || (q != [] && q[0] == "evidence" && !skipEvidence && IsKept(evidence, q[1..], d))
  }

  lemma BackedUpIs(q: Path, d: Data, snapshot: Data, keys: Option<Tree>, evidence: Option<Tree>, skipEvidence: bool)
    requires RootOk(keys) && RootOk(evidence)
    ensures (q, d) in BackedUp(snapshot, keys, evidence, skipEvidence) <==>
            ShouldHold(q, d, snapshot, keys, evidence, skipEvidence)
  {
    Prefixes();
    SectionPlain("keys", keys);
    SectionPlain("evidence", evidence);
    InSection("keys", keys, q, d);
    InSection("evidence", evidence, q, d);
    hide SectionFiles, IsKept, RootOk, NameOk;
  }

  lemma InSection(prefix: string, root: Option<Tree>, q: Path, d: Data)
    requires RootOk(root) && NameOk(prefix)
    ensures (q, d) in SectionFiles(prefix, root) <==> q != [] && q[0] == prefix && IsKept(root, q[1..], d)
  {
    SectionPlain(prefix, root);
    hide IsKept, RootOk, NameOk;
    if q != [] && q[0] == prefix {
      assert q == [prefix] + q[1..];
    }
  }

  /** An empty data directory. */
  function Empty(base: Path): Progress {
    Progress(Disk(map[], Parents(base)), 0, 0)
  }

  /** Restoring a backup into an empty directory gives the snapshot and every kept file with its bytes, and
      nothing else; the numbers reported are those of the files. */
  lemma BackupRestored(snapshot: Data, keys: Option<Tree>, evidence: Option<Tree>, skipEvidence: bool, base: Path)
    requires RootOk(keys) && RootOk(evidence) && base != []
    ensures var es := Archived(snapshot, keys, evidence, skipEvidence);
            var ws := BackedUp(snapshot, keys, evidence, skipEvidence);
            var (s, code) := Restored(es, Complete, base, Empty(base));
            && code == 0
            && (forall q, d :: base + q in s.disk.files && s.disk.files[base + q] == d <==>
                  ShouldHold(q, d, snapshot, keys, evidence, skipEvidence))
            && (forall p :: p in s.disk.files ==> base <= p)
            && s.total == TotalSize(ws) && s.count == |ws| == |s.disk.files|
  {
    var ws := BackedUp(snapshot, keys, evidence, skipEvidence);
    BackedUpPlain(snapshot, keys, evidence, skipEvidence);
    var s := RestoresWhole(ws, base);
    hide BackedUp, Archived, ShouldHold, Restored, RootOk, TotalSize, Empty, HeldExactly;
    forall q, d
      ensures base + q in s.disk.files && s.disk.files[base + q] == d <==>
              ShouldHold(q, d, snapshot, keys, evidence, skipEvidence)
    {
      BackedUpIs(q, d, snapshot, keys, evidence, skipEvidence);
      HeldThere(s.disk, ws, base, q, d);
    }
    HeldCount(s.disk, ws, base);
  }

  /** The disk holds exactly these files, below the base. */
  ghost predicate HeldExactly(disk: Disk, ws: seq<(Path, Data)>, base: Path) {
    && (forall q, d :: base + q in disk.files && disk.files[base + q] == d <==> (q, d) in ws)
    && (forall p :: p in disk.files ==> base <= p)
    && |disk.files| == |ws|
  }

  lemma HeldThere(disk: Disk, ws: seq<(Path, Data)>, base: Path, q: Path, d: Data)
    requires HeldExactly(disk, ws, base)
    ensures base + q in disk.files && disk.files[base + q] == d <==> (q, d) in ws
  {
  }

  lemma HeldCount(disk: Disk, ws: seq<(Path, Data)>, base: Path)
    requires HeldExactly(disk, ws, base)
    ensures |disk.files| == |ws| && forall p :: p in disk.files ==> base <= p
  {
  }

  lemma EmptyHolds(ws: seq<(Path, Data)>, base: Path)
    ensures Holds(Empty(base).disk, ws, 0, base)
  {
    forall d | d in Parents(base) ensures d <= base {
      ParentsAbove(base, d);
    }
  }

  lemma RestoresWhole(ws: seq<(Path, Data)>, base: Path) returns (s: Progress)
    requires Plain(ws) && base != []
    ensures Restored(PathEntries(ws), Complete, base, Empty(base)) == (s, 0)
    ensures HeldExactly(s.disk, ws, base) && s.total == TotalSize(ws) && s.count == |ws|
  {
    EmptyHolds(ws, base);
    s := RestoresList(ws, 0, |ws|, Complete, base, Empty(base));
    assert ws[0..|ws|] == ws;
    hide Holds, PrefixFree, Restored, PathEntries, TotalSize;
    HeldAll(s.disk, ws, base);
  }

  lemma BreaksOff(ws: seq<(Path, Data)>, n: nat, part: Data, base: Path) returns (s: Progress)
    requires Plain(ws) && n < |ws| && base != []
    ensures Restored(PathEntries(ws[..n]), BrokenOff(PathEntry((ws[n].0, part))), base, Empty(base)) == (s, 1)
    ensures HeldExactly(s.disk, ws[..n] + [(ws[n].0, part)], base)
    ensures s.total == TotalSize(ws[..n]) && s.count == n
  {
    hide Holds, PrefixFree, Plain, PathOk, Restored, TotalSize, Empty, WriteFile, Destination, NameOk, HeldExactly,
      Ended, PathEntries, PathEntry;
    var cut := ws[..n] + [(ws[n].0, part)];
    var last := PathEntry((ws[n].0, part));
    CutPlain(ws, n, part);
    EmptyHolds(cut, base);
    var s' := RestoresList(cut, 0, n, BrokenOff(last), base, Empty(base));
    assert cut[0..n] == ws[..n] && cut[n] == (ws[n].0, part);
    WritesOne(s'.disk, cut, n, base);
    EndsInside(ws[n].0, part, base, s');
    s := s'.(disk := WriteFile(s'.disk, base + ws[n].0, part).value);
    HeldAll(s.disk, cut, base);
    EmptyCounts(base);
  }

  lemma EmptyCounts(base: Path)
    ensures Empty(base).total == 0 && Empty(base).count == 0
  {
  }

  lemma EndsInside(p: Path, data: Data, base: Path, s: Progress)
    requires PathOk(p) && base != [] && WriteFile(s.disk, base + p, data).Some?
    ensures Ended(BrokenOff(PathEntry((p, data))), base, s)
         == (s.(disk := WriteFile(s.disk, base + p, data).value), 1)
  {
    hide WriteFile, Destination, NameOk;
    GoesThere(base, p);
  }

  /** A backup that breaks off inside its n-th file leaves the files before it whole, that file with what was
      copied, and nothing else; the exit code is 1 and the unfinished file is not in the numbers reported. */
  lemma BrokenRestored(snapshot: Data, keys: Option<Tree>, evidence: Option<Tree>, skipEvidence: bool, base: Path,
                       n: nat, part: Data)
    requires RootOk(keys) && RootOk(evidence) && base != []
    requires n < |Archived(snapshot, keys, evidence, skipEvidence)|
    ensures var es := Archived(snapshot, keys, evidence, skipEvidence);
            var ws := BackedUp(snapshot, keys, evidence, skipEvidence);
            var (s, code) := Restored(es[..n], BrokenOff(es[n].(data := part)), base, Empty(base));
            && |ws| == |es| && code == 1
            && HeldExactly(s.disk, ws[..n] + [(ws[n].0, part)], base)
            && s.total == TotalSize(ws[..n]) && s.count == n
  {
    var es := Archived(snapshot, keys, evidence, skipEvidence);
    var ws := BackedUp(snapshot, keys, evidence, skipEvidence);
    BackedUpPlain(snapshot, keys, evidence, skipEvidence);
    hide BackedUp, Archived, RootOk, Restored, HeldExactly, TotalSize, Empty, Plain, PathEntry;
    CutEntries(ws, n, part);
    hide PathEntries;
    var s := BreaksOff(ws, n, part, base);
  }

  lemma CutEntries(ws: seq<(Path, Data)>, n: nat, part: Data)
    requires n < |ws|
    ensures PathEntries(ws[..n]) == PathEntries(ws)[..n]
    ensures PathEntry((ws[n].0, part)) == PathEntries(ws)[n].(data := part)
  {
  }

  lemma CutPlain(ws: seq<(Path, Data)>, n: nat, part: Data)
    requires Plain(ws) && n < |ws|
    ensures Plain(ws[..n] + [(ws[n].0, part)]) && PrefixFree(ws[..n] + [(ws[n].0, part)]) && PathOk(ws[n].0)
  {
    hide NameOk;
    var cut := ws[..n] + [(ws[n].0, part)];
    assert forall i :: 0 <= i < |cut| ==> cut[i].0 == ws[i].0;
  }

  lemma HeldAll(disk: Disk, ws: seq<(Path, Data)>, base: Path)
    requires Holds(disk, ws, |ws|, base) && PrefixFree(ws)
    ensures HeldExactly(disk, ws, base)
  {
    CountHeld(disk, ws, base);
    hide Holds, PrefixFree;
    forall q, d ensures base + q in disk.files && disk.files[base + q] == d <==> (q, d) in ws {
      HeldAt(disk, ws, base, q, d);
    }
  }

  lemma HeldAt(disk: Disk, ws: seq<(Path, Data)>, base: Path, q: Path, d: Data)
    requires Holds(disk, ws, |ws|, base) && PrefixFree(ws)
    ensures base + q in disk.files && disk.files[base + q] == d <==> (q, d) in ws
  {
    hide PrefixFree;
    if base + q in disk.files {
      var i :| 0 <= i < |ws| && base + q == base + ws[i].0;
      Cancel(base, q, ws[i].0);
      assert disk.files[base + q] == d ==> ws[i] == (q, d);
    }
    if (q, d) in ws {
      var i :| 0 <= i < |ws| && ws[i] == (q, d);
      assert base + ws[i].0 in disk.files;
    }
  }

  /** Where the files go. */
  function Places(ws: seq<(Path, Data)>, base: Path): (ps: seq<Path>)
    ensures |ps| == |ws|
    ensures forall i :: 0 <= i < |ps| ==> ps[i] == base + ws[i].0
  {
    seq(|ws|, i requires 0 <= i < |ws| => base + ws[i].0)
  }

  lemma PlacesApart(ws: seq<(Path, Data)>, base: Path)
    requires PrefixFree(ws)
    ensures Distinct(Places(ws, base))
  {
    forall i, j | 0 <= i < j < |ws| ensures base + ws[i].0 != base + ws[j].0 {
      Cancel(base, ws[i].0, ws[j].0);
    }
  }

  lemma CountHeld(disk: Disk, ws: seq<(Path, Data)>, base: Path)
    requires Holds(disk, ws, |ws|, base) && PrefixFree(ws)
    ensures |disk.files| == |ws|
    ensures forall p :: p in disk.files ==> base <= p
  {
    PlacesApart(ws, base);
    DistinctCount(Places(ws, base));
    hide PrefixFree, Distinct;
    assert disk.files.Keys == Elements(Places(ws, base));
  }

  /** Over the root directory the guard lets nothing through. */
  lemma RootRefusesAll(es: seq<Entry>, ending: Ending, s: Progress)
    requires es != [] && Destination([], es[0].name) != []
    ensures Restored(es, ending, [], s) == (s, 3)
  {
  }
}
