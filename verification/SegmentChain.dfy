/**
 cmd/rosshield-audit-verify/rotation.go: archived segments, each checked alone and then linked to the
 one before it.
 */
module SegmentChain {
  import opened Common
  import opened Bytes
  import opened Audit
  import opened ExportVerify

  datatype Manifest = Manifest(version: string, entryCount: int, segmentHash: string, prevSegmentHash: string)

  /** The archives and the library calls around the checks. cosign is absent when no signature check is
      asked for; otherwise it judges a segment's archive. */
  datatype Archives = Archives(
    uri: int -> Option<string>,
    fetch: string -> Option<Data>,
    unpack: Data -> Option<seq<TarItem>>,
    decodeManifest: Data -> Option<Manifest>,
    decodeEntry: Data -> Option<Entry>,
    sha: Data -> Hash,
    cosign: Option<(int, Data) -> bool>)

  // ---------------------------------------------------------------- reading one archive

  /** The last file of this name among the first n items. */
  function LastNamed(items: seq<TarItem>, n: nat, name: string): Option<Data>
    requires n <= |items|
  {
    if n == 0 then None
    else if !items[n - 1].isDir && items[n - 1].name == name then Some(items[n - 1].data)
    else LastNamed(items, n - 1, name)
  }

  /** An archive reads as a manifest and as many entries as the manifest says. */
  function Read(body: Data, a: Archives): Option<(Manifest, seq<Entry>)> {
    match a.unpack(body)
    case None => None
    case Some(items) =>
      match (LastNamed(items, |items|, "manifest.json"), LastNamed(items, |items|, "entries.ndjson"))
      case (Some(mf), Some(en)) =>
        (match (a.decodeManifest(mf), ParseEntries(en, a.decodeEntry))
         case (Some(m), Some(es)) => if |es| == m.entryCount then Some((m, es)) else None
         case _ => None)
      case _ => None
  }

  method ReadSegmentArchive(body: Data, a: Archives) returns (r: Option<(Manifest, seq<Entry>)>)
    ensures r == Read(body, a)
  {
    var unpacked := a.unpack(body);
    if unpacked.None? {
      return None;
    }
    var items := unpacked.value;
    var manifest: Option<Data> := None;
    var entries: Option<Data> := None;
    for i := 0 to |items|
      invariant manifest == LastNamed(items, i, "manifest.json")
      invariant entries == LastNamed(items, i, "entries.ndjson")
    {
      if items[i].isDir {
        continue;
      }
      if items[i].name == "manifest.json" {
        manifest := Some(items[i].data);
      } else if items[i].name == "entries.ndjson" {
        entries := Some(items[i].data);
      }
    }
    if manifest.None? || entries.None? {
      return None;
    }
    var m := a.decodeManifest(manifest.value);
    if m.None? {
      return None;
    }
    var es := ParseEntries(entries.value, a.decodeEntry);
    if es.None? || |es.value| != m.value.entryCount {
      return None;
    }
    r := Some((m.value, es.value));
  }

  /** ComputeSegmentHash: the hash of the entries' stored hashes, in order. */
  function HashBytes(es: seq<Entry>): Data {
    if es == [] then [] else es[0].hash + HashBytes(es[1..])
  }

  /** The stored hashes one after the other, 32 bytes each. */
  ghost predicate HashesInRow(d: Data, es: seq<Entry>) {
    && |d| == 32 * |es|
    && forall i :: 0 <= i < |es| ==> d[32 * i..32 * i + 32] == es[i].hash
  }

  lemma {:induction false} HashBytesInRow(es: seq<Entry>)
    ensures HashesInRow(HashBytes(es), es)
  {
    if es != [] {
      HashBytesInRow(es[1..]);
      var d, rest := HashBytes(es), HashBytes(es[1..]);
      forall i | 0 <= i < |es| ensures d[32 * i..32 * i + 32] == es[i].hash {
        if i > 0 {
          assert rest[32 * (i - 1)..32 * (i - 1) + 32] == es[1..][i - 1].hash;
          assert d[32..] == rest;
          assert d[32 * i..32 * i + 32] == rest[32 * (i - 1)..32 * (i - 1) + 32];
        }
      }
    }
  }

  /** What is hashed tells the stored hashes and their number, and they tell what is hashed. */
  lemma {:induction false} RowTells(d: Data, es: seq<Entry>)
    requires HashesInRow(d, es)
    ensures d == HashBytes(es)
  {
    if es != [] {
      var rest := d[32..];
      forall i | 0 <= i < |es| - 1 ensures rest[32 * i..32 * i + 32] == es[1..][i].hash {
        assert rest[32 * i..32 * i + 32] == d[32 * (i + 1)..32 * (i + 1) + 32];
      }
      RowTells(rest, es[1..]);
      assert d == d[32 * 0..32 * 0 + 32] + rest;
    }
  }

  // ---------------------------------------------------------------- one segment

  function Body(n: int, a: Archives): Option<Data> {
    match a.uri(n)
    case None => None
    case Some(u) => a.fetch(u)
  }

  /** The segment verifies on its own: it can be fetched and read, its entries hash to the manifest's
      segment hash, and its signature, if asked for, is good. */
  predicate Sound(n: int, a: Archives) {
    && Body(n, a).Some?
    && Read(Body(n, a).value, a).Some?
    && var (m, es) := Read(Body(n, a).value, a).value;
    && EqualFold(HexEncode(a.sha(HashBytes(es))), m.segmentHash)
    && (a.cosign.Some? ==> a.cosign.value(n, Body(n, a).value))
  }

  function ManifestOf(n: int, a: Archives): Manifest
    requires Sound(n, a)
  {
    Read(Body(n, a).value, a).value.0
  }

  /** A verified segment hash has 64 digits, so it is never the empty text that means no expectation. */
  lemma VerifiedHashNotEmpty(n: int, a: Archives)
    requires Sound(n, a)
    ensures |ManifestOf(n, a).segmentHash| == 64
  {
    var (m, es) := Read(Body(n, a).value, a).value;
    assert |Fold(HexEncode(a.sha(HashBytes(es))))| == 64;
  }

  /** The last file of the archive with this name, and its bytes. */
  ghost predicate LastFile(items: seq<TarItem>, name: string, data: Data) {
    exists i :: 0 <= i < |items| && items[i] == TarItem(name, false, data) && NoneBehind(items, name, i)
  }

  predicate NoneBehind(items: seq<TarItem>, name: string, i: nat) {
    forall j :: i < j < |items| ==> items[j].isDir || items[j].name != name
  }

  lemma {:induction false} LastNamedIs(items: seq<TarItem>, n: nat, name: string, data: Data)
    requires n <= |items|
    ensures LastNamed(items, n, name) == Some(data) <==> LastFile(items[..n], name, data)
    decreases n
  {
    if n > 0 {
      var it := items[n - 1];
      LastNamedIs(items, n - 1, name, data);
      assert items[..n][n - 1] == it;
      if !it.isDir && it.name == name {
        assert NoneBehind(items[..n], name, n - 1);
        assert forall i :: 0 <= i < n - 1 ==> !NoneBehind(items[..n], name, i);
      } else {
        assert forall i :: 0 <= i < n - 1 ==> items[..n][i] == items[..n - 1][i];
        forall i | 0 <= i < n - 1 ensures NoneBehind(items[..n], name, i) <==> NoneBehind(items[..n - 1], name, i) {
          assert forall j :: 0 <= j < n - 1 ==> items[..n][j] == items[..n - 1][j];
        }
      }
    }
  }

  /** A segment as it is archived: the files that count are a manifest with the number of the entries and the
      hash of their stored hashes in a row, up to letter case, and the entries; its signature is good if one is
      asked for. */
  ghost predicate ArchivedAs(n: int, body: Data, m: Manifest, es: seq<Entry>, row: Data, a: Archives) {
    && a.uri(n).Some? && a.fetch(a.uri(n).value) == Some(body) && a.unpack(body).Some?
    && (exists mf, en ::
          && LastFile(a.unpack(body).value, "manifest.json", mf) && a.decodeManifest(mf) == Some(m)
          && LastFile(a.unpack(body).value, "entries.ndjson", en) && ParseEntries(en, a.decodeEntry) == Some(es))
    && m.entryCount == |es| && HashesInRow(row, es)
    && EqualFold(HexEncode(a.sha(row)), m.segmentHash)
    && (a.cosign.Some? ==> a.cosign.value(n, body))
  }

  lemma ReadMeans(body: Data, m: Manifest, es: seq<Entry>, a: Archives)
    ensures Read(body, a) == Some((m, es)) <==>
            && a.unpack(body).Some? && m.entryCount == |es|
            && exists mf, en ::
                 && LastFile(a.unpack(body).value, "manifest.json", mf) && a.decodeManifest(mf) == Some(m)
                 && LastFile(a.unpack(body).value, "entries.ndjson", en) && ParseEntries(en, a.decodeEntry) == Some(es)
  {
    hide LastNamed, LastFile, ParseEntries;
    if a.unpack(body).Some? {
      var items := a.unpack(body).value;
      assert items[..|items|] == items;
      forall name, d ensures LastNamed(items, |items|, name) == Some(d) <==> LastFile(items, name, d) {
        LastNamedIs(items, |items|, name, d);
      }
    }
  }

  /** A segment is sound exactly when it is archived like that. */
  lemma SoundMeans(n: int, a: Archives)
    ensures Sound(n, a) <==> exists body, m, es, row :: ArchivedAs(n, body, m, es, row, a)
  {
    hide HashBytes, LastFile, Read, EqualFold, HexEncode, ParseEntries;
    if Sound(n, a) {
      var body := Body(n, a).value;
      var (m, es) := Read(body, a).value;
      ReadMeans(body, m, es, a);
      HashBytesInRow(es);
      assert ArchivedAs(n, body, m, es, HashBytes(es), a);
    }
    if body, m, es, row :| ArchivedAs(n, body, m, es, row, a) {
      ReadMeans(body, m, es, a);
      RowTells(row, es);
    }
  }

  /** The segment's entries. */
  function EntriesOf(n: int, a: Archives): seq<Entry>
    requires Sound(n, a)
  {
    Read(Body(n, a).value, a).value.1
  }

  /** Two sound segments with one segment hash carry the same stored hashes in the same order, unless what is
      hashed for them collides. */
  lemma SegmentHashPins(n: int, a: Archives, m: int, b: Archives)
    requires Sound(n, a) && Sound(m, b)
    requires EqualFold(ManifestOf(n, a).segmentHash, ManifestOf(m, b).segmentHash)
    requires forall d, e :: HashesInRow(d, EntriesOf(n, a)) && HashesInRow(e, EntriesOf(m, b)) ==>
               a.sha(d) == b.sha(e) ==> d == e
    ensures var es, fs := EntriesOf(n, a), EntriesOf(m, b);
            |es| == |fs| && forall i :: 0 <= i < |es| ==> es[i].hash == fs[i].hash
  {
    var es, fs := EntriesOf(n, a), EntriesOf(m, b);
    var d, e := HashBytes(es), HashBytes(fs);
    HashBytesInRow(es);
    HashBytesInRow(fs);
    HexFolded(a.sha(d), b.sha(e));
    hide HashBytes, Read;
    assert d == e;
    forall i | 0 <= i < |es| ensures es[i].hash == fs[i].hash {
      assert d[32 * i..32 * i + 32] == es[i].hash && e[32 * i..32 * i + 32] == fs[i].hash;
    }
  }

  /** Hexadecimal text has no capitals, so equality up to letter case is equality of the bytes. */
  lemma HexFolded(a: Data, b: Data)
    ensures EqualFold(HexEncode(a), HexEncode(b)) <==> a == b
  {
    HexLower(a);
    HexLower(b);
    HexRoundTrip(a);
    HexRoundTrip(b);
  }

  lemma {:induction false} HexLower(a: Data)
    ensures Fold(HexEncode(a)) == HexEncode(a)
  {
    if a != [] {
      HexLower(a[1..]);
      var s, t := HexEncode(a), HexEncode(a[1..]);
      assert s[2..] == t;
      forall i | 0 <= i < |s| ensures FoldChar(s[i]) == s[i] {
        if i >= 2 {
          assert Fold(t)[i - 2] == FoldChar(t[i - 2]) && t[i - 2] == s[i];
        }
      }
    }
  }

  datatype Stage = FetchStep | ArchiveSha | Extract | SegmentHash | PrevChain | Cosign | Done

  /** What one verification reports; stage is the step that failed, or Done. */
  datatype SegmentOutput = SegmentOutput(number: int, stage: Stage, segmentHash: string, prevSegmentHash: string)

  predicate Expected(got: string, want: string) {
    want == "" || EqualFold(got, want)
  }

  method VerifyOneArchive(n: int, uri: string, expectedSHA: string, expectedSegHash: string,
                          expectedPrev: string, a: Archives)
    returns (out: SegmentOutput)
    requires a.uri(n) == Some(uri)
    ensures out.stage.Done? <==>
            && Sound(n, a)
            && Expected(HexEncode(a.sha(Body(n, a).value)), expectedSHA)
            && Expected(ManifestOf(n, a).segmentHash, expectedSegHash)
            && Expected(ManifestOf(n, a).prevSegmentHash, expectedPrev)
    ensures out.stage.Done? ==>
            && out.segmentHash == ManifestOf(n, a).segmentHash
            && out.prevSegmentHash == ManifestOf(n, a).prevSegmentHash
    ensures out.number == n
    ensures out.stage.PrevChain? ==>
              (Body(n, a).Some? && Read(Body(n, a).value, a).Some?
               && !Expected(Read(Body(n, a).value, a).value.0.prevSegmentHash, expectedPrev))
  {
    hide HexEncode, EqualFold, HashBytes, Read;
    out := SegmentOutput(n, FetchStep, "", "");
    var fetched := a.fetch(uri);
    if fetched.None? {
      return;
    }
    var body := fetched.value;
    if expectedSHA != "" && !EqualFold(HexEncode(a.sha(body)), expectedSHA) {
      out := out.(stage := ArchiveSha);
      return;
    }
    var archive := ReadSegmentArchive(body, a);
    if archive.None? {
      out := out.(stage := Extract);
      return;
    }
    var (manifest, entries) := archive.value;
    out := out.(segmentHash := manifest.segmentHash, prevSegmentHash := manifest.prevSegmentHash);
    var recomputed := HexEncode(a.sha(HashBytes(entries)));
    if !EqualFold(recomputed, manifest.segmentHash)
       || (expectedSegHash != "" && !EqualFold(manifest.segmentHash, expectedSegHash))
    {
      out := out.(stage := SegmentHash);
      return;
    }
    if expectedPrev != "" && !EqualFold(manifest.prevSegmentHash, expectedPrev) {
      out := out.(stage := PrevChain);
      return;
    }
    if a.cosign.Some? && !a.cosign.value(n, body) {
      out := out.(stage := Cosign);
      return;
    }
    out := out.(stage := Done);
  }

  // ---------------------------------------------------------------- the chain of segments

  /** Segment n names the hash of segment n - 1 as its predecessor, up to letter case. */
  predicate Follows(n: int, a: Archives) {
    Sound(n - 1, a) && Sound(n, a) && EqualFold(ManifestOf(n, a).prevSegmentHash, ManifestOf(n - 1, a).segmentHash)
  }

  /** Every segment of the range verifies alone, and each but the first follows its predecessor. */
  predicate ChainPasses(first: int, last: int, a: Archives) {
    && (forall n :: first <= n <= last ==> Sound(n, a))
    && (forall n :: first < n <= last ==> Follows(n, a))
  }

  datatype ChainOutput = ChainOutput(segments: seq<SegmentOutput>, verified: nat, firstFailure: Option<int>)

  /** Exit code 2 for a bad range, 0 when the whole chain passes, and 1 with the number of the first
      segment that breaks it. */
  method RunRotationChain(fromSegment: int, toSegment: int, a: Archives)
    returns (code: int, out: ChainOutput)
    ensures code == 2 <==> fromSegment <= 0 || (toSegment != 0 && toSegment < fromSegment)
    ensures code != 2 ==>
      var last := if toSegment == 0 then fromSegment else toSegment;
      && (code == 0 <==> ChainPasses(fromSegment, last, a))
      && (code == 0 ==> out.verified == last - fromSegment + 1 && out.firstFailure.None?)
      && (code != 0 ==>
            && code == 1 && out.firstFailure.Some?
            && fromSegment <= out.firstFailure.value <= last
            && out.verified == out.firstFailure.value - fromSegment
            && ChainPasses(fromSegment, out.firstFailure.value - 1, a)
            && !ChainPasses(fromSegment, out.firstFailure.value, a))
  {
    hide Sound, EqualFold, ChainPasses, Follows;
    out := ChainOutput([], 0, None);
    if fromSegment <= 0 {
      return 2, out;
    }
    var last := if toSegment == 0 then fromSegment else toSegment;
    if last < fromSegment {
      return 2, out;
    }
    var prevHash := "";
    var n := fromSegment;
    NoneYet(fromSegment, a);
    while n <= last
      invariant fromSegment <= n <= last + 1
      invariant ChainPasses(fromSegment, n - 1, a)
      invariant out.verified == n - fromSegment && out.firstFailure.None?
      invariant n == fromSegment ==> prevHash == ""
      invariant n > fromSegment ==> Sound(n - 1, a) && prevHash == ManifestOf(n - 1, a).segmentHash
    {
      OneMore(fromSegment, n, a);
      StaysBroken(fromSegment, n, last, a);
      var uri := a.uri(n);
      if uri.None? {
        NoUri(n, a);
        out := out.(firstFailure := Some(n));
        return 1, out;
      }
      var expectedPrev := prevHash;
      if n == fromSegment && n > 1 {
        expectedPrev := "";
      }
      if n > fromSegment {
        VerifiedHashNotEmpty(n - 1, a);
        FollowsHere(n, a);
      }
      var segment := VerifyOneArchive(n, uri.value, "", "", expectedPrev, a);
      out := out.(segments := out.segments + [segment]);
      if !segment.stage.Done? {
        assert n > fromSegment ==> !Follows(n, a);
        out := out.(firstFailure := Some(n));
        return 1, out;
      }
      assert n > fromSegment ==> Follows(n, a);
      out := out.(verified := out.verified + 1);
      prevHash := segment.segmentHash;
      n := n + 1;
    }
    code := 0;
  }

  lemma NoneYet(first: int, a: Archives)
    ensures ChainPasses(first, first - 1, a)
  {
  }

  /** One segment more, at the end of a chain that passes. */
  lemma OneMore(first: int, n: int, a: Archives)
    requires first <= n && ChainPasses(first, n - 1, a)
    ensures ChainPasses(first, n, a) <==> Sound(n, a) && (n > first ==> Follows(n, a))
  {
    hide Sound, Follows;
  }

  lemma StaysBroken(first: int, n: int, last: int, a: Archives)
    requires first <= n <= last
    ensures ChainPasses(first, last, a) ==> ChainPasses(first, n, a)
  {
    hide Sound, Follows;
  }

  lemma FollowsHere(n: int, a: Archives)
    requires Sound(n - 1, a)
    ensures Follows(n, a) <==>
            Sound(n, a) && EqualFold(ManifestOf(n, a).prevSegmentHash, ManifestOf(n - 1, a).segmentHash)
  {
    hide Sound, EqualFold;
  }

  lemma NoUri(n: int, a: Archives)
    requires a.uri(n).None?
    ensures !Sound(n, a)
  {
  }

  /** A chain passes exactly when the two parts that share a segment pass. */
  lemma ChainSplits(first: int, mid: int, last: int, a: Archives)
    requires first <= mid <= last
    ensures ChainPasses(first, last, a) <==> ChainPasses(first, mid, a) && ChainPasses(mid, last, a)
  {
  }

  /** Parts that do not share a segment say nothing about the link between them. */
  lemma DisjointParts(first: int, mid: int, last: int, a: Archives)
    requires first <= mid < last
    ensures ChainPasses(first, last, a) <==>
            ChainPasses(first, mid, a) && ChainPasses(mid + 1, last, a) && Follows(mid + 1, a)
  {
    ChainSplits(first, mid, last, a);
    ChainSplits(mid, mid + 1, last, a);
  }
}
