/** What the lemmas about packs ask of hashing, JSON and signatures can be had, for any packs that a key has
    signed. */
module PackLibrary {
  import opened Common
  import opened Bytes
  import opened PackArchive
  import opened PackLoader
  import Audit
  import Library

  function EntriesDoc(es: seq<ManifestEntry>): (d: Audit.Doc)
    ensures |d| == |es|
  {
    seq(|es|, i requires 0 <= i < |es| =>
      Audit.Field("", Audit.Object([Library.T(es[i].path), Library.T(es[i].sha256), Library.N(es[i].size)])))
  }

  function ManifestDoc(m: Manifest): Audit.Doc {
    [Audit.Field("", Audit.Object(EntriesDoc(m.files))), Library.T(m.packKey), Library.N(m.schemaVersion)]
  }

  function Encoded(m: Manifest): Data {
    Library.DocText(ManifestDoc(m))
  }

  lemma EntriesApart(a: seq<ManifestEntry>, b: seq<ManifestEntry>)
    requires EntriesDoc(a) == EntriesDoc(b)
    ensures a == b
  {
    forall i | 0 <= i < |a| ensures a[i] == b[i] {
      var d, e := EntriesDoc(a)[i].value.fields, EntriesDoc(b)[i].value.fields;
      assert d[0] == e[0] && d[1] == e[1] && d[2] == e[2];
    }
  }

  lemma ManifestsApart(a: Manifest, b: Manifest)
    requires Encoded(a) == Encoded(b)
    ensures a == b
  {
    Library.DocsApart();
    hide Library.DocText;
    var d, e := ManifestDoc(a), ManifestDoc(b);
    assert d[0] == e[0] && d[1] == e[1] && d[2] == e[2];
    EntriesApart(a.files, b.files);
  }

  /** Hexadecimal text in place of a hash, so that no two files collide; a signature that verifies for the
      manifests of these packs and for nothing else. */
  ghost function LibraryOf(packs: set<Pack>): Lib {
    Lib(HexEncode, Encoded, d => Library.Reading(Encoded, d), (key, d) => seq(64, _ => 0),
        (pub, d, s) => s == seq(64, _ => 0) && exists p :: p in packs && d == Encoded(PlainManifest(p)),
        d => None)
  }

  ghost function PlainManifest(p: Pack): Manifest {
    ManifestOf(p.files, p.packKey, Lib(HexEncode, Encoded, d => None, (k, d) => [], (k, d, s) => false, d => None))
  }

  lemma SameManifest(packs: set<Pack>, p: Pack)
    ensures ManifestOf(p.files, p.packKey, LibraryOf(packs)) == PlainManifest(p)
    ensures ManifestText(p.files, p.packKey, LibraryOf(packs)) == Encoded(PlainManifest(p))
  {
    hide Ordered, Encoded;
  }

  lemma HexApart(a: map<string, Data>, b: map<string, Data>, lib: Lib)
    requires lib.shaHex == HexEncode
    ensures NoCollision(a, b, lib)
  {
    forall f | f in a && f in b && lib.shaHex(a[f]) == lib.shaHex(b[f]) ensures a[f] == b[f] {
      HexRoundTrip(a[f]);
      HexRoundTrip(b[f]);
    }
  }

  lemma FaithfulHere(packs: set<Pack>, p: Pack, key: Data, pub: Data)
    requires p in packs
    ensures Faithful(p.files, p.packKey, key, pub, LibraryOf(packs))
  {
    hide ManifestOf, Encoded, PlainManifest;
    SameManifest(packs, p);
    forall a, b | Encoded(a) == Encoded(b) ensures a == b { ManifestsApart(a, b); }
    Library.ReadsBack(Encoded, PlainManifest(p));
  }

  /** With this library every archive, honest or not, is one that the result about accepted archives speaks
      of. */
  lemma TrustedHere(c: map<string, Data>, packs: set<Pack>, key: Data, pub: Data)
    requires forall p, f :: p in packs && f in p.files ==> !Reserved(f)
    ensures Trusted(c, packs, key, pub, LibraryOf(packs))
  {
    var lib := LibraryOf(packs);
    hide Reserved, ManifestOf, Encoded, PlainManifest, Faithful, NoCollision, WithManifest;
    forall p | p in packs
      ensures Faithful(p.files, p.packKey, key, pub, lib)
      ensures NoCollision(c, WithManifest(p.files, p.packKey, key, lib), lib)
    {
      FaithfulHere(packs, p, key, pub);
      HexApart(c, WithManifest(p.files, p.packKey, key, lib), lib);
    }
    if Signed(c, pub, lib) {
      var p :| p in packs && c[MANIFEST_FILE] == Encoded(PlainManifest(p));
      SameManifest(packs, p);
    }
  }

  /** And each of the packs that is within the limits is accepted. */
  lemma PackAccepted(packs: set<Pack>, p: Pack, key: Data, pub: Data)
    requires p in packs && forall f :: f in p.files ==> !Reserved(f)
    requires WithinLimits(p.files, ArchiveOf(p.files, p.packKey, key, LibraryOf(packs)))
    ensures Accepts(ArchiveOf(p.files, p.packKey, key, LibraryOf(packs)), pub, LibraryOf(packs), name => name)
  {
    hide Accepts, ArchiveOf, LibraryOf, WithinLimits, Faithful, Reserved;
    FaithfulHere(packs, p, key, pub);
    BuiltLoads(p.files, p.packKey, key, pub, LibraryOf(packs), name => name);
  }
}
