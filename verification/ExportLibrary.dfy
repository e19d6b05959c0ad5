/** What the lemmas about exports ask of hashing, JSON and signatures can be had: here are a library and an
    exporter that meet it in every state. */
module ExportLibrary {
  import opened Common
  import opened Bytes
  import opened Audit
  import opened ExportVerify
  import opened AuditHistory
  import opened AuditWriter
  import opened AuditExport
  import opened Library

  // ---------------------------------------------------------------- texts

  function OptionDoc(n: Option<int>): Field {
    Field("", Object(OptNumber("", n)))
  }

  function ErrorDoc(e: Option<ErrorInfo>): Field {
    Field("", Object(if e.None? then [] else [T(e.value.code), T(e.value.message)]))
  }

  function EntryDoc(e: Entry): Doc {
    [T(e.tenantId), N(e.seqNo), T(e.occurredAt), T(e.actor.kind), T(e.actor.id), T(e.actor.ip), T(e.actor.userAgent),
     T(e.action), T(e.target.kind), T(e.target.id), T(HexEncode(e.payloadDigest)), T(e.outcome), ErrorDoc(e.error),
     T(HexEncode(e.prevHash)), T(HexEncode(e.hash)), OptionDoc(e.leaderEpoch), OptionDoc(e.keyEpoch)]
  }

  function EntryText(e: Entry): Data {
    DocText(EntryDoc(e))
  }

  function RowsDoc(rows: seq<EpochRow>): (d: Doc)
    ensures |d| == |rows|
  {
    seq(|rows|, i requires 0 <= i < |rows| =>
      Field("", Object([N(rows[i].epoch), T(rows[i].keyId), T(rows[i].publicKeyHex)])))
  }

  function SigDoc(s: SigLine): Doc {
    [T(s.bundleVersion), Field("", Object(RowsDoc(s.chainKeyEpochs))), N(s.fromSeq), N(s.transitionAt), T(s.keyId),
     T(s.publicKey), T(s.signedDigest), T(s.signature), N(s.toSeq)]
  }

  function SigText(s: SigLine): Data {
    [123, 34, 95] + DocText(SigDoc(s))
  }

  lemma HexApart(a: Data, b: Data)
    requires HexEncode(a) == HexEncode(b)
    ensures a == b
  {
    HexRoundTrip(a);
    HexRoundTrip(b);
  }

  lemma EntriesApart(a: Entry, b: Entry)
    requires EntryText(a) == EntryText(b)
    ensures a == b
  {
    DocsApart();
    hide DocText, HexEncode;
    var d, e := EntryDoc(a), EntryDoc(b);
    assert d[0] == e[0] && d[1] == e[1] && d[2] == e[2] && d[3] == e[3] && d[4] == e[4] && d[5] == e[5];
    assert d[6] == e[6] && d[7] == e[7] && d[8] == e[8] && d[9] == e[9] && d[10] == e[10] && d[11] == e[11];
    assert d[12] == e[12] && d[13] == e[13] && d[14] == e[14] && d[15] == e[15] && d[16] == e[16];
    ErrorsApart(a.error, b.error);
    OptionsApart(a.leaderEpoch, b.leaderEpoch);
    OptionsApart(a.keyEpoch, b.keyEpoch);
    HexApart(a.payloadDigest, b.payloadDigest);
    HexApart(a.prevHash, b.prevHash);
    HexApart(a.hash, b.hash);
  }

  lemma ErrorsApart(a: Option<ErrorInfo>, b: Option<ErrorInfo>)
    ensures ErrorDoc(a) == ErrorDoc(b) ==> a == b
  {
    if ErrorDoc(a) == ErrorDoc(b) {
      var d, e := ErrorDoc(a).value.fields, ErrorDoc(b).value.fields;
      assert a.Some? ==> d[0] == e[0] && d[1] == e[1];
    }
  }

  lemma OptionsApart(a: Option<int>, b: Option<int>)
    ensures OptionDoc(a) == OptionDoc(b) ==> a == b
  {
    if OptionDoc(a) == OptionDoc(b) {
      var d, e := OptionDoc(a).value.fields, OptionDoc(b).value.fields;
      assert a.Some? ==> d[0] == e[0];
    }
  }

  lemma RowsApart(a: seq<EpochRow>, b: seq<EpochRow>)
    requires RowsDoc(a) == RowsDoc(b)
    ensures a == b
  {
    forall i | 0 <= i < |a| ensures a[i] == b[i] {
      var d, e := RowsDoc(a)[i].value.fields, RowsDoc(b)[i].value.fields;
      assert d[0] == e[0] && d[1] == e[1] && d[2] == e[2];
    }
  }

  lemma SigsApart(a: SigLine, b: SigLine)
    requires SigText(a) == SigText(b)
    ensures a == b
  {
    DocsApart();
    hide DocText, SigDoc;
    assert SigText(a)[3..] == DocText(SigDoc(a)) && SigText(b)[3..] == DocText(SigDoc(b));
    SigDocsApart(a, b);
  }

  lemma SigDocsApart(a: SigLine, b: SigLine)
    requires SigDoc(a) == SigDoc(b)
    ensures a == b
  {
    hide RowsDoc;
    var d, e := SigDoc(a), SigDoc(b);
    assert d[0] == e[0] && d[1] == e[1] && d[2] == e[2] && d[3] == e[3] && d[4] == e[4];
    assert d[5] == e[5] && d[6] == e[6] && d[7] == e[7] && d[8] == e[8];
    RowsApart(a.chainKeyEpochs, b.chainKeyEpochs);
  }

  // ---------------------------------------------------------------- a hash

  /** A metadata document with an epoch behind its first two members. */
  predicate HasEpoch(d: Doc) {
    |d| > 2 && d[2].key != "occurredAt"
  }

  function OneHash(): Hash {
    seq(32, _ => 1)
  }

  /** One value for what is hashed for an entry with an epoch under the third version, another for the rest. */
  ghost function Sha(x: Data): Hash {
    if |x| >= 64 && exists d :: HasEpoch(d) && DocText(d) == x[64..] then OneHash() else ZeroHash()
  }

  ghost function TheHasher(): Hasher {
    Hasher(x => Sha(x), DocText)
  }

  lemma MetaEpoch(e: Entry)
    ensures !HasEpoch(MetaV1(e))
    ensures !AuditExport.NoEpochs(e) ==> HasEpoch(MetaV3(e))
  {
    assert |HeadDoc(e)| == 2;
    assert MetaV1(e)[2] == TailDoc(e)[0];
    if !AuditExport.NoEpochs(e) {
      assert EpochDoc(e) != [] && MetaV3(e)[2] == EpochDoc(e)[0];
      assert EpochDoc(e)[0].key == "keyEpoch" || EpochDoc(e)[0].key == "leaderEpoch";
    }
  }

  lemma ShaOf(e: Entry, v: HashVersion)
    ensures Sha(Preimage(e, v, TheHasher())) == if HasEpoch(Meta(e, v)) then OneHash() else ZeroHash()
  {
    hide DocText, HasEpoch, Meta;
    DocsApart();
    var x := Preimage(e, v, TheHasher());
    assert x[64..] == DocText(Meta(e, v));
  }

  lemma TwoHashes()
    ensures OneHash() != ZeroHash()
  {
    assert OneHash()[0] == 1 && ZeroHash()[0] == 0;
  }

  /** The two versions of an entry never collide. */
  lemma NeverCollides(log: seq<Entry>)
    ensures VersionsDiffer(log, TheHasher())
  {
    var hr := TheHasher();
    TwoHashes();
    forall i | 0 <= i < |log| && hr.sha(Preimage(log[i], V1, hr)) == hr.sha(Preimage(log[i], V3, hr))
      ensures Preimage(log[i], V1, hr) == Preimage(log[i], V3, hr)
    {
      ShaOf(log[i], V1);
      ShaOf(log[i], V3);
      MetaEpoch(log[i]);
      VersionsAgree(log[i]);
    }
  }

  // ---------------------------------------------------------------- the library

  ghost function TheWorld(): World {
    World(TheHasher(), d => Reading(SigText, d), d => Reading(EntryText, d), (key, d, s) => s == d + d)
  }

  function TheEncoding(): Encoding {
    Encoding(EntryText, SigText, d => d + d)
  }

  lemma TextsFaithful()
    ensures Faithful(TheEncoding(), TheWorld())
  {
    hide DocText, EntryDoc, SigDoc;
    forall a, b | EntryText(a) == EntryText(b) ensures a == b { EntriesApart(a, b); }
    forall a, b | SigText(a) == SigText(b) ensures a == b { SigsApart(a, b); }
    forall e ensures TheWorld().decodeEntry(EntryText(e)) == Some(e) {
      ReadsBack(EntryText, e);
    }
    forall s ensures WellCut([], SigText(s)) && TheWorld().decodeSig(SigText(s)) == Some(s) {
      ReadsBack(SigText, s);
      LineLooks(DocText(SigDoc(s)));
    }
  }

  lemma LineLooks(d: Data)
    ensures LooksLikeSignatureLine([123, 34, 95] + d)
  {
    var line: Data := [123, 34, 95] + d;
    assert TrimBlanks(line) == line;
  }

  /** Everything that is asked of the library holds of this one, in every state in which no other key of the
      table has the signer's ID. */
  lemma LibraryReady(c: Ledger, tenant: string)
    requires Inv(c, TheHasher())
    requires forall r :: r in ChainOf(c, tenant).rows && r.keyId == c.p.keyId ==> r.publicKeyHex == c.p.publicKeyHex
    ensures Ready(c, tenant, TheEncoding(), TheWorld())
  {
    var w, enc, rows := TheWorld(), TheEncoding(), ChainOf(c, tenant).rows;
    DocsApart();
    TextsFaithful();
    NeverCollides(ChainOf(c, tenant).log);
    assert Injective(w.hasher.json) && w.hasher == TheHasher();
    assert Signs(ChainOf(c, tenant), c.p, enc, w) by {
      hide Inv, Injective, Faithful, VersionsDiffer, DecodeKey, ChainOf, DocText;
      assert forall k :: 0 <= k < |rows| ==> rows[k] in rows;
      assert forall d: Hash :: |enc.sign(d)| == 64;
    }
    hide Inv, Injective, Faithful, VersionsDiffer, Signs, TheHasher, TheWorld, TheEncoding;
  }

  /** So there are runs whose exports with epochs are accepted. */
  lemma AcceptedExportExists(home: string, keyId: string, pub: string, rotate: Event, req: Request)
    requires home != SYSTEM && DecodeKey(pub).Some?
    requires rotate.RotateKey? && rotate.req.action == ROTATION_ACTION && DecodeKey(rotate.publicKeyHex).Some?
    requires req.tenantId == home && req.action != MARKER_ACTION && req.action != ROTATION_ACTION
    ensures var c := After(Start(home, true, keyId, pub), [rotate, Record(req)], TheHasher());
            Accepts(Bundle(c, home, 2, 0, F2, TheHasher(), TheEncoding()), TheWorld())
  {
    var hr := TheHasher();
    var start := Start(home, true, keyId, pub);
    var evs := [rotate, Record(req)];
    var c := After(start, evs, hr);
    TwoAllowed(start, rotate, req, hr);
    AlwaysInv(home, true, keyId, pub, evs, hr);
    RotatedRows(home, keyId, pub, rotate, req, hr);
    hide After, Start, Inv, Ready, Accepts, Bundle, DecodeKey, AllAllowed;
    LibraryReady(c, home);
    assert TheWorld().hasher == hr;
    RenamedHomeAccepted(home, keyId, pub, rotate, req, TheEncoding(), TheWorld());
  }

  lemma TwoAllowed(c: Ledger, rotate: Event, req: Request, hr: Hasher)
    requires c.p.recordsEpochs
    requires rotate.RotateKey? && rotate.req.action == ROTATION_ACTION && DecodeKey(rotate.publicKeyHex).Some?
    requires req.action != MARKER_ACTION && req.action != ROTATION_ACTION
    ensures AllAllowed(c, [rotate, Record(req)], hr)
  {
    hide Next, DecodeKey;
    assert [rotate, Record(req)][1..] == [Record(req)];
    assert AllAllowed(Next(c, rotate, hr), [Record(req)], hr);
  }

  lemma RotatedRows(home: string, keyId: string, pub: string, rotate: Event, req: Request, hr: Hasher)
    requires home != SYSTEM && rotate.RotateKey? && req.tenantId == home
    ensures var c := After(Start(home, true, keyId, pub), [rotate, Record(req)], hr);
            && ChainOf(c, home).rows == [EpochRow(2, rotate.keyId, rotate.publicKeyHex)]
            && c.p.keyId == rotate.keyId && c.p.publicKeyHex == rotate.publicKeyHex
  {
    TwoEvents(Start(home, true, keyId, pub), rotate, Record(req), hr);
    hide After, NewEntry;
  }
}
