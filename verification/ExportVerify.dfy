/**
 cmd/rosshield-audit-verify/export_verify.go: the checks on one exported bundle, from its
 decompressed stream to the verdict.
 */
module ExportVerify {
  import opened Common
  import opened Bytes
  import opened Audit

  datatype EpochRow = EpochRow(epoch: int, keyId: string, publicKeyHex: string)

  /** The last line of a bundle. */
  datatype SigLine = SigLine(
    bundleVersion: string,
    chainKeyEpochs: seq<EpochRow>,
    fromSeq: int,
    transitionAt: int,
    keyId: string,
    publicKey: string,
    signedDigest: string,
    signature: string,
    toSeq: int)

  // ---------------------------------------------------------------- the stream

  datatype StreamError = EmptyStream | NoSignatureLine

  function TrimNewlines(s: Data): (r: Data)
    ensures r <= s
    ensures r == [] || r[|r| - 1] != NEWLINE
    decreases |s|
  {
    if s != [] && s[|s| - 1] == NEWLINE then TrimNewlines(s[..|s| - 1]) else s
  }

  /** Where the last line starts. */
  function LastLineStart(s: Data): (i: nat)
    ensures i <= |s|
    ensures NEWLINE !in s[i..]
    ensures i > 0 ==> s[i - 1] == NEWLINE
  {
    if s == [] || s[|s| - 1] == NEWLINE then |s|
    else
      var i := LastLineStart(s[..|s| - 1]);
      assert s[i..] == s[..|s| - 1][i..] + [s[|s| - 1]];
      i
  }

  function TrimBlanks(s: Data): (r: Data)
    ensures |r| <= |s|
  {
    if s != [] && (s[0] == 32 || s[0] == 9) then TrimBlanks(s[1..]) else s
  }

  /** The line, after blanks, starts with the three characters of an object whose first key starts with
      an underscore. */
  predicate LooksLikeSignatureLine(line: Data) {
    var t := TrimBlanks(line);
    |t| >= 3 && t[0] == 123 && t[1] == 34 && t[2] == 95
  }

  function SplitExportLines(ndjson: Data): Result<(Data, Data), StreamError> {
    var trimmed := TrimNewlines(ndjson);
    if trimmed == [] then Err(EmptyStream)
    else
      var start := LastLineStart(trimmed);
      if !LooksLikeSignatureLine(trimmed[start..]) then Err(NoSignatureLine)
      else Ok((ndjson[..start], trimmed[start..]))
  }

  // ---------------------------------------------------------------- epochs

  const V2_LABEL := "v2"
  const V3_LABEL := "v3"

  predicate HasEpochs(sig: SigLine) {
    sig.bundleVersion == V2_LABEL || sig.bundleVersion == V3_LABEL
  }

  datatype EpochError = BadKey | NoEpochs | BadEpoch(e: int) | DuplicateEpoch(e: int)

  /** decodeEd25519PublicHex: 32 bytes of hexadecimal text. */
  function DecodeKey(s: string): Option<Data> {
    match HexDecode(s)
    case None => None
    case Some(raw) => if |raw| == 32 then Some(raw) else None
  }

  /** The first n rows are fit to be entered: positive, distinct epochs with well-formed keys. */
  predicate RowsOk(rows: seq<EpochRow>, n: nat)
    requires n <= |rows|
  {
    && (forall i :: 0 <= i < n ==> rows[i].epoch > 0 && DecodeKey(rows[i].publicKeyHex).Some?)
    && (forall i, j :: 0 <= i < j < n ==> rows[i].epoch != rows[j].epoch)
  }

  /** Exactly the declared epochs, each with its key. */
  ghost predicate MapsRows(m: map<int, Data>, rows: seq<EpochRow>, n: nat)
    requires n <= |rows|
  {
    && (forall i :: 0 <= i < n ==> rows[i].epoch in m && DecodeKey(rows[i].publicKeyHex) == Some(m[rows[i].epoch]))
    && (forall e :: e in m ==> exists i :: 0 <= i < n && rows[i].epoch == e)
  }

  method BuildEpochMap(sig: SigLine) returns (r: Result<map<int, Data>, EpochError>)
    ensures !HasEpochs(sig) ==>
      && (r.Ok? <==> DecodeKey(sig.publicKey).Some?)
      && (r.Ok? ==> r.value == map[1 := DecodeKey(sig.publicKey).value])
    ensures HasEpochs(sig) ==>
      && (r.Ok? <==> sig.chainKeyEpochs != [] && RowsOk(sig.chainKeyEpochs, |sig.chainKeyEpochs|))
      && (r.Ok? ==> MapsRows(r.value, sig.chainKeyEpochs, |sig.chainKeyEpochs|))
  {
    hide DecodeKey;
    var out: map<int, Data> := map[];
    if !HasEpochs(sig) {
      var pub := DecodeKey(sig.publicKey);
      if pub.None? {
        return Err(BadKey);
      }
      return Ok(map[1 := pub.value]);
    }
    var rows := sig.chainKeyEpochs;
    if rows == [] {
      return Err(NoEpochs);
    }
    for i := 0 to |rows|
      invariant RowsOk(rows, i) && MapsRows(out, rows, i)
    {
      var ce := rows[i];
      if ce.epoch <= 0 {
        return Err(BadEpoch(ce.epoch));
      }
      if ce.epoch in out {
        return Err(DuplicateEpoch(ce.epoch));
      }
      var pub := DecodeKey(ce.publicKeyHex);
      if pub.None? {
        return Err(BadKey);
      }
      out := out[ce.epoch := pub.value];
    }
    r := Ok(out);
  }

  datatype LookupError = MissingEpochOne | MissingInMap(epoch: int) | UnknownKeyId

  /** The key of the first row whose key ID is the signature's. */
  function LookupRow(rows: seq<EpochRow>, keyId: string, m: map<int, Data>): Result<Data, LookupError> {
    if rows == [] then Err(UnknownKeyId)
    else if rows[0].keyId == keyId then
      if rows[0].epoch in m then Ok(m[rows[0].epoch]) else Err(MissingInMap(rows[0].epoch))
    else LookupRow(rows[1..], keyId, m)
  }

  function LookupSigningPublicKey(sig: SigLine, m: map<int, Data>): Result<Data, LookupError> {
    if !HasEpochs(sig) then (if 1 in m then Ok(m[1]) else Err(MissingEpochOne))
    else LookupRow(sig.chainKeyEpochs, sig.keyId, m)
  }

  // ---------------------------------------------------------------- the hash chain

  /** selectHashFunc: the code checks with version 1 whenever the transition is 0, also in a v3 bundle. */
  function SelectHash(useV3: bool, transitionAt: int, seqNo: int): HashVersion {
    if useV3 && transitionAt > 0 && seqNo > transitionAt then V3 else V1
  }

  predicate HashOk(e: Entry, useV3: bool, t: int, hr: Hasher) {
    EntryHash(e, SelectHash(useV3, t, e.seqNo), hr) == e.hash
  }

  predicate LinkOk(entries: seq<Entry>, i: nat)
    requires i < |entries|
  {
    i > 0 ==> entries[i - 1].hash == entries[i].prevHash
  }

  /** The first n entries hash to what they store and are linked. */
  predicate ChainOk(entries: seq<Entry>, n: nat, useV3: bool, t: int, hr: Hasher)
    requires n <= |entries|
  {
    forall i :: 0 <= i < n ==> HashOk(entries[i], useV3, t, hr) && LinkOk(entries, i)
  }

  datatype ChainError = HashMismatch(i: nat) | PrevMismatch(i: nat)

  /** nil when the chain holds, and otherwise the first entry that breaks it, its hash looked at before
      its link. */
  method VerifyHashChainForBundle(entries: seq<Entry>, sig: SigLine, hr: Hasher)
    returns (err: Option<ChainError>)
    ensures err.None? <==> ChainOk(entries, |entries|, sig.bundleVersion == V3_LABEL, sig.transitionAt, hr)
    ensures err.Some? ==>
      var useV3, t := sig.bundleVersion == V3_LABEL, sig.transitionAt;
      && err.value.i < |entries| && ChainOk(entries, err.value.i, useV3, t, hr)
      && (err.value.HashMismatch? <==> !HashOk(entries[err.value.i], useV3, t, hr))
      && (err.value.PrevMismatch? ==> !LinkOk(entries, err.value.i))
  {
    hide EntryHash, SelectHash;
    var useV3 := sig.bundleVersion == V3_LABEL;
    for i := 0 to |entries|
      invariant ChainOk(entries, i, useV3, sig.transitionAt, hr)
    {
      var e := entries[i];
      var recomputed := EntryHash(e, SelectHash(useV3, sig.transitionAt, e.seqNo), hr);
      if recomputed != e.hash {
        return Some(HashMismatch(i));
      }
      if i == 0 {
        continue;
      }
      if entries[i - 1].hash != e.prevHash {
        return Some(PrevMismatch(i));
      }
    }
    err := None;
  }

  // ---------------------------------------------------------------- the transition marker

  function Markers(entries: seq<Entry>, n: nat): seq<int>
    requires n <= |entries|
  {
    if n == 0 then []
    else Markers(entries, n - 1) + if entries[n - 1].action == MARKER_ACTION then [entries[n - 1].seqNo] else []
  }

  predicate MarkerOk(entries: seq<Entry>, t: int) {
    var found := Markers(entries, |entries|);
    (t == 0 ==> found == []) && (t > 0 ==> found == [t])
  }

  datatype MarkerError = UnannouncedMarker(seqNo: int) | NoMarker | ManyMarkers(n: nat) | WrongMarker(seqNo: int)

  method VerifyHashVersionTransitionMarker(entries: seq<Entry>, sig: SigLine)
    returns (err: Option<MarkerError>)
    ensures err.None? <==> MarkerOk(entries, sig.transitionAt)
  {
    var found: seq<int> := [];
    var foundSeq := 0;
    for i := 0 to |entries|
      invariant found == Markers(entries, i)
      invariant found != [] ==> foundSeq == found[|found| - 1]
    {
      if entries[i].action == MARKER_ACTION {
        found := found + [entries[i].seqNo];
        foundSeq := entries[i].seqNo;
      }
    }
    if sig.transitionAt == 0 && |found| > 0 {
      return Some(UnannouncedMarker(found[0]));
    }
    if sig.transitionAt > 0 && |found| == 0 {
      return Some(NoMarker);
    }
    if sig.transitionAt > 0 && |found| > 1 {
      return Some(ManyMarkers(|found|));
    }
    if sig.transitionAt > 0 && foundSeq != sig.transitionAt {
      return Some(WrongMarker(foundSeq));
    }
    err := None;
  }

  // ---------------------------------------------------------------- epoch transitions

  predicate IsRotation(e: Entry) {
    e.action == ROTATION_ACTION
  }

  predicate Declared(epoch: Option<int>, m: map<int, Data>) {
    epoch.Some? && epoch.value in m
  }

  /** A rotation entry has a declared epoch, and so has its predecessor, with a smaller number. */
  predicate RotationOk(entries: seq<Entry>, i: nat, m: map<int, Data>)
    requires i < |entries|
  {
    IsRotation(entries[i]) ==>
      && Declared(entries[i].keyEpoch, m)
      && (i > 0 ==>
          && Declared(entries[i - 1].keyEpoch, m)
          && entries[i].keyEpoch.value > entries[i - 1].keyEpoch.value)
  }

  predicate RotationsOk(entries: seq<Entry>, n: nat, m: map<int, Data>)
    requires n <= |entries|
  {
    forall i :: 0 <= i < n ==> RotationOk(entries, i, m)
  }

  function RotationCount(entries: seq<Entry>, n: nat): nat
    requires n <= |entries|
  {
    if n == 0 then 0 else RotationCount(entries, n - 1) + if IsRotation(entries[n - 1]) then 1 else 0
  }

  datatype RotationError = MissingEpoch(i: nat) | UndeclaredEpoch(i: nat) | MissingPrevEpoch(i: nat)
                         | UndeclaredPrevEpoch(i: nat) | NotIncreasing(i: nat)

  method VerifyEpochTransitions(entries: seq<Entry>, m: map<int, Data>)
    returns (r: Result<nat, RotationError>)
    ensures r.Ok? <==> RotationsOk(entries, |entries|, m)
    ensures r.Ok? ==> r.value == RotationCount(entries, |entries|)
    ensures r.Err? ==> r.error.i < |entries| && RotationsOk(entries, r.error.i, m)
                       && !RotationOk(entries, r.error.i, m)
  {
    var rotations: nat := 0;
    for i := 0 to |entries|
      invariant RotationsOk(entries, i, m) && rotations == RotationCount(entries, i)
    {
      var e := entries[i];
      ghost var fine := RotationOk(entries, i, m);
      if e.action != ROTATION_ACTION {
        continue;
      }
      if e.keyEpoch.None? {
        return Err(MissingEpoch(i));
      }
      if e.keyEpoch.value !in m {
        return Err(UndeclaredEpoch(i));
      }
      if i == 0 {
        rotations := rotations + 1;
        continue;
      }
      var prev := entries[i - 1];
      if prev.keyEpoch.None? {
        return Err(MissingPrevEpoch(i));
      }
      if prev.keyEpoch.value !in m {
        return Err(UndeclaredPrevEpoch(i));
      }
      if e.keyEpoch.value <= prev.keyEpoch.value {
        return Err(NotIncreasing(i));
      }
      rotations := rotations + 1;
    }
    r := Ok(rotations);
  }

  // ---------------------------------------------------------------- the whole bundle

  /** The library calls around the checks: hashing, JSON decoding, and Ed25519 verification of a
      signature over a digest. */
  datatype World = World(
    hasher: Hasher,
    decodeSig: Data -> Option<SigLine>,
    decodeEntry: Data -> Option<Entry>,
    verify: (Data, Hash, Data) -> bool)

  /** bytes.Split at newlines. */
  function LinesOf(s: Data): (lines: seq<Data>)
    ensures lines != []
  {
    if s == [] then [[]]
    else
      var rest := LinesOf(s[1..]);
      if s[0] == NEWLINE then [[]] + rest else [[s[0]] + rest[0]] + rest[1..]
  }

  /** parseExportEntries: every non-empty line is an entry. */
  function DecodeLines(lines: seq<Data>, decode: Data -> Option<Entry>): Option<seq<Entry>> {
    if lines == [] then Some([])
    else if lines[0] == [] then DecodeLines(lines[1..], decode)
    else match (decode(lines[0]), DecodeLines(lines[1..], decode))
      case (Some(e), Some(es)) => Some([e] + es)
      case _ => None
  }

  function ParseEntries(s: Data, decode: Data -> Option<Entry>): Option<seq<Entry>> {
    DecodeLines(LinesOf(TrimNewlines(s)), decode)
  }

  datatype Stage = Parse | Epochs | DigestRecompute | Signature | Chain | EpochTransition | HashVersionTransition

  datatype Verdict = Pass(entries: nat, rotations: nat) | Failed(stage: Stage)

  /** A signature line's own key signs the digest. */
  predicate SignatureOk(sig: SigLine, pub: Data, digest: Hash, w: World) {
    var raw := HexDecode(sig.signature);
    raw.Some? && |raw.value| == 64 && w.verify(pub, digest, raw.value)
  }

  method VerifyExportBundle(ndjson: Data, w: World) returns (v: Verdict)
    ensures v.Pass? <==> Accepts(ndjson, w)
  {
    var split := SplitExportLines(ndjson);
    if split.Err? {
      return Failed(Parse);
    }
    var (stream, sigLine) := split.value;
    var decoded := w.decodeSig(sigLine);
    if decoded.None? {
      return Failed(Parse);
    }
    v := VerifySigned(stream, decoded.value, w);
  }

  /** The checks after parsing, in their order. */
  method VerifySigned(stream: Data, sig: SigLine, w: World) returns (v: Verdict)
    ensures v.Pass? <==> exists m, entries :: SoundBundle(stream, sig, m, entries, w)
    ensures v.Pass? ==> Counts(v, stream, sig, w)
    ensures v.Failed? ==> Fails(v.stage, stream, sig, w)
  {
    hide HexEncode, EqualFold, SignatureOk, ChainOk, RotationsOk, MarkerOk;
    var epochs := BuildEpochMap(sig);
    if epochs.Err? {
      return Failed(Epochs);
    }
    OnlyCandidate(stream, sig, epochs.value, w);
    forall m | EpochMapOf(sig, m) ensures m == epochs.value {
      EpochMapUnique(sig, epochs.value, m);
    }
    var digest := w.hasher.sha(stream);
    if !EqualFold(HexEncode(digest), sig.signedDigest) {
      return Failed(DigestRecompute);
    }
    var pub := LookupSigningPublicKey(sig, epochs.value);
    if pub.Err? || !SignatureOk(sig, pub.value, digest, w) {
      return Failed(Signature);
    }
    var entries := ParseEntries(stream, w.decodeEntry);
    if entries.None? {
      return Failed(Chain);
    }
    var chain := VerifyHashChainForBundle(entries.value, sig, w.hasher);
    if chain.Some? {
      return Failed(Chain);
    }
    var rotations: nat := 0;
    if HasEpochs(sig) {
      var r := VerifyEpochTransitions(entries.value, epochs.value);
      if r.Err? {
        return Failed(EpochTransition);
      }
      rotations := r.value;
    }
    if sig.bundleVersion == V3_LABEL {
      var marker := VerifyHashVersionTransitionMarker(entries.value, sig);
      if marker.Some? {
        return Failed(HashVersionTransition);
      }
    }
    v := Pass(|entries.value|, rotations);
  }

  /** The numbers of a passing verdict are those of the entries. */
  predicate Counts(v: Verdict, stream: Data, sig: SigLine, w: World)
    requires v.Pass?
  {
    var entries := ParseEntries(stream, w.decodeEntry);
    && entries.Some? && v.entries == |entries.value|
    && v.rotations == if HasEpochs(sig) then RotationCount(entries.value, |entries.value|) else 0
  }

  /** The check that the stage names does not hold. */
  ghost predicate Fails(stage: Stage, stream: Data, sig: SigLine, w: World) {
    var parsed := ParseEntries(stream, w.decodeEntry);
    var digest := w.hasher.sha(stream);
    match stage
    case Parse => false
    case Epochs => forall m :: !EpochMapOf(sig, m)
    case DigestRecompute => !EqualFold(HexEncode(digest), sig.signedDigest)
    case Signature => forall m :: EpochMapOf(sig, m) ==>
        LookupSigningPublicKey(sig, m).Err? || !SignatureOk(sig, LookupSigningPublicKey(sig, m).value, digest, w)
    case Chain =>
      parsed.None? || !ChainOk(parsed.value, |parsed.value|, sig.bundleVersion == V3_LABEL, sig.transitionAt, w.hasher)
    case EpochTransition => parsed.Some? && HasEpochs(sig) &&
        forall m :: EpochMapOf(sig, m) ==> !RotationsOk(parsed.value, |parsed.value|, m)
    case HashVersionTransition =>
      parsed.Some? && sig.bundleVersion == V3_LABEL && !MarkerOk(parsed.value, sig.transitionAt)
  }

  /** The epoch map a signature line stands for. */
  ghost predicate EpochMapOf(sig: SigLine, m: map<int, Data>) {
    if HasEpochs(sig) then
      && sig.chainKeyEpochs != [] && RowsOk(sig.chainKeyEpochs, |sig.chainKeyEpochs|)
      && MapsRows(m, sig.chainKeyEpochs, |sig.chainKeyEpochs|)
    else DecodeKey(sig.publicKey).Some? && m == map[1 := DecodeKey(sig.publicKey).value]
  }

  /** What a bundle with this signature line over these entries must satisfy. */
  ghost predicate SoundBundle(stream: Data, sig: SigLine, m: map<int, Data>, entries: seq<Entry>, w: World) {
    && EpochMapOf(sig, m)
    && EqualFold(HexEncode(w.hasher.sha(stream)), sig.signedDigest)
    && LookupSigningPublicKey(sig, m).Ok?
    && SignatureOk(sig, LookupSigningPublicKey(sig, m).value, w.hasher.sha(stream), w)
    && ParseEntries(stream, w.decodeEntry) == Some(entries)
    && ChainOk(entries, |entries|, sig.bundleVersion == V3_LABEL, sig.transitionAt, w.hasher)
    && (HasEpochs(sig) ==> RotationsOk(entries, |entries|, m))
    && (sig.bundleVersion == V3_LABEL ==> MarkerOk(entries, sig.transitionAt))
  }

  ghost predicate Accepts(ndjson: Data, w: World) {
    && SplitExportLines(ndjson).Ok?
    && var (stream, sigLine) := SplitExportLines(ndjson).value;
    && w.decodeSig(sigLine).Some?
    && exists m, entries :: SoundBundle(stream, w.decodeSig(sigLine).value, m, entries, w)
  }

  /** A signature line stands for one epoch map at most, so there is one candidate to judge. */
  lemma OnlyCandidate(stream: Data, sig: SigLine, m: map<int, Data>, w: World)
    requires EpochMapOf(sig, m)
    ensures (exists m', entries :: SoundBundle(stream, sig, m', entries, w)) <==>
            && ParseEntries(stream, w.decodeEntry).Some?
            && SoundBundle(stream, sig, m, ParseEntries(stream, w.decodeEntry).value, w)
  {
    hide SoundBundle;
    if m', entries :| SoundBundle(stream, sig, m', entries, w) {
      SoundParts(stream, sig, m', entries, w);
      EpochMapUnique(sig, m, m');
    }
  }

  lemma SoundParts(stream: Data, sig: SigLine, m: map<int, Data>, entries: seq<Entry>, w: World)
    requires SoundBundle(stream, sig, m, entries, w)
    ensures EpochMapOf(sig, m) && ParseEntries(stream, w.decodeEntry) == Some(entries)
  {
  }

  lemma EpochMapUnique(sig: SigLine, m: map<int, Data>, m': map<int, Data>)
    requires EpochMapOf(sig, m) && EpochMapOf(sig, m')
    ensures m == m'
  {
    if HasEpochs(sig) {
      var rows := sig.chainKeyEpochs;
      forall e ensures e in m <==> e in m' {
        if e in m {
          var i :| 0 <= i < |rows| && rows[i].epoch == e;
        }
        if e in m' {
          var i :| 0 <= i < |rows| && rows[i].epoch == e;
        }
      }
      forall e | e in m ensures m[e] == m'[e] {
        var i :| 0 <= i < |rows| && rows[i].epoch == e;
        assert DecodeKey(rows[i].publicKeyHex) == Some(m[e]);
        assert DecodeKey(rows[i].publicKeyHex) == Some(m'[e]);
      }
    }
  }
}
