/** What an accepted bundle has to do with the keys it declares: it was signed with one of them, and unless a
    signature is forged its entries are ones that this key has signed. */
module ExportTrust {
  import opened Common
  import opened Bytes
  import opened Audit
  import opened ExportVerify
  import opened AuditHistory

  // ---------------------------------------------------------------- hexadecimal text

  lemma DigitBack(c: char)
    requires DigitValue(c).Some?
    ensures 0 <= DigitValue(c).value < 16 && FoldChar(HexDigit(DigitValue(c).value)) == FoldChar(c)
  {
  }

  /** What decodes to some bytes is their hexadecimal text up to letter case. */
  lemma {:induction false} HexBack(s: string, d: Data)
    requires HexDecode(s) == Some(d)
    ensures EqualFold(HexEncode(d), s)
    decreases |s|
  {
    if s != "" {
      DigitBack(s[0]);
      DigitBack(s[1]);
      HexBack(s[2..], d[1..]);
      HexCons(d);
      var t := HexEncode(d);
      assert t[2..] == HexEncode(d[1..]);
      forall i | 0 <= i < |s| ensures FoldChar(t[i]) == FoldChar(s[i]) {
        if i >= 2 {
          assert Fold(t[2..])[i - 2] == Fold(s[2..])[i - 2];
        }
      }
    }
  }

  lemma DigitsAlike(c: char, d: char)
    ensures FoldChar(c) == FoldChar(d) ==> DigitValue(c) == DigitValue(d)
  {
  }

  /** And the other way: any spelling of the hexadecimal text of some bytes decodes to them. */
  lemma {:induction false} HexForth(s: string, d: Data)
    requires EqualFold(HexEncode(d), s)
    ensures HexDecode(s) == Some(d)
    decreases |d|
  {
    var t := HexEncode(d);
    FoldAt(t, s);
    if d != [] {
      HexCons(d);
      var hi, lo := d[0] as int / 16, d[0] as int % 16;
      DigitRoundTrip(hi);
      DigitRoundTrip(lo);
      DigitsAlike(t[0], s[0]);
      DigitsAlike(t[1], s[1]);
      forall i | 0 <= i < |s| - 2 ensures FoldChar(t[2..][i]) == FoldChar(s[2..][i]) {
        assert t[2..][i] == t[i + 2] && s[2..][i] == s[i + 2];
      }
      assert Fold(HexEncode(d[1..])) == Fold(s[2..]);
      HexForth(s[2..], d[1..]);
      assert hi * 16 + lo == d[0] as int;
      assert [d[0]] + d[1..] == d;
    }
  }

  lemma FoldAt(t: string, s: string)
    requires EqualFold(t, s)
    ensures |t| == |s| && forall i :: 0 <= i < |s| ==> FoldChar(t[i]) == FoldChar(s[i])
  {
    assert |Fold(t)| == |t| && |Fold(s)| == |s|;
    assert forall i :: 0 <= i < |s| ==> Fold(t)[i] == FoldChar(t[i]) && Fold(s)[i] == FoldChar(s[i]);
  }

  /** A key is given by the 64 hexadecimal digits of 32 bytes, in either case. */
  lemma KeyMeans(s: string, key: Data)
    ensures DecodeKey(s) == Some(key) <==> |key| == 32 && EqualFold(HexEncode(key), s)
  {
    hide EqualFold, HexEncode, HexDecode;
    if EqualFold(HexEncode(key), s) {
      HexForth(s, key);
    }
    if HexDecode(s) == Some(key) {
      HexBack(s, key);
    }
  }

  lemma HexCons(d: Data)
    requires d != []
    ensures var t := HexEncode(d);
            && t[0] == HexDigit(d[0] as int / 16) && t[1] == HexDigit(d[0] as int % 16) && t[2..] == HexEncode(d[1..])
  {
  }

  // ---------------------------------------------------------------- the parts of a bundle

  /** The bundle is this stream, empty or ending in a newline, then this one line, which looks like a signature
      line, then newlines. */
  ghost predicate Joined(x: Data, stream: Data, line: Data) {
    && NEWLINE !in line && (stream == [] || stream[|stream| - 1] == NEWLINE) && LooksLikeSignatureLine(line)
    && exists k :: x == stream + line + Newlines(k)
  }

  /** The key with which a signature line says that it is signed: that of the first row with its key ID, or in
      the first format its own. */
  predicate SigningKey(sig: SigLine, key: Data) {
    && |key| == 32
    && if sig.bundleVersion == "v2" || sig.bundleVersion == "v3" then
         exists i :: 0 <= i < |sig.chainKeyEpochs| && FirstWithId(sig, i)
                     && EqualFold(HexEncode(key), sig.chainKeyEpochs[i].publicKeyHex)
       else EqualFold(HexEncode(key), sig.publicKey)
  }

  predicate FirstWithId(sig: SigLine, i: nat)
    requires i < |sig.chainKeyEpochs|
  {
    && sig.chainKeyEpochs[i].keyId == sig.keyId
    && forall j :: 0 <= j < i ==> sig.chainKeyEpochs[j].keyId != sig.keyId
  }

  // ---------------------------------------------------------------- accepted means signed

  lemma DecodedKey(s: string, key: Data)
    requires DecodeKey(s) == Some(key)
    ensures |key| == 32 && EqualFold(HexEncode(key), s)
  {
    HexBack(s, key);
  }

  lemma LookedUpKey(sig: SigLine, m: map<int, Data>)
    requires EpochMapOf(sig, m) && LookupSigningPublicKey(sig, m).Ok?
    ensures SigningKey(sig, LookupSigningPublicKey(sig, m).value)
  {
    hide EqualFold, HexEncode, DecodeKey;
    var key := LookupSigningPublicKey(sig, m).value;
    if HasEpochs(sig) {
      var rows := sig.chainKeyEpochs;
      LookupTotal(sig, m);
      var i := FirstRow(rows, sig.keyId);
      assert forall row :: row in rows ==> row.epoch in m;
      LookupFirst(rows, sig.keyId, m);
      DecodedKey(rows[i].publicKeyHex, key);
      assert FirstWithId(sig, i);
    } else {
      DecodedKey(sig.publicKey, key);
    }
  }

  lemma {:induction false} FirstRow(rows: seq<EpochRow>, keyId: string) returns (i: nat)
    requires exists row :: row in rows && row.keyId == keyId
    ensures i < |rows| && rows[i].keyId == keyId && forall j :: 0 <= j < i ==> rows[j].keyId != keyId
  {
    if rows[0].keyId == keyId {
      i := 0;
    } else {
      assert forall row :: row in rows ==> row == rows[0] || row in rows[1..];
      i := FirstRow(rows[1..], keyId);
      assert forall j :: 1 <= j < |rows| ==> rows[j] == rows[1..][j - 1];
      i := i + 1;
    }
  }

  /** An accepted bundle carries the digest of its stream, and 64 bytes that are a signature of that digest
      under the key it names. */
  lemma AcceptedSigned(x: Data, w: World) returns (stream: Data, line: Data, key: Data, signature: Data)
    requires Accepts(x, w)
    ensures Joined(x, stream, line) && w.decodeSig(line).Some?
    ensures var sig := w.decodeSig(line).value;
            && EqualFold(HexEncode(w.hasher.sha(stream)), sig.signedDigest)
            && SigningKey(sig, key)
            && |signature| == 64 && EqualFold(HexEncode(signature), sig.signature)
            && w.verify(key, w.hasher.sha(stream), signature)
  {
    hide EqualFold, HexEncode, SigningKey, EpochMapOf, LookupSigningPublicKey, ChainOk, RotationsOk, MarkerOk,
      ParseEntries, SplitExportLines, LooksLikeSignatureLine;
    var parts := SplitExportLines(x).value;
    stream, line := parts.0, parts.1;
    SplitExact(x, stream, line);
    var sig := w.decodeSig(line).value;
    var m, entries :| SoundBundle(stream, sig, m, entries, w);
    LookedUpKey(sig, m);
    key := LookupSigningPublicKey(sig, m).value;
    signature := HexDecode(sig.signature).value;
    HexBack(sig.signature, signature);
  }

  /** Everything that verifies for this bundle was signed: with each key it may name, under which a signature of
      its digest verifies, one of the streams that the key has signed has that digest. */
  ghost predicate Unforged(x: Data, signed: Data -> set<Data>, w: World) {
    forall stream, line, key, signature ::
      Joined(x, stream, line) && w.decodeSig(line).Some? && SigningKey(w.decodeSig(line).value, key)
      && |signature| == 64 && w.verify(key, w.hasher.sha(stream), signature) ==>
        exists s :: s in signed(key) && w.hasher.sha(s) == w.hasher.sha(stream)
  }

  /** No other stream of the bundle has the digest of one that was signed. */
  ghost predicate Distinguished(x: Data, signed: Data -> set<Data>, w: World) {
    forall stream, line, key, s ::
      Joined(x, stream, line) && s in signed(key) && w.hasher.sha(s) == w.hasher.sha(stream) ==> s == stream
  }

  /** Unless a signature is forged or two streams collide, the stream of an accepted bundle is one that the key
      it names has signed, byte for byte. */
  lemma AcceptedWasSigned(x: Data, signed: Data -> set<Data>, w: World)
    returns (stream: Data, line: Data, key: Data)
    requires Accepts(x, w) && Unforged(x, signed, w) && Distinguished(x, signed, w)
    ensures Joined(x, stream, line) && w.decodeSig(line).Some? && SigningKey(w.decodeSig(line).value, key)
    ensures stream in signed(key)
  {
    hide Accepts, Joined, SigningKey, EqualFold, HexEncode;
    var signature;
    stream, line, key, signature := AcceptedSigned(x, w);
    var s :| s in signed(key) && w.hasher.sha(s) == w.hasher.sha(stream);
    assert s == stream;
  }

  /** What this asks can be had: a bundle has one stream, and it is enough that the keys have signed it. */
  lemma SignedAsItIs(x: Data, w: World) returns (signed: Data -> set<Data>)
    requires Accepts(x, w)
    ensures Unforged(x, signed, w) && Distinguished(x, signed, w)
  {
    var stream, line := AcceptedParts(x, w);
    signed := key => {stream};
    hide Accepts, Joined, SigningKey;
    forall stream', line' | Joined(x, stream', line') ensures stream' == stream {
      OneStream(x, stream, line, stream', line');
    }
  }

  lemma AcceptedParts(x: Data, w: World) returns (stream: Data, line: Data)
    requires Accepts(x, w)
    ensures Joined(x, stream, line)
  {
    hide Accepts, Joined, SigningKey, EqualFold, HexEncode;
    var key, signature;
    stream, line, key, signature := AcceptedSigned(x, w);
  }

  lemma OneStream(x: Data, stream: Data, line: Data, stream': Data, line': Data)
    requires Joined(x, stream, line) && Joined(x, stream', line')
    ensures stream == stream'
  {
    hide SplitExportLines, LooksLikeSignatureLine;
    SplitExact(x, stream, line);
    SplitExact(x, stream', line');
  }
}
