/** Which exports of the chains that can arise the offline verifier accepts: an exact condition on the
    range, on the key table, and on how the entries came about. */
module AuditExport {
  import opened Common
  import opened Bytes
  import opened Audit
  import opened ExportVerify
  import opened AuditHistory
  import opened AuditWriter

  // ---------------------------------------------------------------- what is exported

  /** The entries of a range: from the first number, or from 1 if it is not positive, to the last number, or to the
      end if it is not positive or before the first. */
  lemma RangeMeans(ch: TenantChain, fromSeq: int, toSeq: int, hr: Hasher)
    requires ChainInv(ch, hr)
    ensures var first := if fromSeq >= 1 then fromSeq else 1;
            var sel := Selected(ch.log, Low(fromSeq), High(ch.log, fromSeq, toSeq));
            && (forall i :: 0 <= i < |sel| ==> sel[i].seqNo == first + i)
            && (forall e :: e in sel <==>
                  e in ch.log && first <= e.seqNo && (e.seqNo <= toSeq || toSeq < 1 || toSeq < first))
  {
    var lo, hi := Low(fromSeq), High(ch.log, fromSeq, toSeq);
    Numbered(ch, hr);
    hide ChainInv;
    SelectedMeans(ch.log, lo, hi);
    hide Selected;
  }

  lemma Numbered(ch: TenantChain, hr: Hasher)
    requires ChainInv(ch, hr)
    ensures forall i :: 0 <= i < |ch.log| ==> ch.log[i].seqNo == i + 1
  {
    hide HashedAs, IsMarker;
    forall i | 0 <= i < |ch.log| ensures ch.log[i].seqNo == i + 1 {
      assert Linked(ch.log, i);
    }
  }

  lemma SelectedMeans(log: seq<Entry>, lo: int, hi: int)
    requires lo >= 1 && forall i :: 0 <= i < |log| ==> log[i].seqNo == i + 1
    ensures var sel := Selected(log, lo, hi);
            && (forall i :: 0 <= i < |sel| ==> sel[i].seqNo == lo + i)
            && (forall e :: e in sel <==> e in log && lo <= e.seqNo <= hi)
    ensures forall e :: e in log ==> e.seqNo <= |log|
  {
    var sel := Selected(log, lo, hi);
    forall i | 0 <= i < |sel| ensures sel[i] in log && sel[i].seqNo == lo + i && lo + i <= hi {
      SelectedAt(log, lo, hi, i);
    }
    forall e | e in log && lo <= e.seqNo <= hi ensures e in sel {
      var k :| 0 <= k < |log| && log[k] == e;
      assert sel[k - (lo - 1)] == e;
    }
  }

  /** Only the third format carries the leader's epoch; everything else is written out as it is. */
  lemma WireMeans(e: Entry)
    ensures Wire(e, F3) == e
    ensures forall f :: f != F3 ==> Wire(e, f) == e.(leaderEpoch := None)
  {
  }

  /** What the signature line says of the range, the key and the table. */
  lemma LineMeans(ch: TenantChain, p: Process, lo: int, hi: int, f: Format, stream: Data, hr: Hasher, enc: Encoding)
    ensures var sig := SignatureOf(ch, p, lo, hi, f, stream, hr, enc);
            && sig.fromSeq == lo && sig.toSeq == hi && sig.keyId == p.keyId && sig.publicKey == p.publicKeyHex
            && sig.bundleVersion == (match f case F1 => "" case F2 => "v2" case F3 => "v3")
            && sig.chainKeyEpochs == (if f == F1 then [] else ch.rows)
            && sig.signedDigest == HexEncode(hr.sha(stream)) && sig.signature == HexEncode(enc.sign(hr.sha(stream)))
  {
    hide AnnouncedTransition, HexEncode;
  }

  // ---------------------------------------------------------------- the conditions

  predicate NoEpochs(e: Entry) {
    e.keyEpoch.None? && e.leaderEpoch.None?
  }

  /** Every entry with an epoch was written with the hash version that the verifier takes for it. */
  predicate HashesFit(ch: TenantChain, lo: int, hi: int, f: Format, announced: int)
    requires lo >= 1 && |ch.origins| == |ch.log|
  {
    forall i :: 0 <= i < |Selected(ch.log, lo, hi)| && !NoEpochs(Selected(ch.log, lo, hi)[i]) ==>
      ch.origins[lo - 1 + i].version == SelectHash(f == F3, announced, lo + i)
  }

  /** The number announced is that of the chain's own marker, if that is in the range. */
  predicate MarkerFits(ch: TenantChain, lo: int, hi: int, announced: int) {
    announced == if lo <= MarkerSeq(ch.log) <= hi then MarkerSeq(ch.log) else 0
  }

  /** The tenant is not the one that has the migration's row, and the signing key is in its table. */
  predicate KeysFit(tenant: string, ch: TenantChain, p: Process) {
    tenant != SYSTEM && exists k :: 0 <= k < |ch.rows| && ch.rows[k].keyId == p.keyId
  }

  /** A rotation in the range is not the first of its server start and, unless it is the first entry, it
      directly follows another rotation of that start, which is not the first either. */
  predicate RotationFitsAt(ch: TenantChain, lo: int, hi: int, i: nat)
    requires lo >= 1 && |ch.origins| == |ch.log| && i < |Selected(ch.log, lo, hi)|
  {
    var sel := Selected(ch.log, lo, hi);
    IsRotation(sel[i]) ==>
      && sel[i].keyEpoch != Some(1)
      && (i > 0 ==> IsRotation(sel[i - 1]) && sel[i - 1].keyEpoch != Some(1) && SameBoot(ch, lo - 1 + i))
  }

  predicate RotationsFit(ch: TenantChain, lo: int, hi: int)
    requires lo >= 1 && |ch.origins| == |ch.log|
  {
    forall i :: 0 <= i < |Selected(ch.log, lo, hi)| ==> RotationFitsAt(ch, lo, hi, i)
  }

  // ---------------------------------------------------------------- the hash chain

  /** The two hash versions of one entry do not collide. */
  ghost predicate VersionsDiffer(log: seq<Entry>, hr: Hasher) {
    forall i :: 0 <= i < |log| ==>
      hr.sha(Preimage(log[i], V1, hr)) == hr.sha(Preimage(log[i], V3, hr)) ==>
        Preimage(log[i], V1, hr) == Preimage(log[i], V3, hr)
  }

  lemma SelectedAt(log: seq<Entry>, lo: int, hi: int, i: nat)
    requires lo >= 1 && i < |Selected(log, lo, hi)|
    ensures lo - 1 + i < |log| && Selected(log, lo, hi)[i] == log[lo - 1 + i]
    ensures lo + i <= hi
  {
  }

  lemma WireHash(e: Entry, f: Format, v: HashVersion, hr: Hasher)
    requires f == F3 || v == V1
    ensures EntryHash(Wire(e, f), v, hr) == EntryHash(e, v, hr)
  {
    var w := Wire(e, f);
    assert HeadDoc(w) == HeadDoc(e) && TailDoc(w) == TailDoc(e);
  }

  lemma VersionOneHash(e: Entry, hr: Hasher)
    requires Injective(hr.json)
    requires hr.sha(Preimage(e, V1, hr)) == hr.sha(Preimage(e, V3, hr)) ==>
               Preimage(e, V1, hr) == Preimage(e, V3, hr)
    ensures EntryHash(e, V1, hr) == EntryHash(e, V3, hr) <==> NoEpochs(e)
  {
    VersionsAgree(e);
    if EntryHash(e, V1, hr) == EntryHash(e, V3, hr) {
      PreimageTells(e, V1, e, V3, hr);
    }
  }

  /** An exported entry passes the hash check exactly when it has no epoch or the versions agree. */
  lemma EntryChecks(ch: TenantChain, k: nat, f: Format, t: int, hr: Hasher)
    requires ChainInv(ch, hr) && Injective(hr.json) && VersionsDiffer(ch.log, hr) && k < |ch.log|
    ensures var e := ch.log[k];
            HashOk(Wire(e, f), f == F3, t, hr) <==>
            (!NoEpochs(e) ==> ch.origins[k].version == SelectHash(f == F3, t, k + 1))
  {
    var e := ch.log[k];
    var v := ch.origins[k].version;
    assert Linked(ch.log, k) && HashedAs(e, v, hr);
    hide EntryHash, Linked, Preimage;
    var u := SelectHash(f == F3, t, e.seqNo);
    WireHash(e, f, u, hr);
    if u != v {
      VersionDiffersAt(ch.log, k, hr);
      VersionOneHash(e, hr);
    }
  }

  lemma VersionDiffersAt(log: seq<Entry>, k: nat, hr: Hasher)
    requires VersionsDiffer(log, hr) && k < |log|
    ensures hr.sha(Preimage(log[k], V1, hr)) == hr.sha(Preimage(log[k], V3, hr)) ==>
              Preimage(log[k], V1, hr) == Preimage(log[k], V3, hr)
  {
    hide Preimage;
  }

  lemma LinkedPair(ch: TenantChain, k: nat, hr: Hasher)
    requires ChainInv(ch, hr) && 0 < k < |ch.log|
    ensures ch.log[k].prevHash == ch.log[k - 1].hash
  {
    assert Linked(ch.log, k);
    hide ChainInv;
    assert ch.log[..k][|ch.log[..k]| - 1] == ch.log[k - 1];
  }

  lemma WireLinks(ch: TenantChain, lo: int, hi: int, f: Format, i: nat, hr: Hasher)
    requires ChainInv(ch, hr) && lo >= 1 && i < |Selected(ch.log, lo, hi)|
    ensures LinkOk(WireAll(Selected(ch.log, lo, hi), f), i)
  {
    hide ChainInv, Selected;
    if i > 0 {
      SelectedAt(ch.log, lo, hi, i);
      SelectedAt(ch.log, lo, hi, i - 1);
      LinkedPair(ch, lo - 1 + i, hr);
    }
  }

  /** The chain check on an export. */
  lemma ExportedChain(ch: TenantChain, lo: int, hi: int, f: Format, t: int, hr: Hasher)
    requires ChainInv(ch, hr) && Injective(hr.json) && VersionsDiffer(ch.log, hr) && lo >= 1
    ensures var es := WireAll(Selected(ch.log, lo, hi), f);
            ChainOk(es, |es|, f == F3, t, hr) <==> HashesFit(ch, lo, hi, f, t)
  {
    hide Linked, HashedAs, HashOk, LinkOk, Selected, NoEpochs, Injective, VersionsDiffer, SelectHash;
    var sel := Selected(ch.log, lo, hi);
    var es := WireAll(sel, f);
    forall i | 0 <= i < |es|
      ensures LinkOk(es, i)
      ensures lo - 1 + i < |ch.log|
      ensures HashOk(es[i], f == F3, t, hr) <==>
              (!NoEpochs(sel[i]) ==> ch.origins[lo - 1 + i].version == SelectHash(f == F3, t, lo + i))
    {
      WireLinks(ch, lo, hi, f, i, hr);
      SelectedAt(ch.log, lo, hi, i);
      EntryChecks(ch, lo - 1 + i, f, t, hr);
    }
    if HashesFit(ch, lo, hi, f, t) {
      forall i | 0 <= i < |es| ensures HashOk(es[i], f == F3, t, hr) {
      }
    }
    if ChainOk(es, |es|, f == F3, t, hr) {
      forall i | 0 <= i < |sel| && !NoEpochs(sel[i])
        ensures ch.origins[lo - 1 + i].version == SelectHash(f == F3, t, lo + i)
      {
        assert HashOk(es[i], f == F3, t, hr);
      }
    }
  }

  // ---------------------------------------------------------------- the marker

  lemma SelectedMarker(ch: TenantChain, lo: int, hi: int, i: nat, hr: Hasher)
    requires ChainInv(ch, hr) && lo >= 1 && i < |Selected(ch.log, lo, hi)|
    ensures var e := WireAll(Selected(ch.log, lo, hi), F3)[i];
            e.seqNo == lo + i && (IsMarker(e) <==> MarkerSeq(ch.log) == lo + i)
  {
    SelectedAt(ch.log, lo, hi, i);
    assert Linked(ch.log, lo - 1 + i);
    hide Selected, HashedAs, MarkerSeq;
    MarkerHere(ch, lo - 1 + i, hr);
  }

  /** The markers among the first n selected entries. */
  lemma {:induction false} SelectedMarkers(ch: TenantChain, lo: int, hi: int, n: nat, hr: Hasher)
    requires ChainInv(ch, hr) && lo >= 1 && n <= |Selected(ch.log, lo, hi)|
    ensures Markers(WireAll(Selected(ch.log, lo, hi), F3), n)
            == if lo <= MarkerSeq(ch.log) < lo + n then [MarkerSeq(ch.log)] else []
    decreases n
  {
    hide Selected, ChainInv, MarkerSeq, Markers, Wire;
    var es := WireAll(Selected(ch.log, lo, hi), F3);
    MarkersStep(es, n);
    if n > 0 {
      SelectedMarkers(ch, lo, hi, n - 1, hr);
      SelectedMarker(ch, lo, hi, n - 1, hr);
    }
  }

  lemma MarkersStep(es: seq<Entry>, n: nat)
    requires n <= |es|
    ensures Markers(es, n) == if n == 0 then []
                              else Markers(es, n - 1) + if IsMarker(es[n - 1]) then [es[n - 1].seqNo] else []
  {
  }

  lemma MarkerHere(ch: TenantChain, k: nat, hr: Hasher)
    requires ChainInv(ch, hr) && k < |ch.log|
    ensures IsMarker(ch.log[k]) <==> MarkerSeq(ch.log) == k + 1
  {
    hide Linked, HashedAs;
    var m := MarkerSeq(ch.log);
    assert m > 0 ==> IsMarker(ch.log[m - 1]);
  }

  /** The marker check on an export: it passes exactly when the announced number is the chain's own. */
  lemma ExportedMarker(ch: TenantChain, p: Process, lo: int, hi: int, hr: Hasher)
    requires ChainInv(ch, hr) && lo >= 1
    ensures var t := AnnouncedTransition(ch, p, lo, hi, F3);
            t >= 0 ==> (MarkerOk(WireAll(Selected(ch.log, lo, hi), F3), t) <==> MarkerFits(ch, lo, hi, t))
  {
    var n := |Selected(ch.log, lo, hi)|;
    SelectedMarkers(ch, lo, hi, n, hr);
    SelectedReach(ch.log, lo, hi, MarkerSeq(ch.log));
    hide ChainInv, Selected, Markers, MarkerSeq, AnnouncedTransition;
  }

  /** A number of the chain is in the range exactly when its entry is selected. */
  lemma SelectedReach(log: seq<Entry>, lo: int, hi: int, k: nat)
    requires lo >= 1 && k <= |log|
    ensures lo <= k <= hi <==> lo <= k < lo + |Selected(log, lo, hi)|
  {
  }

  /** For the system tenant itself the announced number is always right. */
  lemma HomeMarkerFits(c: Ledger, lo: int, hi: int, hr: Hasher)
    requires Inv(c, hr)
    ensures var ch := ChainOf(c, c.p.home); MarkerFits(ch, lo, hi, AnnouncedTransition(ch, c.p, lo, hi, F3))
  {
    hide ChainsInv, DecodeKey, MarkerSeq, Listed;
  }

  // ---------------------------------------------------------------- rotations

  /** In a table without the migration's row, an epoch of a rotation is declared exactly when it is not 1. */
  lemma RotationDeclared(tenant: string, ch: TenantChain, i: nat, m: map<int, Data>)
    requires |ch.origins| == |ch.log| && EpochInv(ch) && i < |ch.log| && IsRotation(ch.log[i])
    requires tenant != SYSTEM && RowsInv(tenant, ch.rows) && MapsRows(m, ch.rows, |ch.rows|)
    ensures Declared(ch.log[i].keyEpoch, m) <==> ch.log[i].keyEpoch != Some(1)
  {
    hide DecodeKey, SameBoot;
    assert RotationStep(ch, i);
  }

  /** The check on two neighbours of which the second is a rotation. */
  lemma NeighboursCheck(tenant: string, ch: TenantChain, k: nat, m: map<int, Data>)
    requires |ch.origins| == |ch.log| && EpochInv(ch) && 0 < k < |ch.log| && IsRotation(ch.log[k])
    requires tenant != SYSTEM && RowsInv(tenant, ch.rows) && MapsRows(m, ch.rows, |ch.rows|)
    ensures RotationOk(ch.log[k - 1..k + 1], 1, m) <==>
            && ch.log[k].keyEpoch != Some(1)
            && IsRotation(ch.log[k - 1]) && ch.log[k - 1].keyEpoch != Some(1) && SameBoot(ch, k)
  {
    hide RowsInv, MapsRows, SameBoot, Listed;
    var two := ch.log[k - 1..k + 1];
    assert two[0] == ch.log[k - 1] && two[1] == ch.log[k];
    assert RotationStep(ch, k);
    RotationDeclared(tenant, ch, k, m);
    if IsRotation(ch.log[k - 1]) {
      assert RotationStep(ch, k - 1);
      RotationDeclared(tenant, ch, k - 1, m);
    }
    hide Declared;
    if RotationOk(two, 1, m) {
      DeclaredSome(ch.log[k - 1].keyEpoch, m);
    }
  }

  lemma DeclaredSome(epoch: Option<int>, m: map<int, Data>)
    requires Declared(epoch, m)
    ensures epoch.Some?
  {
  }

  /** The check looks at epochs and actions only, which every format carries. */
  lemma SameChecks(es: seq<Entry>, i: nat, log: seq<Entry>, k: nat, f: Format, m: map<int, Data>)
    requires i < |es| && i <= k < |log| && es[i] == Wire(log[k], f)
    requires i > 0 ==> es[i - 1] == Wire(log[k - 1], f)
    ensures i > 0 ==> (RotationOk(es, i, m) <==> RotationOk(log[k - 1..k + 1], 1, m))
    ensures i == 0 ==> (RotationOk(es, i, m) <==> (IsRotation(log[k]) ==> Declared(log[k].keyEpoch, m)))
  {
  }

  lemma RotationChecks(tenant: string, ch: TenantChain, lo: int, hi: int, f: Format, i: nat, m: map<int, Data>)
    requires |ch.origins| == |ch.log| && EpochInv(ch) && lo >= 1 && i < |Selected(ch.log, lo, hi)|
    requires tenant != SYSTEM && RowsInv(tenant, ch.rows) && MapsRows(m, ch.rows, |ch.rows|)
    ensures RotationOk(WireAll(Selected(ch.log, lo, hi), f), i, m) <==> RotationFitsAt(ch, lo, hi, i)
  {
    hide Selected, Wire, RotationOk, RowsInv, MapsRows, Declared, EpochInv, SameBoot;
    var k := lo - 1 + i;
    SelectedAt(ch.log, lo, hi, i);
    if i > 0 {
      SelectedAt(ch.log, lo, hi, i - 1);
    }
    SameChecks(WireAll(Selected(ch.log, lo, hi), f), i, ch.log, k, f, m);
    if IsRotation(ch.log[k]) {
      RotationDeclared(tenant, ch, k, m);
      if i > 0 {
        NeighboursCheck(tenant, ch, k, m);
      }
    } else if i > 0 {
      NoRotationHere(ch.log, k, m);
    }
  }

  lemma NoRotationHere(log: seq<Entry>, k: nat, m: map<int, Data>)
    requires 0 < k < |log| && !IsRotation(log[k])
    ensures RotationOk(log[k - 1..k + 1], 1, m)
  {
  }

  /** The epoch check on an export, under a table that can be entered. */
  lemma ExportedRotations(tenant: string, ch: TenantChain, lo: int, hi: int, f: Format, m: map<int, Data>)
    requires |ch.origins| == |ch.log| && EpochInv(ch) && lo >= 1
    requires tenant != SYSTEM && RowsInv(tenant, ch.rows) && MapsRows(m, ch.rows, |ch.rows|)
    ensures var sel := Selected(ch.log, lo, hi);
            RotationsOk(WireAll(sel, f), |sel|, m) <==> RotationsFit(ch, lo, hi)
  {
    hide EpochInv, Selected, RowsInv, MapsRows, RotationOk, RotationFitsAt;
    var sel := Selected(ch.log, lo, hi);
    var es := WireAll(sel, f);
    forall i | 0 <= i < |sel| ensures RotationOk(es, i, m) <==> RotationFitsAt(ch, lo, hi, i) {
      RotationChecks(tenant, ch, lo, hi, f, i, m);
    }
  }

  // ---------------------------------------------------------------- the stream

  /** Encoded lines decode to what was encoded; an entry line is not empty and has no newline, and a
      signature line looks like one. */
  ghost predicate Faithful(enc: Encoding, w: World) {
    && (forall e :: enc.entry(e) != [] && NEWLINE !in enc.entry(e) && w.decodeEntry(enc.entry(e)) == Some(e))
    && (forall s :: WellCut([], enc.sigLine(s)) && w.decodeSig(enc.sigLine(s)) == Some(s))
  }

  /** A stream of entry lines ends in a newline unless it is empty; without it, its lines decode to the
      entries. */
  lemma {:induction false} StreamDecodes(es: seq<Entry>, enc: Encoding, w: World)
    requires Faithful(enc, w) && es != []
    ensures var s := Stream(es, enc);
            && s != [] && s[|s| - 1] == NEWLINE
            && (s[..|s| - 1] == [] || s[|s| - 2] != NEWLINE)
            && DecodeLines(LinesOf(s[..|s| - 1]), w.decodeEntry) == Some(es)
    decreases |es|
  {
    var line := enc.entry(es[0]);
    var s := Stream(es, enc);
    assert line[|line| - 1] in line;
    if |es| == 1 {
      assert Stream(es[1..], enc) == [];
      assert s == line + [NEWLINE];
      assert s[..|s| - 1] == line;
      OneLine(line);
      DecodeOne(line, es[0], w);
      assert es == [es[0]];
    } else {
      var rest := Stream(es[1..], enc);
      StreamDecodes(es[1..], enc, w);
      assert s == line + [NEWLINE] + rest;
      assert s[..|s| - 1] == line + [NEWLINE] + rest[..|rest| - 1];
      LinesCons(line, rest[..|rest| - 1]);
      DecodeCons(line, es[0], LinesOf(rest[..|rest| - 1]), es[1..], w);
      assert [es[0]] + es[1..] == es;
    }
  }

  lemma DecodeOne(line: Data, e: Entry, w: World)
    requires line != [] && w.decodeEntry(line) == Some(e)
    ensures DecodeLines([line], w.decodeEntry) == Some([e])
  {
    assert [line][1..] == [];
    assert DecodeLines([], w.decodeEntry) == Some([]);
    assert [e] + [] == [e];
  }

  lemma DecodeCons(line: Data, e: Entry, lines: seq<Data>, es: seq<Entry>, w: World)
    requires line != [] && w.decodeEntry(line) == Some(e)
    requires DecodeLines(lines, w.decodeEntry) == Some(es)
    ensures DecodeLines([line] + lines, w.decodeEntry) == Some([e] + es)
  {
    assert ([line] + lines)[1..] == lines;
  }

  lemma StreamParses(es: seq<Entry>, enc: Encoding, w: World)
    requires Faithful(enc, w)
    ensures ParseEntries(Stream(es, enc), w.decodeEntry) == Some(es)
    ensures Stream(es, enc) == [] || Stream(es, enc)[|Stream(es, enc)| - 1] == NEWLINE
  {
    var s := Stream(es, enc);
    if es == [] {
      assert DecodeLines([[]], w.decodeEntry) == DecodeLines([[]][1..], w.decodeEntry);
    } else {
      StreamDecodes(es, enc, w);
      var t := s[..|s| - 1];
      assert TrimNewlines(s) == TrimNewlines(t);
      assert TrimNewlines(t) == t;
    }
  }

  // ---------------------------------------------------------------- the whole bundle

  /** The exporter's signatures are those of its key, and no key of the table shares its ID. */
  ghost predicate Signs(ch: TenantChain, p: Process, enc: Encoding, w: World) {
    && (forall d: Hash :: |enc.sign(d)| == 64 &&
         (DecodeKey(p.publicKeyHex).Some? ==> w.verify(DecodeKey(p.publicKeyHex).value, d, enc.sign(d))))
    && (forall k :: 0 <= k < |ch.rows| && ch.rows[k].keyId == p.keyId ==> ch.rows[k].publicKeyHex == p.publicKeyHex)
  }

  lemma BootstrapRowRefused()
    ensures DecodeKey(BOOTSTRAP_ROW.publicKeyHex).None?
  {
    var s := "__bootstrap__";
    assert DigitValue(s[0]) == None;
  }

  /** The table of the tenant that has the migration's row cannot be entered. */
  lemma SystemTableRefused(rows: seq<EpochRow>)
    requires RowsInv(SYSTEM, rows)
    ensures !RowsOk(rows, |rows|)
  {
    BootstrapRowRefused();
    hide DecodeKey;
    assert rows[0] == BOOTSTRAP_ROW;
  }

  /** Any other table that is not empty can. */
  lemma TableEntered(tenant: string, rows: seq<EpochRow>) returns (m: map<int, Data>)
    requires tenant != SYSTEM && RowsInv(tenant, rows)
    ensures RowsOk(rows, |rows|) && MapsRows(m, rows, |rows|)
  {
    hide DecodeKey;
    m := MapOf(rows, |rows|);
  }

  lemma {:induction false} MapOf(rows: seq<EpochRow>, n: nat) returns (m: map<int, Data>)
    requires n <= |rows| && RowsOk(rows, |rows|)
    ensures MapsRows(m, rows, n)
  {
    hide DecodeKey;
    if n == 0 {
      m := map[];
    } else {
      var before := MapOf(rows, n - 1);
      var row := rows[n - 1];
      m := before[row.epoch := DecodeKey(row.publicKeyHex).value];
      forall e | e in m ensures exists i :: 0 <= i < n && rows[i].epoch == e {
        if e == row.epoch {
          assert rows[n - 1].epoch == e;
        }
      }
    }
  }

  /** Looking up a key whose rows all have one public key gives that key. */
  lemma {:induction false} LookupGives(rows: seq<EpochRow>, keyId: string, pub: Data, m: map<int, Data>)
    requires forall i :: 0 <= i < |rows| ==>
               rows[i].epoch in m && DecodeKey(rows[i].publicKeyHex) == Some(m[rows[i].epoch])
    requires forall i :: 0 <= i < |rows| && rows[i].keyId == keyId ==> DecodeKey(rows[i].publicKeyHex) == Some(pub)
    ensures (exists k :: 0 <= k < |rows| && rows[k].keyId == keyId) ==> LookupRow(rows, keyId, m) == Ok(pub)
    ensures !(exists k :: 0 <= k < |rows| && rows[k].keyId == keyId) ==> LookupRow(rows, keyId, m) == Err(UnknownKeyId)
  {
    hide DecodeKey;
    if rows != [] && rows[0].keyId != keyId {
      assert forall i :: 0 <= i < |rows[1..]| ==> rows[1..][i] == rows[i + 1];
      LookupGives(rows[1..], keyId, pub, m);
      assert forall i :: 1 <= i < |rows| ==> rows[i] == rows[1..][i - 1];
    }
  }

  lemma SelfFold(s: string)
    ensures EqualFold(s, s)
  {
  }

  /** The signature line of an export in the first format. */
  lemma OldSignature(ch: TenantChain, p: Process, lo: int, hi: int, stream: Data, enc: Encoding, w: World)
    returns (m: map<int, Data>)
    requires DecodeKey(p.publicKeyHex).Some? && Signs(ch, p, enc, w)
    ensures var sig := SignatureOf(ch, p, lo, hi, F1, stream, w.hasher, enc);
            && EpochMapOf(sig, m) && SignedRight(sig, m, stream, w)
  {
    hide DecodeKey, HexEncode, HexDecode, EqualFold;
    m := map[1 := DecodeKey(p.publicKeyHex).value];
    var digest := w.hasher.sha(stream);
    HexRoundTrip(enc.sign(digest));
    SelfFold(HexEncode(digest));
  }

  /** The digest and the signature of the line are right. */
  ghost predicate SignedRight(sig: SigLine, m: map<int, Data>, stream: Data, w: World) {
    && EqualFold(HexEncode(w.hasher.sha(stream)), sig.signedDigest)
    && LookupSigningPublicKey(sig, m).Ok?
    && SignatureOk(sig, LookupSigningPublicKey(sig, m).value, w.hasher.sha(stream), w)
  }

  /** The signature line of an export with epochs, where the table can be entered: its key is found exactly
      when it is in the table. */
  lemma NewSignature(tenant: string, ch: TenantChain, p: Process, lo: int, hi: int, f: Format, stream: Data,
                     enc: Encoding, w: World)
    returns (m: map<int, Data>)
    requires tenant != SYSTEM && RowsInv(tenant, ch.rows) && f != F1
    requires DecodeKey(p.publicKeyHex).Some? && Signs(ch, p, enc, w)
    ensures var sig := SignatureOf(ch, p, lo, hi, f, stream, w.hasher, enc);
            && MapsRows(m, ch.rows, |ch.rows|)
            && (EpochMapOf(sig, m) <==> ch.rows != [])
            && (SignedRight(sig, m, stream, w) <==> KeysFit(tenant, ch, p))
  {
    hide DecodeKey, HexEncode, HexDecode, EqualFold, RowsInv;
    m := TableEntered(tenant, ch.rows);
    var sig := SignatureOf(ch, p, lo, hi, f, stream, w.hasher, enc);
    var pub := DecodeKey(p.publicKeyHex).value;
    var digest := w.hasher.sha(stream);
    HexRoundTrip(enc.sign(digest));
    SelfFold(HexEncode(digest));
    LookupGives(ch.rows, p.keyId, pub, m);
    assert HasEpochs(sig);
  }

  /** What is left to check once the line is in order. */
  lemma SoundHere(stream: Data, sig: SigLine, m: map<int, Data>, es: seq<Entry>, f: Format, w: World)
    requires sig.bundleVersion == Label(f)
    requires EpochMapOf(sig, m) && ParseEntries(stream, w.decodeEntry) == Some(es)
    ensures SoundBundle(stream, sig, m, es, w) <==>
            && SignedRight(sig, m, stream, w)
            && ChainOk(es, |es|, f == F3, sig.transitionAt, w.hasher)
            && (f != F1 ==> RotationsOk(es, |es|, m))
            && (f == F3 ==> MarkerOk(es, sig.transitionAt))
  {
    hide EpochMapOf, EqualFold, LookupSigningPublicKey, SignatureOk, ParseEntries, MarkerOk, ChainOk, RotationsOk;
  }

  lemma BundleSplits(c: Ledger, tenant: string, fromSeq: int, toSeq: int, f: Format, enc: Encoding, w: World)
    requires Faithful(enc, w)
    ensures var ch := ChainOf(c, tenant);
            var lo, hi := Low(fromSeq), High(ch.log, fromSeq, toSeq);
            var stream := Stream(WireAll(Selected(ch.log, lo, hi), f), enc);
            var sig := SignatureOf(ch, c.p, lo, hi, f, stream, w.hasher, enc);
            && SplitExportLines(Bundle(c, tenant, fromSeq, toSeq, f, w.hasher, enc)) == Ok((stream, enc.sigLine(sig)))
            && w.decodeSig(enc.sigLine(sig)) == Some(sig)
  {
    hide SplitExportLines, SignatureOf, Selected, LooksLikeSignatureLine;
    var ch := ChainOf(c, tenant);
    var lo, hi := Low(fromSeq), High(ch.log, fromSeq, toSeq);
    var es := WireAll(Selected(ch.log, lo, hi), f);
    var stream := Stream(es, enc);
    var sig := SignatureOf(ch, c.p, lo, hi, f, stream, w.hasher, enc);
    StreamParses(es, enc, w);
    assert WellCut([], enc.sigLine(sig));
    assert Newlines(1) == [NEWLINE];
    SplitFinds(stream, enc.sigLine(sig), 1);
  }

  /** Whether the line stands for an epoch map at all. */
  lemma NoMapNoBundle(stream: Data, sig: SigLine, w: World)
    requires forall m :: !EpochMapOf(sig, m)
    ensures !exists m, entries :: SoundBundle(stream, sig, m, entries, w)
  {
    if m, entries :| SoundBundle(stream, sig, m, entries, w) {
      SoundParts(stream, sig, m, entries, w);
    }
  }

  ghost predicate Fits(tenant: string, ch: TenantChain, p: Process, lo: int, hi: int, f: Format)
    requires lo >= 1 && |ch.origins| == |ch.log|
  {
    var t := AnnouncedTransition(ch, p, lo, hi, f);
    && HashesFit(ch, lo, hi, f, t)
    && (f == F3 ==> MarkerFits(ch, lo, hi, t))
    && (f != F1 ==> KeysFit(tenant, ch, p) && RotationsFit(ch, lo, hi))
  }

  lemma AnnouncedNatural(c: Ledger, tenant: string, lo: int, hi: int, f: Format, hr: Hasher)
    requires Inv(c, hr)
    ensures AnnouncedTransition(ChainOf(c, tenant), c.p, lo, hi, f) >= 0
  {
    hide ChainsInv, DecodeKey, MarkerSeq, Listed;
  }

  /** The bundle's own checks, for one tenant's chain. */
  lemma BundleSound(tenant: string, ch: TenantChain, p: Process, lo: int, hi: int, f: Format, enc: Encoding, w: World)
    requires TenantInv(tenant, ch, p, w.hasher) && DecodeKey(p.publicKeyHex).Some? && lo >= 1
    requires AnnouncedTransition(ch, p, lo, hi, f) >= 0
    requires Injective(w.hasher.json) && VersionsDiffer(ch.log, w.hasher)
    requires Faithful(enc, w) && Signs(ch, p, enc, w)
    ensures |ch.origins| == |ch.log|
    ensures var stream := Stream(WireAll(Selected(ch.log, lo, hi), f), enc);
            var sig := SignatureOf(ch, p, lo, hi, f, stream, w.hasher, enc);
            (exists m, entries :: SoundBundle(stream, sig, m, entries, w)) <==> Fits(tenant, ch, p, lo, hi, f)
  {
    hide DecodeKey, Injective, VersionsDiffer, Faithful, Signs, Selected, MarkerOk, MarkerFits, HashesFit, RotationsFit,
      EpochInv, RowsInv, Meets, ChainOk, RotationsOk, SignedRight, SoundBundle, AnnouncedTransition;
    SizesOk(ch, w.hasher);
    hide ChainInv;
    var es := WireAll(Selected(ch.log, lo, hi), f);
    var stream := Stream(es, enc);
    var sig := SignatureOf(ch, p, lo, hi, f, stream, w.hasher, enc);
    var t := AnnouncedTransition(ch, p, lo, hi, f);
    StreamParses(es, enc, w);
    ExportedChain(ch, lo, hi, f, t, w.hasher);
    if f == F3 {
      ExportedMarker(ch, p, lo, hi, w.hasher);
    }
    if f == F1 {
      var m := OldSignature(ch, p, lo, hi, stream, enc, w);
      OnlyCandidate(stream, sig, m, w);
      SoundHere(stream, sig, m, es, f, w);
    } else if tenant == SYSTEM || ch.rows == [] {
      NoTable(tenant, ch, p, lo, hi, f, stream, enc, w);
      NoMapNoBundle(stream, sig, w);
    } else {
      var m := NewSignature(tenant, ch, p, lo, hi, f, stream, enc, w);
      ExportedRotations(tenant, ch, lo, hi, f, m);
      OnlyCandidate(stream, sig, m, w);
      SoundHere(stream, sig, m, es, f, w);
    }
  }

  /** Without rows, or with the migration's row, the line stands for no epoch map. */
  lemma NoTable(tenant: string, ch: TenantChain, p: Process, lo: int, hi: int, f: Format, stream: Data, enc: Encoding,
                w: World)
    requires RowsInv(tenant, ch.rows) && f != F1 && (tenant == SYSTEM || ch.rows == [])
    ensures forall m :: !EpochMapOf(SignatureOf(ch, p, lo, hi, f, stream, w.hasher, enc), m)
    ensures !KeysFit(tenant, ch, p)
  {
    if tenant == SYSTEM {
      SystemTableRefused(ch.rows);
    }
    hide RowsInv, RowsOk, MapsRows, DecodeKey;
  }

  /** The verifier accepts an export exactly when every entry with an epoch was written with the hash
      version the verifier takes, the announced marker is the chain's own and, with epochs, the key is in a
      table without the migration's row and the rotations in the range follow one another within a start. */
  lemma HonestExports(c: Ledger, tenant: string, fromSeq: int, toSeq: int, f: Format, enc: Encoding, w: World)
    requires Inv(c, w.hasher) && Injective(w.hasher.json) && Faithful(enc, w)
    requires VersionsDiffer(ChainOf(c, tenant).log, w.hasher) && Signs(ChainOf(c, tenant), c.p, enc, w)
    ensures var ch := ChainOf(c, tenant);
            && |ch.origins| == |ch.log|
            && (Accepts(Bundle(c, tenant, fromSeq, toSeq, f, w.hasher, enc), w) <==>
                Fits(tenant, ch, c.p, Low(fromSeq), High(ch.log, fromSeq, toSeq), f))
  {
    var ch := ChainOf(c, tenant);
    var lo, hi := Low(fromSeq), High(ch.log, fromSeq, toSeq);
    ChainOfInv(c, tenant, w.hasher);
    AnnouncedNatural(c, tenant, lo, hi, f, w.hasher);
    hide ChainsInv, TenantInv, DecodeKey, Injective, VersionsDiffer, Signs, Faithful, Fits, SoundBundle,
      Bundle, SignatureOf, AnnouncedTransition, SplitExportLines, Selected;
    BundleSound(tenant, ch, c.p, lo, hi, f, enc, w);
    BundleSplits(c, tenant, fromSeq, toSeq, f, enc, w);
  }

  // ---------------------------------------------------------------- what it refuses

  /** What HonestExports asks of the tenant and of the library. */
  ghost predicate Ready(c: Ledger, tenant: string, enc: Encoding, w: World) {
    && Inv(c, w.hasher) && Injective(w.hasher.json) && Faithful(enc, w)
    && VersionsDiffer(ChainOf(c, tenant).log, w.hasher) && Signs(ChainOf(c, tenant), c.p, enc, w)
  }

  lemma OnlyFitting(c: Ledger, tenant: string, fromSeq: int, toSeq: int, f: Format, enc: Encoding, w: World)
    requires Ready(c, tenant, enc, w)
    ensures var ch := ChainOf(c, tenant);
            && |ch.origins| == |ch.log|
            && (Accepts(Bundle(c, tenant, fromSeq, toSeq, f, w.hasher, enc), w) <==>
                Fits(tenant, ch, c.p, Low(fromSeq), High(ch.log, fromSeq, toSeq), f))
  {
    hide Inv, Injective, Faithful, VersionsDiffer, Signs;
    HonestExports(c, tenant, fromSeq, toSeq, f, enc, w);
  }

  /** From a fresh database on, as long as the system tenant keeps its name, no export with epochs is
      accepted: not the system tenant's, whose table has the migration's row, and no other tenant's, which
      has no table. */
  lemma DefaultExportsRefused(recordsEpochs: bool, keyId: string, pub: string, evs: seq<Event>, tenant: string,
                              fromSeq: int, toSeq: int, f: Format, enc: Encoding, w: World)
    requires DecodeKey(pub).Some? && HomeKept(evs) && f != F1
    requires AllAllowed(Start(SYSTEM, recordsEpochs, keyId, pub), evs, w.hasher)
    requires Ready(After(Start(SYSTEM, recordsEpochs, keyId, pub), evs, w.hasher), tenant, enc, w)
    ensures !Accepts(Bundle(After(Start(SYSTEM, recordsEpochs, keyId, pub), evs, w.hasher),
                            tenant, fromSeq, toSeq, f, w.hasher, enc), w)
  {
    var start := Start(SYSTEM, recordsEpochs, keyId, pub);
    var c := After(start, evs, w.hasher);
    hide DecodeKey, Accepts, Bundle, Ready, HashesFit, MarkerFits, RotationsFit, AllAllowed;
    RowsOnlyAtHome(start, evs, w.hasher);
    hide After, Start;
    OnlyFitting(c, tenant, fromSeq, toSeq, f, enc, w);
  }

  /** In the older formats the verifier takes version 1 for every entry: one entry with an epoch that was
      written with version 3, and the export is refused. */
  lemma OldFormatRefused(c: Ledger, tenant: string, fromSeq: int, toSeq: int, f: Format, k: nat,
                         enc: Encoding, w: World)
    requires Ready(c, tenant, enc, w) && f != F3
    requires var ch := ChainOf(c, tenant);
             && |ch.origins| == |ch.log| && Low(fromSeq) <= k + 1 <= High(ch.log, fromSeq, toSeq) && k < |ch.log|
             && !NoEpochs(ch.log[k]) && ch.origins[k].version == V3
    ensures !Accepts(Bundle(c, tenant, fromSeq, toSeq, f, w.hasher, enc), w)
  {
    hide Accepts, Bundle, Ready, MarkerFits, RotationsFit, KeysFit, NoEpochs;
    OnlyFitting(c, tenant, fromSeq, toSeq, f, enc, w);
    var ch := ChainOf(c, tenant);
    var lo, hi := Low(fromSeq), High(ch.log, fromSeq, toSeq);
    assert Selected(ch.log, lo, hi)[k + 1 - lo] == ch.log[k];
    hide AnnouncedTransition;
    assert lo - 1 + (k + 1 - lo) == k;
  }

  /** A v3 export that announces no transition is checked with version 1 as well. */
  lemma LateExportRefused(c: Ledger, tenant: string, fromSeq: int, toSeq: int, k: nat, enc: Encoding, w: World)
    requires Ready(c, tenant, enc, w)
    requires var ch := ChainOf(c, tenant);
             && |ch.origins| == |ch.log| && Low(fromSeq) <= k + 1 <= High(ch.log, fromSeq, toSeq) && k < |ch.log|
             && !NoEpochs(ch.log[k]) && ch.origins[k].version == V3 && 0 < c.p.transition < Low(fromSeq)
    ensures !Accepts(Bundle(c, tenant, fromSeq, toSeq, F3, w.hasher, enc), w)
  {
    hide Accepts, Bundle, Ready, MarkerFits, RotationsFit, KeysFit, NoEpochs;
    OnlyFitting(c, tenant, fromSeq, toSeq, F3, enc, w);
    var ch := ChainOf(c, tenant);
    var lo, hi := Low(fromSeq), High(ch.log, fromSeq, toSeq);
    assert Selected(ch.log, lo, hi)[k + 1 - lo] == ch.log[k];
    assert lo - 1 + (k + 1 - lo) == k;
  }

  /** Another tenant's v3 export that covers the system tenant's transition number announces a marker that
      is not in it. */
  lemma ForeignMarkerRefused(c: Ledger, tenant: string, fromSeq: int, toSeq: int, enc: Encoding, w: World)
    requires Ready(c, tenant, enc, w)
    requires var ch := ChainOf(c, tenant);
             Low(fromSeq) <= c.p.transition <= High(ch.log, fromSeq, toSeq) && MarkerSeq(ch.log) != c.p.transition
    ensures !Accepts(Bundle(c, tenant, fromSeq, toSeq, F3, w.hasher, enc), w)
  {
    hide Accepts, Bundle, Ready, HashesFit, RotationsFit, KeysFit, MarkerSeq;
    OnlyFitting(c, tenant, fromSeq, toSeq, F3, enc, w);
  }

  /** A rotation that directly follows neither nothing nor another rotation of its server start. */
  lemma RotationRefused(c: Ledger, tenant: string, f: Format, k: nat, enc: Encoding, w: World)
    requires Ready(c, tenant, enc, w) && f != F1
    requires var ch := ChainOf(c, tenant);
             && |ch.origins| == |ch.log| && 0 < k < |ch.log| && IsRotation(ch.log[k])
             && !(IsRotation(ch.log[k - 1]) && SameBoot(ch, k))
    ensures !Accepts(Bundle(c, tenant, 0, 0, f, w.hasher, enc), w)
  {
    hide Accepts, Bundle, Ready, MarkerFits, HashesFit, KeysFit, AnnouncedTransition;
    OnlyFitting(c, tenant, 0, 0, f, enc, w);
    var ch := ChainOf(c, tenant);
    assert Selected(ch.log, 1, |ch.log|) == ch.log;
    assert !RotationFitsAt(ch, 1, |ch.log|, k);
  }

  lemma RotatesAt(c: Ledger, rotate: Event, hr: Hasher)
    requires Inv(c, hr) && rotate.RotateKey? && Allowed(c, rotate)
    requires Insertable(c, EpochRow(NewEpoch(ChainOf(c, c.p.home).rows, c.p), rotate.keyId, rotate.publicKeyHex))
    ensures var ch, ch' := ChainOf(c, c.p.home), ChainOf(Next(c, rotate, hr), c.p.home);
            && |ch.origins| == |ch.log| && |ch'.origins| == |ch'.log| == |ch.log| + 1
            && ch.log <= ch'.log && ch.origins <= ch'.origins
            && IsRotation(ch'.log[|ch.log|]) && ch'.origins[|ch.log|].boot == c.p.boot
            && Next(c, rotate, hr).p.home == c.p.home
  {
    ChainOfInv(c, c.p.home, hr);
    SizesOk(ChainOf(c, c.p.home), hr);
    NewEntryIs(ChainOf(c, c.p.home).log, c.p.home, rotate.req, c.p, hr);
    hide Inv, TenantInv, Insertable, NewEntry, NewEpoch, DecodeKey;
  }

  /** After any run: an ordinary entry of the system tenant, then a key rotation, and its whole export is
      refused in both formats that carry epochs, whatever its table. */
  lemma RotationExportRefused(c: Ledger, req: Request, rotate: Event, f: Format, enc: Encoding, w: World)
    requires Inv(c, w.hasher) && f != F1
    requires Allowed(c, Record(req)) && req.tenantId == c.p.home
    requires var b := Next(c, Record(req), w.hasher);
             && rotate.RotateKey? && Allowed(b, rotate)
             && Insertable(b, EpochRow(NewEpoch(ChainOf(b, b.p.home).rows, b.p), rotate.keyId, rotate.publicKeyHex))
             && Ready(Next(b, rotate, w.hasher), c.p.home, enc, w)
    ensures var after := Next(Next(c, Record(req), w.hasher), rotate, w.hasher);
            !Accepts(Bundle(after, c.p.home, 0, 0, f, w.hasher, enc), w)
  {
    var b := Next(c, Record(req), w.hasher);
    NextKeepsInv(c, Record(req), w.hasher);
    NewEntryIs(ChainOf(c, c.p.home).log, c.p.home, req, c.p, w.hasher);
    assert b.p == c.p;
    var log := ChainOf(b, c.p.home).log;
    assert log != [] && !IsRotation(log[|log| - 1]) by {
      hide NewEntry, Inv, Insertable, Ready;
    }
    hide Inv, Accepts, Bundle, Ready, Insertable, NewEpoch, Allowed;
    RotatesAt(b, rotate, w.hasher);
    var c' := Next(b, rotate, w.hasher);
    hide Next;
    assert ChainOf(c', c.p.home).log[|log| - 1] == log[|log| - 1];
    RotationRefused(c', c.p.home, f, |log|, enc, w);
  }

  /** Two rotations in a row do not help when the server was restarted between them. */
  lemma RestartRotationRefused(c: Ledger, first: Event, restart: Event, second: Event, f: Format,
                               enc: Encoding, w: World)
    requires Inv(c, w.hasher) && f != F1
    requires first.RotateKey? && Allowed(c, first)
    requires Insertable(c, EpochRow(NewEpoch(ChainOf(c, c.p.home).rows, c.p), first.keyId, first.publicKeyHex))
    requires restart.Restart? && restart.home == c.p.home
    requires var a := Next(c, first, w.hasher);
             var b := Next(a, restart, w.hasher);
             && Allowed(a, restart) && second.RotateKey? && Allowed(b, second)
             && Insertable(b, EpochRow(NewEpoch(ChainOf(b, b.p.home).rows, b.p), second.keyId, second.publicKeyHex))
             && Ready(Next(b, second, w.hasher), c.p.home, enc, w)
    ensures !Accepts(Bundle(Next(Next(Next(c, first, w.hasher), restart, w.hasher), second, w.hasher),
                            c.p.home, 0, 0, f, w.hasher, enc), w)
  {
    hide Inv, Accepts, Bundle, Ready, Insertable, NewEpoch;
    var a := Next(c, first, w.hasher);
    NextKeepsInv(c, first, w.hasher);
    RotatesAt(c, first, w.hasher);
    var n := |ChainOf(c, c.p.home).log|;
    var b := Next(a, restart, w.hasher);
    NextKeepsInv(a, restart, w.hasher);
    assert ChainOf(b, c.p.home) == ChainOf(a, c.p.home) && b.p.boot == a.p.boot + 1 && a.p.boot == c.p.boot;
    RotatesAt(b, second, w.hasher);
    var c' := Next(b, second, w.hasher);
    hide Next, Allowed;
    assert ChainOf(c', c.p.home).origins[n] == ChainOf(b, c.p.home).origins[n];
    RotationRefused(c', c.p.home, f, n + 1, enc, w);
  }

  /** Under the usual system tenant, whatever is recorded behind the switch can be exported in no format. */
  lemma NothingBehindSwitch(c: Ledger, req: Request, fromSeq: int, toSeq: int, f: Format, enc: Encoding, w: World)
    requires Inv(c, w.hasher) && OnlySystemRows(c) && Allowed(c, Record(req))
    requires c.p.recordsEpochs && 0 < c.p.transition <= |ChainOf(c, req.tenantId).log|
    requires Ready(Next(c, Record(req), w.hasher), req.tenantId, enc, w)
    requires var log := ChainOf(c, req.tenantId).log;
             Low(fromSeq) <= |log| + 1 <=
             High(ChainOf(Next(c, Record(req), w.hasher), req.tenantId).log, fromSeq, toSeq)
    ensures !Accepts(Bundle(Next(c, Record(req), w.hasher), req.tenantId, fromSeq, toSeq, f, w.hasher, enc), w)
  {
    var c' := Next(c, Record(req), w.hasher);
    NextRows(c, Record(req), w.hasher);
    RecordedBehind(c, req, w.hasher);
    hide Accepts, Bundle, Ready, Inv, Next, Allowed, NoEpochs;
    OnlyFitting(c', req.tenantId, fromSeq, toSeq, f, enc, w);
    if f == F3 {
      hide HashesFit, MarkerFits, RotationsFit;
      assert !KeysFit(req.tenantId, ChainOf(c', req.tenantId), c'.p);
    } else {
      hide Fits;
      OldFormatRefused(c', req.tenantId, fromSeq, toSeq, f, |ChainOf(c, req.tenantId).log|, enc, w);
    }
  }

  /** An entry behind the switch carries an epoch and is written with version 3. */
  lemma RecordedBehind(c: Ledger, req: Request, hr: Hasher)
    requires Inv(c, hr) && c.p.recordsEpochs && 0 < c.p.transition <= |ChainOf(c, req.tenantId).log|
    ensures var ch := ChainOf(Next(c, Record(req), hr), req.tenantId);
            var n := |ChainOf(c, req.tenantId).log|;
            && |ch.log| == |ch.origins| == n + 1
            && !NoEpochs(ch.log[n]) && ch.origins[n].version == V3
  {
    ChainOfInv(c, req.tenantId, hr);
    SizesOk(ChainOf(c, req.tenantId), hr);
    assert c.p.epoch >= 1 by {
      hide ChainsInv;
    }
    NewEntryIs(ChainOf(c, req.tenantId).log, req.tenantId, req, c.p, hr);
    hide NewEntry, TenantInv, Inv;
  }

  // ---------------------------------------------------------------- one that it accepts

  lemma TwoEvents(c: Ledger, first: Event, second: Event, hr: Hasher)
    ensures After(c, [first, second], hr) == Next(Next(c, first, hr), second, hr)
  {
    hide Next;
    assert [first, second][1..] == [second];
    assert After(Next(c, first, hr), [second], hr) == After(Next(Next(c, first, hr), second, hr), [second][1..], hr);
  }

  /** With a system tenant of another name, a rotation before the switch, and an export that starts behind
      it: accepted. */
  lemma RenamedHomeAccepted(home: string, keyId: string, pub: string, rotate: Event, req: Request,
                            enc: Encoding, w: World)
    requires home != SYSTEM && DecodeKey(pub).Some?
    requires rotate.RotateKey? && rotate.req.action == ROTATION_ACTION && DecodeKey(rotate.publicKeyHex).Some?
    requires req.tenantId == home && req.action != MARKER_ACTION && req.action != ROTATION_ACTION
    requires var c := After(Start(home, true, keyId, pub), [rotate, Record(req)], w.hasher); Ready(c, home, enc, w)
    ensures var c := After(Start(home, true, keyId, pub), [rotate, Record(req)], w.hasher);
            Accepts(Bundle(c, home, 2, 0, F2, w.hasher, enc), w)
  {
    var start := Start(home, true, keyId, pub);
    var a := Next(start, rotate, w.hasher);
    var c := Next(a, Record(req), w.hasher);
    TwoEvents(start, rotate, Record(req), w.hasher);
    hide After, Accepts, Bundle, Ready, EntryHash, DecodeKey;
    NewEntryIs(ChainOf(a, home).log, home, req, a.p, w.hasher);
    hide NewEntry;
    var ch := ChainOf(c, home);
    assert |ch.log| == 2 && ch.origins[1].version == V1 && !IsRotation(ch.log[1]);
    assert ch.rows == [EpochRow(2, rotate.keyId, rotate.publicKeyHex)] && c.p.keyId == rotate.keyId;
    hide Next, Start;
    assert ch.rows[0].keyId == c.p.keyId;
    assert Selected(ch.log, 2, 2) == [ch.log[1]];
    OnlyFitting(c, home, 2, 0, F2, enc, w);
  }
}
