/** What an accepted bundle says about the history it carries. */
module AuditHistory {
  import opened Common
  import opened Bytes
  import opened Audit
  import opened ExportVerify

  // ---------------------------------------------------------------- the stream

  function Newlines(k: nat): Data {
    seq(k, _ => NEWLINE)
  }

  lemma {:induction false} TrimmedRest(s: Data) returns (k: nat)
    ensures s == TrimNewlines(s) + Newlines(k)
    decreases |s|
  {
    if s != [] && s[|s| - 1] == NEWLINE {
      k := TrimmedRest(s[..|s| - 1]);
      k := k + 1;
    } else {
      k := 0;
    }
  }

  lemma {:induction false} TrimAppended(s: Data, k: nat)
    requires s == [] || s[|s| - 1] != NEWLINE
    ensures TrimNewlines(s + Newlines(k)) == s
    decreases k
  {
    var t := s + Newlines(k);
    if k == 0 {
      assert t == s;
    } else {
      assert t[..|t| - 1] == s + Newlines(k - 1);
      TrimAppended(s, k - 1);
    }
  }

  lemma {:induction false} LastLineOf(a: Data, b: Data)
    requires NEWLINE !in b && (a == [] || a[|a| - 1] == NEWLINE)
    ensures LastLineStart(a + b) == |a|
    decreases |b|
  {
    var s := a + b;
    if b == [] {
      assert s == a;
    } else {
      assert s[|s| - 1] == b[|b| - 1] && b[|b| - 1] in b;
      assert s[..|s| - 1] == a + b[..|b| - 1];
      LastLineOf(a, b[..|b| - 1]);
    }
  }

  /** A stream and a signature line as the exporter writes them. */
  predicate WellCut(stream: Data, sigLine: Data) {
    && NEWLINE !in sigLine && LooksLikeSignatureLine(sigLine)
    && (stream == [] || stream[|stream| - 1] == NEWLINE)
  }

  lemma SplitGives(x: Data, stream: Data, sigLine: Data) returns (k: nat)
    requires SplitExportLines(x) == Ok((stream, sigLine))
    ensures WellCut(stream, sigLine) && x == stream + sigLine + Newlines(k)
  {
    k := TrimmedRest(x);
    var t := TrimNewlines(x);
    assert x[..LastLineStart(t)] == t[..LastLineStart(t)];
    assert t == stream + sigLine;
  }

  lemma SplitFinds(stream: Data, sigLine: Data, k: nat)
    requires WellCut(stream, sigLine)
    ensures SplitExportLines(stream + sigLine + Newlines(k)) == Ok((stream, sigLine))
  {
    hide LooksLikeSignatureLine, TrimNewlines, LastLineStart;
    var t := stream + sigLine;
    var x := t + Newlines(k);
    SignatureNotEmpty(sigLine);
    assert sigLine[|sigLine| - 1] in sigLine;
    assert t[|t| - 1] == sigLine[|sigLine| - 1];
    TrimAppended(t, k);
    LastLineOf(stream, sigLine);
    assert x[..|stream|] == stream && t[|stream|..] == sigLine;
  }

  predicate AllBlank(s: Data) {
    forall c :: c in s ==> c == 32 || c == 9
  }

  /** A line looks like a signature line when blanks and then the three characters stand at its start. */
  lemma LooksMeans(line: Data)
    ensures LooksLikeSignatureLine(line) <==>
            exists blanks, rest: Data :: AllBlank(blanks) && line == blanks + ([123, 34, 95] + rest)
  {
    var t := TrimBlanks(line);
    if LooksLikeSignatureLine(line) {
      var blanks := BlanksFirst(line);
      assert t == [123, 34, 95] + t[3..];
      assert line == blanks + ([123, 34, 95] + t[3..]);
    }
    if blanks, rest: Data :| AllBlank(blanks) && line == blanks + ([123, 34, 95] + rest) {
      BlanksTrimmed(blanks, [123, 34, 95] + rest);
    }
  }

  lemma {:induction false} BlanksFirst(s: Data) returns (blanks: Data)
    ensures AllBlank(blanks) && s == blanks + TrimBlanks(s)
  {
    if s != [] && (s[0] == 32 || s[0] == 9) {
      blanks := BlanksFirst(s[1..]);
      blanks := [s[0]] + blanks;
      assert s == [s[0]] + s[1..];
    } else {
      blanks := [];
    }
  }

  lemma {:induction false} BlanksTrimmed(blanks: Data, t: Data)
    requires AllBlank(blanks) && t != [] && t[0] != 32 && t[0] != 9
    ensures TrimBlanks(blanks + t) == t
  {
    if blanks == [] {
      assert blanks + t == t;
    } else {
      assert blanks[0] in blanks;
      assert (blanks + t)[1..] == blanks[1..] + t;
      assert forall c :: c in blanks[1..] ==> c in blanks;
      BlanksTrimmed(blanks[1..], t);
    }
  }

  lemma SignatureNotEmpty(line: Data)
    requires LooksLikeSignatureLine(line)
    ensures line != []
  {
  }

  /** Stream split round trip, both ways: the split gives back a stream and a signature line exactly when
      the bundle is the stream, which is empty or ends in a newline, then the line, then newlines. */
  lemma SplitExact(x: Data, stream: Data, sigLine: Data)
    ensures SplitExportLines(x) == Ok((stream, sigLine)) <==>
            WellCut(stream, sigLine) && exists k :: x == stream + sigLine + Newlines(k)
  {
    hide SplitExportLines, WellCut;
    if SplitExportLines(x) == Ok((stream, sigLine)) {
      var k := SplitGives(x, stream, sigLine);
    }
    if WellCut(stream, sigLine) {
      if k :| x == stream + sigLine + Newlines(k) {
        SplitFinds(stream, sigLine, k);
      }
    }
  }

  // ---------------------------------------------------------------- the entries

  /** Lines, each with its newline. */
  function Written(lines: seq<Data>): Data {
    if lines == [] then [] else lines[0] + [NEWLINE] + Written(lines[1..])
  }

  predicate NoNewlines(lines: seq<Data>) {
    forall line :: line in lines ==> NEWLINE !in line
  }

  function Filled(lines: seq<Data>): seq<Data> {
    if lines == [] then [] else (if lines[0] == [] then [] else [lines[0]]) + Filled(lines[1..])
  }

  /** Line by line, the entries are what the lines decode to. */
  predicate DecodeTo(lines: seq<Data>, decode: Data -> Option<Entry>, es: seq<Entry>) {
    |lines| == |es| && forall i :: 0 <= i < |lines| ==> decode(lines[i]) == Some(es[i])
  }

  lemma {:induction false} LinesCons(line: Data, rest: Data)
    requires NEWLINE !in line
    ensures LinesOf(line + [NEWLINE] + rest) == [line] + LinesOf(rest)
  {
    var s := line + [NEWLINE] + rest;
    if line == [] {
      assert s[1..] == rest;
    } else {
      assert s[1..] == line[1..] + [NEWLINE] + rest;
      LinesCons(line[1..], rest);
      assert [line[0]] + line[1..] == line;
    }
  }

  lemma {:induction false} OneLine(line: Data)
    requires NEWLINE !in line
    ensures LinesOf(line) == [line]
  {
    if line != [] {
      OneLine(line[1..]);
      assert [line[0]] + line[1..] == line;
    }
  }

  lemma {:induction false} LinesOfWritten(lines: seq<Data>, last: Data)
    requires NoNewlines(lines) && NEWLINE !in last
    ensures LinesOf(Written(lines) + last) == lines + [last]
  {
    if lines == [] {
      assert Written(lines) + last == last;
      OneLine(last);
    } else {
      assert lines[0] in lines;
      LinesOfWritten(lines[1..], last);
      assert Written(lines) + last == lines[0] + [NEWLINE] + (Written(lines[1..]) + last);
      LinesCons(lines[0], Written(lines[1..]) + last);
      assert lines == [lines[0]] + lines[1..];
    }
  }

  lemma {:induction false} DecodesFilled(lines: seq<Data>, decode: Data -> Option<Entry>, es: seq<Entry>)
    ensures DecodeLines(lines, decode) == Some(es) <==> DecodeTo(Filled(lines), decode, es)
  {
    if lines != [] {
      var rest := lines[1..];
      if lines[0] == [] {
        DecodesFilled(rest, decode, es);
        assert Filled(lines) == Filled(rest);
      } else {
        if es != [] {
          DecodesFilled(rest, decode, es[1..]);
          assert es == [es[0]] + es[1..];
        }
        forall fs | DecodeLines(rest, decode) == Some(fs) ensures DecodeTo(Filled(rest), decode, fs) {
          DecodesFilled(rest, decode, fs);
        }
        ConsDecodes(lines[0], Filled(rest), decode, es);
      }
    }
  }

  lemma ConsDecodes(line: Data, lines: seq<Data>, decode: Data -> Option<Entry>, es: seq<Entry>)
    ensures DecodeTo([line] + lines, decode, es) <==>
            es != [] && decode(line) == Some(es[0]) && DecodeTo(lines, decode, es[1..])
  {
    var all := [line] + lines;
    assert forall i :: 0 <= i < |lines| ==> all[i + 1] == lines[i];
    if es != [] && DecodeTo(lines, decode, es[1..]) {
      assert forall i :: 1 <= i < |es| ==> es[i] == es[1..][i - 1];
    }
    if DecodeTo(all, decode, es) {
      forall i | 0 <= i < |lines| ensures decode(lines[i]) == Some(es[1..][i]) {
        assert all[i + 1] == lines[i];
      }
    }
  }

  /** Newlines at the end only add empty lines. */
  lemma {:induction false} EndDecodes(s: Data, decode: Data -> Option<Entry>)
    ensures DecodeLines(LinesOf(TrimNewlines(s)), decode) == DecodeLines(LinesOf(s), decode)
    decreases |s|
  {
    if s != [] && s[|s| - 1] == NEWLINE {
      var t := s[..|s| - 1];
      EndDecodes(t, decode);
      assert s == t + [NEWLINE];
      LinesOfSnoc(t);
      MoreEmpty(LinesOf(t), decode);
    }
  }

  lemma {:induction false} LinesOfSnoc(t: Data)
    ensures LinesOf(t + [NEWLINE]) == LinesOf(t) + [[]]
  {
    if t == [] {
      assert [] + [NEWLINE] == [NEWLINE];
      assert [NEWLINE][1..] == [];
      assert LinesOf([NEWLINE]) == [[]] + LinesOf([]);
    } else {
      assert (t + [NEWLINE])[1..] == t[1..] + [NEWLINE];
      LinesOfSnoc(t[1..]);
    }
  }

  lemma {:induction false} MoreEmpty(lines: seq<Data>, decode: Data -> Option<Entry>)
    ensures DecodeLines(lines + [[]], decode) == DecodeLines(lines, decode)
  {
    if lines == [] {
      var one: seq<Data> := [[]];
      assert lines + [[]] == one && one[1..] == [];
    } else {
      assert (lines + [[]])[1..] == lines[1..] + [[]];
      MoreEmpty(lines[1..], decode);
    }
  }

  /** A stream of lines parses exactly when each line that is not empty decodes to an entry; these are the
      entries, in order. */
  lemma ParseMeans(lines: seq<Data>, last: Data, decode: Data -> Option<Entry>, es: seq<Entry>)
    requires NoNewlines(lines) && NEWLINE !in last
    ensures ParseEntries(Written(lines) + last, decode) == Some(es) <==> DecodeTo(Filled(lines + [last]), decode, es)
  {
    hide TrimNewlines, LinesOf, DecodeLines, DecodeTo, Filled, Written;
    EndDecodes(Written(lines) + last, decode);
    LinesOfWritten(lines, last);
    DecodesFilled(lines + [last], decode, es);
  }

  // ---------------------------------------------------------------- epochs

  /** Once the epoch map is built, looking up the signing key cannot fail on a missing epoch: it fails
      exactly when no row has the key ID, and otherwise gives the key of the first row that has it. */
  lemma LookupTotal(sig: SigLine, m: map<int, Data>)
    requires EpochMapOf(sig, m)
    ensures var r := LookupSigningPublicKey(sig, m);
            && (r.Err? <==> HasEpochs(sig) && forall row :: row in sig.chainKeyEpochs ==> row.keyId != sig.keyId)
            && (r.Err? ==> r.error == UnknownKeyId)
  {
    if HasEpochs(sig) {
      var rows := sig.chainKeyEpochs;
      assert forall i :: 0 <= i < |rows| ==> rows[i].epoch in m;
      LookupFirst(rows, sig.keyId, m);
    }
  }

  lemma {:induction false} LookupFirst(rows: seq<EpochRow>, keyId: string, m: map<int, Data>)
    requires forall row :: row in rows ==> row.epoch in m
    ensures var r := LookupRow(rows, keyId, m);
            && (r.Ok? <==> exists row :: row in rows && row.keyId == keyId)
            && (r.Err? ==> r.error == UnknownKeyId)
            && (forall i :: 0 <= i < |rows| && rows[i].keyId == keyId
                            && (forall j :: 0 <= j < i ==> rows[j].keyId != keyId)
                  ==> r == Ok(m[rows[i].epoch]))
  {
    if rows != [] {
      assert rows[0] in rows;
      assert forall row :: row in rows <==> row == rows[0] || row in rows[1..];
      LookupFirst(rows[1..], keyId, m);
      if rows[0].keyId != keyId {
        forall i | 0 <= i < |rows| && rows[i].keyId == keyId
                   && (forall j :: 0 <= j < i ==> rows[j].keyId != keyId)
          ensures LookupRow(rows, keyId, m) == Ok(m[rows[i].epoch])
        {
          assert rows[1..][i - 1] == rows[i];
          assert forall j :: 0 <= j < i - 1 ==> rows[1..][j] == rows[j + 1];
        }
      }
    }
  }

  /** Only a rotation changes the key epoch. */
  predicate EpochsKept(entries: seq<Entry>) {
    forall i :: 0 < i < |entries| && !IsRotation(entries[i]) ==> entries[i].keyEpoch == entries[i - 1].keyEpoch
  }

  /** If other entries keep their predecessor's epoch, then in an accepted list either no entry has an
      epoch, or all have one and it never decreases and grows at each rotation after the first entry. */
  lemma {:induction false} EpochsGrow(entries: seq<Entry>, m: map<int, Data>, i: nat, j: nat)
    requires RotationsOk(entries, |entries|, m) && EpochsKept(entries)
    requires i <= j < |entries|
    ensures entries[i].keyEpoch.Some? <==> entries[j].keyEpoch.Some?
    ensures entries[i].keyEpoch.Some? ==> entries[i].keyEpoch.value <= entries[j].keyEpoch.value
    ensures i < j && IsRotation(entries[j]) ==>
              entries[i].keyEpoch.Some? && entries[i].keyEpoch.value < entries[j].keyEpoch.value
    decreases j
  {
    if i < j {
      EpochsGrow(entries, m, i, j - 1);
      assert RotationOk(entries, j, m);
    }
  }

  /** The epochs of the rotations among the first n entries. */
  function RotationEpochs(entries: seq<Entry>, n: nat): set<int>
    requires n <= |entries|
  {
    set i | 0 <= i < n && IsRotation(entries[i]) && entries[i].keyEpoch.Some? :: entries[i].keyEpoch.value
  }

  lemma {:induction false} RotationsDistinct(entries: seq<Entry>, m: map<int, Data>, n: nat)
    requires RotationsOk(entries, |entries|, m) && EpochsKept(entries)
    requires n <= |entries|
    ensures |RotationEpochs(entries, n)| == RotationCount(entries, n)
    decreases n
  {
    if n > 0 {
      RotationsDistinct(entries, m, n - 1);
      EpochsStep(entries, n);
      if IsRotation(entries[n - 1]) {
        NewRotationEpoch(entries, m, n);
      }
      hide RotationEpochs, RotationsOk, EpochsKept;
    }
  }

  lemma EpochsStep(entries: seq<Entry>, n: nat)
    requires 1 <= n <= |entries|
    ensures var e := entries[n - 1];
            RotationEpochs(entries, n) == RotationEpochs(entries, n - 1)
                                          + if IsRotation(e) && e.keyEpoch.Some? then {e.keyEpoch.value} else {}
  {
  }

  /** A rotation's epoch is not that of an earlier one. */
  lemma NewRotationEpoch(entries: seq<Entry>, m: map<int, Data>, n: nat)
    requires RotationsOk(entries, |entries|, m) && EpochsKept(entries)
    requires 1 <= n <= |entries| && IsRotation(entries[n - 1])
    ensures entries[n - 1].keyEpoch.Some? && entries[n - 1].keyEpoch.value !in RotationEpochs(entries, n - 1)
  {
    assert RotationOk(entries, n - 1, m);
    forall i | 0 <= i < n - 1 && IsRotation(entries[i]) && entries[i].keyEpoch.Some?
      ensures entries[i].keyEpoch.value != entries[n - 1].keyEpoch.value
    {
      EpochsGrow(entries, m, i, n - 1);
    }
  }

  /** Epoch accounting: every rotation has a declared epoch of its own, so there are at most as many
      rotations as declared epochs. */
  lemma EpochAccounting(entries: seq<Entry>, m: map<int, Data>)
    requires RotationsOk(entries, |entries|, m) && EpochsKept(entries)
    ensures RotationEpochs(entries, |entries|) <= m.Keys
    ensures |RotationEpochs(entries, |entries|)| == RotationCount(entries, |entries|) <= |m|
  {
    RotationsDistinct(entries, m, |entries|);
    forall i | 0 <= i < |entries| && IsRotation(entries[i]) ensures Declared(entries[i].keyEpoch, m) {
      assert RotationOk(entries, i, m);
    }
    SubsetSize(RotationEpochs(entries, |entries|), m.Keys);
  }

  lemma {:induction false} SubsetSize<T>(a: set<T>, b: set<T>)
    requires a <= b
    ensures |a| <= |b|
  {
    if a != {} {
      var x :| x in a;
      SubsetSize(a - {x}, b - {x});
    }
  }

  // ---------------------------------------------------------------- one hash switch

  predicate SeqsIncrease(entries: seq<Entry>) {
    forall i, j :: 0 <= i < j < |entries| ==> entries[i].seqNo < entries[j].seqNo
  }

  lemma {:induction false} OneMarker(entries: seq<Entry>, n: nat, t: int)
    requires n <= |entries|
    ensures Markers(entries, n) == [] <==> forall i :: 0 <= i < n ==> entries[i].action != MARKER_ACTION
    ensures Markers(entries, n) == [t] ==>
              exists k :: 0 <= k < n && entries[k].action == MARKER_ACTION && entries[k].seqNo == t
                          && forall i :: 0 <= i < n && i != k ==> entries[i].action != MARKER_ACTION
    decreases n
  {
    if n > 0 {
      OneMarker(entries, n - 1, t);
      if entries[n - 1].action == MARKER_ACTION && Markers(entries, n) == [t] {
        assert Markers(entries, n - 1) == [];
        assert Markers(entries, n)[0] == entries[n - 1].seqNo;
        assert entries[n - 1].seqNo == t;
      } else if entries[n - 1].action == MARKER_ACTION {
        assert Markers(entries, n) != [];
      } else {
        assert Markers(entries, n) == Markers(entries, n - 1);
      }
    }
  }

  /** An accepted v3 list with a positive transition and increasing sequence numbers has exactly one
      marker, at that number; up to and including it every entry is checked with version 1, and after it
      with version 3. */
  lemma OneHashSwitch(entries: seq<Entry>, t: int) returns (k: nat)
    requires MarkerOk(entries, t) && t > 0 && SeqsIncrease(entries)
    ensures k < |entries| && entries[k].seqNo == t
    ensures forall i :: 0 <= i < |entries| ==> (entries[i].action == MARKER_ACTION <==> i == k)
    ensures forall i :: 0 <= i < |entries| ==>
              (SelectHash(true, t, entries[i].seqNo) == V1 <==> i <= k)
  {
    OneMarker(entries, |entries|, t);
    k :| 0 <= k < |entries| && entries[k].action == MARKER_ACTION && entries[k].seqNo == t
         && forall i :: 0 <= i < |entries| && i != k ==> entries[i].action != MARKER_ACTION;
    forall i | 0 <= i < |entries|
      ensures SelectHash(true, t, entries[i].seqNo) == V1 <==> i <= k
    {
      if i < k {
        assert entries[i].seqNo < entries[k].seqNo;
      } else if k < i {
        assert entries[k].seqNo < entries[i].seqNo;
      }
    }
  }

  // ---------------------------------------------------------------- the final hash pins the history

  /** No two different hash inputs among the entries of the two lists have one hash. */
  ghost predicate NoCollision(a: seq<Entry>, b: seq<Entry>, useV3: bool, t: int, hr: Hasher) {
    forall i, j :: 0 <= i < |a| && 0 <= j < |b| ==>
      var x := Preimage(a[i], SelectHash(useV3, t, a[i].seqNo), hr);
      var y := Preimage(b[j], SelectHash(useV3, t, b[j].seqNo), hr);
      hr.sha(x) == hr.sha(y) ==> x == y
  }

  /** Two entries that agree on the stored hash and on everything their hash version covers. */
  predicate SamePinned(x: Entry, y: Entry, useV3: bool, t: int) {
    SameCovered(x, y, SelectHash(useV3, t, x.seqNo)) && x.hash == y.hash
  }

  lemma EqualHashes(x: Entry, y: Entry, useV3: bool, t: int, hr: Hasher)
    requires Injective(hr.json)
    requires HashOk(x, useV3, t, hr) && HashOk(y, useV3, t, hr) && x.hash == y.hash
    requires var p := Preimage(x, SelectHash(useV3, t, x.seqNo), hr);
             var q := Preimage(y, SelectHash(useV3, t, y.seqNo), hr);
             hr.sha(p) == hr.sha(q) ==> p == q
    ensures SamePinned(x, y, useV3, t)
  {
    var v, v' := SelectHash(useV3, t, x.seqNo), SelectHash(useV3, t, y.seqNo);
    PreimageTells(x, v, y, v', hr);
    SeqTold(x, v, y, v');
    MetaTells(x, y, v);
  }

  lemma ChainPrefix(a: seq<Entry>, n: nat, useV3: bool, t: int, hr: Hasher)
    requires n <= |a| && ChainOk(a, |a|, useV3, t, hr)
    ensures ChainOk(a[..n], n, useV3, t, hr)
  {
    forall i | 0 <= i < n ensures HashOk(a[..n][i], useV3, t, hr) && LinkOk(a[..n], i) {
      assert HashOk(a[i], useV3, t, hr) && LinkOk(a, i);
    }
  }

  lemma CollisionPrefix(a: seq<Entry>, b: seq<Entry>, n: nat, m: nat, useV3: bool, t: int, hr: Hasher)
    requires n <= |a| && m <= |b| && NoCollision(a, b, useV3, t, hr)
    ensures NoCollision(a[..n], b[..m], useV3, t, hr)
  {
  }

  /** If two accepted lists end in the same hash, then, entry by entry from the end, they agree on every
      covered field: the shorter is a suffix of the longer. */
  lemma {:induction false} FinalHashPins(a: seq<Entry>, b: seq<Entry>, useV3: bool, t: int, hr: Hasher)
    requires a != [] && |a| <= |b|
    requires ChainOk(a, |a|, useV3, t, hr) && ChainOk(b, |b|, useV3, t, hr)
    requires a[|a| - 1].hash == b[|b| - 1].hash
    requires Injective(hr.json) && NoCollision(a, b, useV3, t, hr)
    ensures forall i :: 0 <= i < |a| ==> SamePinned(a[i], b[|b| - |a| + i], useV3, t)
    decreases |a|
  {
    hide SamePinned, Injective, NoCollision, ChainOk;
    var n, m := |a| - 1, |b| - 1;
    LastPinned(a, b, useV3, t, hr);
    if n > 0 {
      LinkedBack(a, b, useV3, t, hr);
      ChainPrefix(a, n, useV3, t, hr);
      ChainPrefix(b, m, useV3, t, hr);
      CollisionPrefix(a, b, n, m, useV3, t, hr);
      FinalHashPins(a[..n], b[..m], useV3, t, hr);
      forall i | 0 <= i < |a| ensures SamePinned(a[i], b[|b| - |a| + i], useV3, t) {
        if i < n {
          assert SamePinned(a[..n][i], b[..m][m - n + i], useV3, t);
        }
      }
    }
  }

  lemma LastPinned(a: seq<Entry>, b: seq<Entry>, useV3: bool, t: int, hr: Hasher)
    requires a != [] && b != [] && a[|a| - 1].hash == b[|b| - 1].hash
    requires ChainOk(a, |a|, useV3, t, hr) && ChainOk(b, |b|, useV3, t, hr)
    requires Injective(hr.json) && NoCollision(a, b, useV3, t, hr)
    ensures SamePinned(a[|a| - 1], b[|b| - 1], useV3, t)
  {
    assert HashOk(a[|a| - 1], useV3, t, hr) && HashOk(b[|b| - 1], useV3, t, hr);
    EqualHashes(a[|a| - 1], b[|b| - 1], useV3, t, hr);
  }

  lemma LinkedBack(a: seq<Entry>, b: seq<Entry>, useV3: bool, t: int, hr: Hasher)
    requires 1 < |a| <= |b|
    requires ChainOk(a, |a|, useV3, t, hr) && ChainOk(b, |b|, useV3, t, hr)
    requires SamePinned(a[|a| - 1], b[|b| - 1], useV3, t)
    ensures a[|a| - 2].hash == b[|b| - 2].hash
  {
    assert LinkOk(a, |a| - 1) && LinkOk(b, |b| - 1);
  }

  /** And nothing more is pinned: lists that agree entry by entry on the covered fields and the stored
      hashes are accepted together, whatever their error texts and, before the switch, their epochs. */
  lemma OnlyCoveredMatters(a: seq<Entry>, b: seq<Entry>, useV3: bool, t: int, hr: Hasher)
    requires |a| == |b| && forall i :: 0 <= i < |a| ==> SamePinned(a[i], b[i], useV3, t)
    ensures ChainOk(a, |a|, useV3, t, hr) <==> ChainOk(b, |b|, useV3, t, hr)
  {
    forall i | 0 <= i < |a|
      ensures HashOk(a[i], useV3, t, hr) <==> HashOk(b[i], useV3, t, hr)
      ensures LinkOk(a, i) <==> LinkOk(b, i)
    {
      assert SamePinned(a[i], b[i], useV3, t);
      assert i > 0 ==> SamePinned(a[i - 1], b[i - 1], useV3, t);
      MetaTells(a[i], b[i], SelectHash(useV3, t, a[i].seqNo));
    }
  }
}
