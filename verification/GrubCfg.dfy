/**
 cmd/pack-tools/converter/cis_grub.go: expected configuration lines with placeholders, cut into the
 pieces that the emitted check looks for.
 */
module GrubCfg {
  import opened Common
  import opened TextLines
  import Shell
  import TextSearch
  import opened DoubleQuotes

  // ---------------------------------------------------------------- cutting at placeholders

  /** strings.Index of one character; the length when there is none. */
  function IndexOf(s: string, c: char): (i: nat)
    ensures i <= |s| && c !in s[..i]
    ensures i < |s| ==> s[i] == c
  {
    if s == "" || s[0] == c then 0
    else
      var k := IndexOf(s[1..], c);
      assert s[..1 + k] == [s[0]] + s[1..][..k];
      1 + k
  }

  /** The first placeholder: from the first '<' to the first '>' behind it. */
  function FirstHole(s: string): (h: Option<(nat, nat)>)
    ensures h.Some? ==> h.value.0 < h.value.1 <= |s|
  {
    var i := IndexOf(s, '<');
    if i == |s| then None
    else
      var j := IndexOf(s[i..], '>');
      if i + j == |s| then None else Some((i, i + j + 1))
  }

  function Pieces(s: string): (ps: seq<string>)
    ensures |ps| == |Holes(s)| + 1
    decreases |s|
  {
    match FirstHole(s)
    case None => [s]
    case Some((i, j)) => [s[..i]] + Pieces(s[j..])
  }

  function Holes(s: string): seq<string>
    decreases |s|
  {
    match FirstHole(s)
    case None => []
    case Some((i, j)) => [s[i..j]] + Holes(s[j..])
  }

  lemma PiecesEnd(s: string)
    requires var i := IndexOf(s, '<'); i == |s| || IndexOf(s[i..], '>') == |s[i..]|
    ensures Pieces(s) == [s]
  {
    hide IndexOf;
  }

  lemma HoleFound(s: string)
    requires var i := IndexOf(s, '<'); i < |s| && IndexOf(s[i..], '>') < |s[i..]|
    ensures var i := IndexOf(s, '<'); FirstHole(s) == Some((i, i + IndexOf(s[i..], '>') + 1))
  {
    hide IndexOf;
  }

  lemma PiecesGoOn(s: string, i: nat, j: nat)
    requires FirstHole(s) == Some((i, j))
    ensures Pieces(s) == [s[..i]] + Pieces(s[j..])
  {
    hide FirstHole, Holes;
  }

  lemma OneMore(out: seq<string>, piece: string, rest: seq<string>)
    ensures out + ([piece] + rest) == out + [piece] + rest
  {
  }

  method SplitByPlaceholder(line: string) returns (out: seq<string>)
    ensures out == Pieces(line)
  {
    hide IndexOf, Pieces, Holes, FirstHole;
    out := [];
    var s := line;
    assert out + Pieces(s) == Pieces(s);
    while true
      invariant out + Pieces(s) == Pieces(line)
      decreases |s|
    {
      var i := IndexOf(s, '<');
      if i == |s| {
        PiecesEnd(s);
        out := out + [s];
        break;
      }
      var j := IndexOf(s[i..], '>');
      if j == |s[i..]| {
        PiecesEnd(s);
        out := out + [s];
        break;
      }
      var rest := s[i + j + 1..];
      HoleFound(s);
      PiecesGoOn(s, i, i + j + 1);
      OneMore(out, s[..i], Pieces(rest));
      out := out + [s[..i]];
      s := rest;
    }
  }

  // ---------------------------------------------------------------- filling the placeholders

  /** The pieces with the fillings between them. */
  function Fill(pieces: seq<string>, fillings: seq<string>): string
    requires |pieces| == |fillings| + 1
  {
    if fillings == [] then pieces[0] else pieces[0] + fillings[0] + Fill(pieces[1..], fillings[1..])
  }

  /** An opening character, a closing one, and no other closing one. */
  predicate IsHole(h: string) {
    |h| >= 2 && h[0] == '<' && h[|h| - 1] == '>' && '>' !in h[..|h| - 1]
  }

  /** A way to cut a line: placeholders between pieces that have no '<', except that the last piece may
      have one that is never closed. */
  predicate Cut(pieces: seq<string>, holes: seq<string>) {
    && |pieces| == |holes| + 1
    && (forall i :: 0 <= i < |holes| ==> IsHole(holes[i]) && '<' !in pieces[i])
    && FirstHole(pieces[|holes|]).None?
  }

  lemma HoleParts(s: string)
    requires FirstHole(s).Some?
    ensures var (i, j) := FirstHole(s).value;
            IsHole(s[i..j]) && '<' !in s[..i] && s == s[..i] + s[i..j] + s[j..]
  {
    var (i, j) := FirstHole(s).value;
    var t := s[i..];
    assert s[i..j] == t[..j - i];
    assert s[i..j][..j - i - 1] == t[..j - i - 1];
    assert s == s[..i] + s[i..j] + s[j..];
  }

  lemma CutCons(p: string, h: string, ps: seq<string>, hs: seq<string>)
    requires IsHole(h) && '<' !in p && Cut(ps, hs)
    ensures Cut([p] + ps, [h] + hs) && Fill([p] + ps, [h] + hs) == p + h + Fill(ps, hs)
  {
    hide IsHole, FirstHole;
    var ps', hs' := [p] + ps, [h] + hs;
    assert ps'[1..] == ps && hs'[1..] == hs;
    assert ps'[|hs'|] == ps[|hs|];
    forall k | 0 <= k < |hs'| ensures IsHole(hs'[k]) && '<' !in ps'[k] {
      if k > 0 {
        assert hs'[k] == hs[k - 1] && ps'[k] == ps[k - 1];
      }
    }
  }

  /** The pieces and the removed placeholders rebuild the line. */
  lemma {:induction false} Rebuilds(s: string)
    ensures Cut(Pieces(s), Holes(s)) && Fill(Pieces(s), Holes(s)) == s
    decreases |s|
  {
    hide FirstHole, IsHole;
    if FirstHole(s).Some? {
      var (i, j) := FirstHole(s).value;
      HoleParts(s);
      Rebuilds(s[j..]);
      CutCons(s[..i], s[i..j], Pieces(s[j..]), Holes(s[j..]));
    }
  }

  lemma {:induction false} IndexHere(a: string, c: char, b: string)
    requires c !in a
    ensures IndexOf(a + [c] + b, c) == |a|
  {
    if a != "" {
      assert (a + [c] + b)[1..] == a[1..] + [c] + b;
      IndexHere(a[1..], c, b);
    }
  }

  lemma FoundHole(piece: string, hole: string, rest: string)
    requires IsHole(hole) && '<' !in piece
    ensures FirstHole(piece + hole + rest) == Some((|piece|, |piece| + |hole|))
  {
    hide IndexOf;
    var s := piece + hole + rest;
    var inner := hole[..|hole| - 1];
    assert s == piece + ['<'] + (hole[1..] + rest);
    IndexHere(piece, '<', hole[1..] + rest);
    assert s[|piece|..] == inner + ['>'] + rest;
    IndexHere(inner, '>', rest);
  }

  lemma CutsFirst(piece: string, hole: string, rest: string)
    requires IsHole(hole) && '<' !in piece
    ensures Pieces(piece + hole + rest) == [piece] + Pieces(rest)
    ensures Holes(piece + hole + rest) == [hole] + Holes(rest)
  {
    var s := piece + hole + rest;
    FoundHole(piece, hole, rest);
    hide FirstHole, IsHole;
    var i, j := |piece|, |piece| + |hole|;
    assert s[..i] == piece && s[i..j] == hole && s[j..] == rest;
  }

  /** There is no other way to cut the line. */
  lemma {:induction false} OneCut(pieces: seq<string>, holes: seq<string>)
    requires Cut(pieces, holes)
    ensures Pieces(Fill(pieces, holes)) == pieces && Holes(Fill(pieces, holes)) == holes
    decreases |holes|
  {
    hide FirstHole, IsHole;
    if holes == [] {
      assert pieces == [pieces[0]];
    } else {
      hide Pieces, Holes;
      assert IsHole(holes[0]) && '<' !in pieces[0];
      OneCut(pieces[1..], holes[1..]);
      CutsFirst(pieces[0], holes[0], Fill(pieces[1..], holes[1..]));
      assert pieces == [pieces[0]] + pieces[1..] && holes == [holes[0]] + holes[1..];
    }
  }

  // ---------------------------------------------------------------- the checks

  /** The trimmed pieces that are not empty. */
  function Tokens(pieces: seq<string>): seq<string> {
    if pieces == [] then []
    else
      var t := TrimSpace(pieces[0]);
      (if t == "" then [] else [t]) + Tokens(pieces[1..])
  }

  /** The expected line of the command on line i: the next line that is not blank, unless it starts a
      command or prose. */
  function ExpectedLine(lines: seq<string>): string {
    if lines == [] then ""
    else
      var s := TrimSpace(lines[0]);
      if s == "" then ExpectedLine(lines[1..])
      else if s[0] == '#' || StartsWith(s, "Run") then ""
      else s
  }

  datatype GrubCheck = GrubCheck(cmd: string, tokens: seq<string>)

  /** A line that holds a command over the boot configuration, and the command on it. */
  type Recogniser = string -> Option<string>

  /** The checks of the lines, unless some command has no line to expect or no text in it. */
  function ChecksOf(lines: seq<string>, cmdOf: Recogniser): Option<seq<GrubCheck>> {
    if lines == [] then Some([])
    else match cmdOf(TrimSpace(lines[0]))
      case None => ChecksOf(lines[1..], cmdOf)
      case Some(cmd) =>
        var exp := ExpectedLine(lines[1..]);
        var tokens := Tokens(Pieces(exp));
        if exp == "" || tokens == [] then None
        else match ChecksOf(lines[1..], cmdOf)
          case None => None
          case Some(rest) => Some([GrubCheck(cmd, tokens)] + rest)
  }

  function WithFront(front: seq<GrubCheck>, rest: Option<seq<GrubCheck>>): (r: Option<seq<GrubCheck>>)
    ensures front == [] ==> r == rest
    ensures rest == Some([]) ==> r == Some(front)
  {
    assert rest.Some? ==> [] + rest.value == rest.value && front + [] == front;
    match rest
    case None => None
    case Some(checks) => Some(front + checks)
  }

  method FindExpected(lines: seq<string>, from: nat) returns (exp: string)
    requires from <= |lines|
    ensures exp == ExpectedLine(lines[from..])
  {
    hide TrimSpace;
    for j := from to |lines|
      invariant ExpectedLine(lines[j..]) == ExpectedLine(lines[from..])
    {
      assert lines[j..][1..] == lines[j + 1..];
      var s := TrimSpace(lines[j]);
      if s == "" {
        continue;
      }
      if s[0] == '#' || StartsWith(s, "Run") {
        break;
      }
      return s;
    }
    exp := "";
  }

  method NonEmptyTokens(pieces: seq<string>) returns (tokens: seq<string>)
    ensures tokens == Tokens(pieces)
  {
    hide TrimSpace;
    tokens := [];
    assert pieces[0..] == pieces;
    for k := 0 to |pieces|
      invariant tokens + Tokens(pieces[k..]) == Tokens(pieces)
    {
      assert pieces[k..][1..] == pieces[k + 1..];
      var t := TrimSpace(pieces[k]);
      if t != "" {
        tokens := tokens + [t];
      }
    }
  }

  method ExtractGrubChecks(audit: string, cmdOf: Recogniser) returns (r: Option<seq<GrubCheck>>)
    ensures var all := ChecksOf(Split(audit, '\n'), cmdOf);
            r == if all.Some? && |all.value| >= 2 then all else None
  {
    hide TrimSpace, Pieces, Tokens, ExpectedLine;
    var lines := Split(audit, '\n');
    var checks: seq<GrubCheck> := [];
    assert lines[0..] == lines;
    for i := 0 to |lines|
      invariant WithFront(checks, ChecksOf(lines[i..], cmdOf)) == ChecksOf(lines, cmdOf)
    {
      assert lines[i..][1..] == lines[i + 1..];
      var m := cmdOf(TrimSpace(lines[i]));
      if m.None? {
        continue;
      }
      var exp := FindExpected(lines, i + 1);
      if exp == "" {
        return None;
      }
      var pieces := SplitByPlaceholder(exp);
      var tokens := NonEmptyTokens(pieces);
      if tokens == [] {
        return None;
      }
      FrontMoves(checks, GrubCheck(m.value, tokens), ChecksOf(lines[i + 1..], cmdOf));
      checks := checks + [GrubCheck(m.value, tokens)];
    }
    if |checks| < 2 {
      return None;
    }
    r := Some(checks);
  }

  lemma FrontMoves(front: seq<GrubCheck>, c: GrubCheck, rest: Option<seq<GrubCheck>>)
    ensures WithFront(front + [c], rest) == WithFront(front, WithFront([c], rest))
  {
    assert rest.Some? ==> front + [c] + rest.value == front + ([c] + rest.value);
  }

  // ---------------------------------------------------------------- the emitted check

  /** The token, as bash reads its literal, is found in the output as a fixed string and line by line. */
  predicate TokenFound(t: string, out: string, wide: char -> bool) {
    ReadBack(GoQuote(t, wide)).Some? && Shell.FixedMatch(ReadBack(GoQuote(t, wide)).value, out)
  }

  /** Every token is found in its command's output. */
  predicate EmittedCheck(checks: seq<GrubCheck>, outputs: seq<string>, wide: char -> bool)
    requires |checks| == |outputs|
  {
    forall i :: 0 <= i < |checks| ==>
      forall t :: t in checks[i].tokens ==> TokenFound(t, outputs[i], wide)
  }

  /** The output has a line made from the expected one by filling its placeholders. */
  ghost predicate ShowsFilled(exp: string, out: string) {
    exists fillings :: |fillings| == |Holes(exp)| && Contains(out, Fill(Pieces(exp), fillings))
  }

  lemma {:induction false} TrimInside(s: string)
    ensures Contains(s, TrimSpace(s))
  {
    var l := TrimLeft(s);
    var k := LeftCut(s);
    var r := TrimRight(l);
    assert s == s[..k] + r + l[|r|..];
    assert OccursAt(r, r, 0);
    TextSearch.ContainsWithin(s[..k], r, l[|r|..], r);
  }

  lemma {:induction false} LeftCut(s: string) returns (k: nat)
    ensures k <= |s| && TrimLeft(s) == s[k..]
  {
    k := 0;
    if s != "" && IsSpace(s[0]) {
      var j := LeftCut(s[1..]);
      k := j + 1;
    }
  }

  /** Whatever stands for the placeholders, every token is in the line. */
  lemma {:induction false} FillingHasTokens(pieces: seq<string>, fillings: seq<string>, t: string)
    requires |pieces| == |fillings| + 1 && t in Tokens(pieces)
    ensures Contains(Fill(pieces, fillings), t)
    decreases |pieces|
  {
    hide TrimSpace, Contains;
    var f := Fill(pieces, fillings);
    var rest := if fillings == [] then "" else fillings[0] + Fill(pieces[1..], fillings[1..]);
    assert f == "" + pieces[0] + rest;
    if t == TrimSpace(pieces[0]) && t != "" {
      TrimInside(pieces[0]);
      TextSearch.ContainsWithin("", pieces[0], rest, t);
    } else {
      assert t in Tokens(pieces[1..]);
      assert pieces[1..] != [];
      FillingHasTokens(pieces[1..], fillings[1..], t);
      var tail := Fill(pieces[1..], fillings[1..]);
      TextSearch.ContainsWithin(pieces[0] + fillings[0], tail, "", t);
      assert f == pieces[0] + fillings[0] + tail + "";
    }
  }

  /** A token is a non-empty piece of one line. */
  lemma {:induction false} TokensPlain(pieces: seq<string>, t: string)
    requires t in Tokens(pieces) && forall p :: p in pieces ==> '\n' !in p
    ensures t != "" && '\n' !in t
  {
    hide TrimSpace;
    assert pieces[0] in pieces;
    if t == TrimSpace(pieces[0]) && t != "" {
      TrimInside(pieces[0]);
      var i :| 0 <= i <= |pieces[0]| - |t| && OccursAt(pieces[0], t, i);
      assert forall k :: 0 <= k < |t| ==> t[k] == pieces[0][i..i + |t|][k];
    } else {
      TokensPlain(pieces[1..], t);
    }
  }

  lemma {:induction false} PiecesPlain(s: string)
    requires '\n' !in s
    ensures forall p :: p in Pieces(s) ==> '\n' !in p
    decreases |s|
  {
    if FirstHole(s).Some? {
      var (i, j) := FirstHole(s).value;
      PiecesPlain(s[j..]);
    }
  }

  /** Tokens of a line that survives double quotes survive them. */
  lemma TokenReads(exp: string, t: string, out: string, wide: char -> bool)
    requires Kept(exp, wide) && t in Tokens(Pieces(exp))
    ensures TokenFound(t, out, wide) <==> Shell.FixedMatch(t, out)
  {
    hide Pieces, Holes, Tokens, Kept, ReadBack, GoQuote, Shell.FixedMatch;
    Rebuilds(exp);
    FillingHasTokens(Pieces(exp), Holes(exp), t);
    KeptInside(exp, t, wide);
    QuoteExact(t, wide);
  }

  /** Output that shows a filled line for each command always passes the emitted check. */
  lemma FilledOutputPasses(checks: seq<GrubCheck>, exps: seq<string>, outputs: seq<string>, wide: char -> bool)
    requires |checks| == |exps| == |outputs|
    requires forall i :: 0 <= i < |checks| ==>
               && checks[i].tokens == Tokens(Pieces(exps[i])) && '\n' !in exps[i] && Kept(exps[i], wide)
               && TextSearch.Stripped(outputs[i]) && ShowsFilled(exps[i], outputs[i])
    ensures EmittedCheck(checks, outputs, wide)
  {
    hide Tokens, Pieces, Shell.FixedMatch, TextSearch.Stripped, Kept, TokenFound;
    forall i | 0 <= i < |checks|
      ensures forall t :: t in checks[i].tokens ==> TokenFound(t, outputs[i], wide)
    {
      var exp, out := exps[i], outputs[i];
      var fillings :| |fillings| == |Holes(exp)| && Contains(out, Fill(Pieces(exp), fillings));
      var line := Fill(Pieces(exp), fillings);
      PiecesPlain(exp);
      forall t | t in checks[i].tokens ensures TokenFound(t, out, wide) {
        FillingHasTokens(Pieces(exp), fillings, t);
        TokensPlain(Pieces(exp), t);
        ContainsThrough(out, line, t);
        TextSearch.FixedSearchMeaning(t, out);
        TokenReads(exp, t, out, wide);
      }
    }
  }

  lemma ContainsThrough(out: string, line: string, t: string)
    requires Contains(out, line) && Contains(line, t)
    ensures Contains(out, t)
  {
    var i :| 0 <= i <= |out| - |line| && OccursAt(out, line, i);
    assert out == out[..i] + line + out[i + |line|..];
    TextSearch.ContainsWithin(out[..i], line, out[i + |line|..], t);
  }

  /** The expected line of each command, in order. */
  function ExpectedLines(lines: seq<string>, cmdOf: Recogniser): seq<string> {
    if lines == [] then []
    else if cmdOf(TrimSpace(lines[0])).None? then ExpectedLines(lines[1..], cmdOf)
    else [ExpectedLine(lines[1..])] + ExpectedLines(lines[1..], cmdOf)
  }

  lemma {:induction false} ExpectedPlain(lines: seq<string>)
    requires forall l :: l in lines ==> '\n' !in l
    ensures '\n' !in ExpectedLine(lines)
  {
    hide TrimSpace;
    if lines != [] {
      var l := lines[0];
      assert l in lines;
      ExpectedPlain(lines[1..]);
      TrimInside(l);
      var t := TrimSpace(l);
      var i :| 0 <= i <= |l| - |t| && OccursAt(l, t, i);
      assert forall k :: 0 <= k < |t| ==> t[k] == l[i..i + |t|][k];
    }
  }

  lemma {:induction false} ChecksAndLines(lines: seq<string>, cmdOf: Recogniser)
    requires ChecksOf(lines, cmdOf).Some? && forall l :: l in lines ==> '\n' !in l
    ensures var checks, exps := ChecksOf(lines, cmdOf).value, ExpectedLines(lines, cmdOf);
            && |checks| == |exps|
            && forall i :: 0 <= i < |checks| ==>
                 checks[i].tokens == Tokens(Pieces(exps[i])) && '\n' !in exps[i]
  {
    hide TrimSpace, Pieces, Tokens, ExpectedLine;
    if lines != [] {
      ChecksAndLines(lines[1..], cmdOf);
      ExpectedPlain(lines[1..]);
    }
  }

  /** The check made from an audit text passes whenever every command's output shows its expected line,
      with anything in place of the placeholders. */
  lemma AuditFilledPasses(audit: string, cmdOf: Recogniser, outputs: seq<string>, wide: char -> bool)
    requires var lines := Split(audit, '\n');
             && ChecksOf(lines, cmdOf).Some? && |outputs| == |ExpectedLines(lines, cmdOf)|
             && forall i :: 0 <= i < |outputs| ==>
                  && TextSearch.Stripped(outputs[i]) && ShowsFilled(ExpectedLines(lines, cmdOf)[i], outputs[i])
                  && Kept(ExpectedLines(lines, cmdOf)[i], wide)
    ensures var checks := ChecksOf(Split(audit, '\n'), cmdOf).value;
            |checks| == |outputs| && EmittedCheck(checks, outputs, wide)
  {
    hide ChecksOf, ExpectedLines, Tokens, Pieces, ShowsFilled, EmittedCheck, Kept;
    var lines := Split(audit, '\n');
    SplitPiecesFree(audit, '\n');
    ChecksAndLines(lines, cmdOf);
    FilledOutputPasses(ChecksOf(lines, cmdOf).value, ExpectedLines(lines, cmdOf), outputs, wide);
  }

  /** Every piece with text in it is a token, and there are no others. */
  lemma {:induction false} TokensAll(pieces: seq<string>, t: string)
    ensures t in Tokens(pieces) <==> t != "" && exists p :: p in pieces && TrimSpace(p) == t
  {
    hide TrimSpace;
    if pieces != [] {
      TokensAll(pieces[1..], t);
      assert forall p :: p in pieces <==> p == pieces[0] || p in pieces[1..];
    }
  }

  /** The text around the placeholders of the line is in the output, piece by piece. */
  ghost predicate ShowsPieces(exp: string, out: string) {
    forall p :: p in Pieces(exp) && TrimSpace(p) != "" ==> Contains(out, TrimSpace(p))
  }

  lemma OneCheckExact(check: GrubCheck, exp: string, out: string, wide: char -> bool)
    requires check.tokens == Tokens(Pieces(exp)) && '\n' !in exp && TextSearch.Stripped(out) && Kept(exp, wide)
    ensures (forall t :: t in check.tokens ==> TokenFound(t, out, wide)) <==> ShowsPieces(exp, out)
  {
    hide TrimSpace, Pieces, Tokens, Shell.FixedMatch, Contains, TokenFound, Kept;
    PiecesPlain(exp);
    forall t | t in check.tokens ensures TokenFound(t, out, wide) <==> Contains(out, t) {
      TokenReads(exp, t, out, wide);
      TokensPlain(Pieces(exp), t);
      TextSearch.FixedSearchMeaning(t, out);
    }
    forall t ensures t in check.tokens <==> t != "" && exists p :: p in Pieces(exp) && TrimSpace(p) == t {
      TokensAll(Pieces(exp), t);
    }
  }

  /** The emitted check passes exactly when every command's output has all the text around the placeholders
      of its expected line. */
  lemma AuditCheckExact(audit: string, cmdOf: Recogniser, outputs: seq<string>, wide: char -> bool)
    requires ChecksOf(Split(audit, '\n'), cmdOf).Some?
    requires |outputs| == |ExpectedLines(Split(audit, '\n'), cmdOf)|
    requires forall out :: out in outputs ==> TextSearch.Stripped(out)
    requires forall exp :: exp in ExpectedLines(Split(audit, '\n'), cmdOf) ==> Kept(exp, wide)
    ensures var checks, exps := ChecksOf(Split(audit, '\n'), cmdOf).value, ExpectedLines(Split(audit, '\n'), cmdOf);
            && |checks| == |outputs|
            && (EmittedCheck(checks, outputs, wide) <==>
                forall i :: 0 <= i < |outputs| ==> ShowsPieces(exps[i], outputs[i]))
  {
    hide ChecksOf, ExpectedLines, Tokens, Pieces, ShowsPieces, TokenFound, TextSearch.Stripped, Kept;
    var lines := Split(audit, '\n');
    SplitPiecesFree(audit, '\n');
    ChecksAndLines(lines, cmdOf);
    var checks, exps := ChecksOf(lines, cmdOf).value, ExpectedLines(lines, cmdOf);
    forall i | 0 <= i < |outputs|
      ensures (forall t :: t in checks[i].tokens ==> TokenFound(t, outputs[i], wide)) <==>
              ShowsPieces(exps[i], outputs[i])
    {
      assert outputs[i] in outputs && exps[i] in exps;
      OneCheckExact(checks[i], exps[i], outputs[i], wide);
    }
  }
}
