/**
 cmd/pack-tools/converter/cis.go: a shell command that the benchmark's text layout broke over several
 lines, put together again.
 */
module CommandAbsorb {
  import opened Common
  import opened TextLines

  function Count(s: string, c: char): nat {
    if s == "" then 0 else Count(s[1..], c) + if s[0] == c then 1 else 0
  }

  predicate Odd(n: nat) {
    n % 2 == 1
  }

  /** quotedContext: a quote is open. */
  predicate QuotedContext(cmd: string) {
    Odd(Count(cmd, '\'')) || Odd(Count(cmd, '"'))
  }

  /** strings.TrimRight(cmd, " \t"). */
  function DropBlanksRight(s: string): (r: string)
    ensures r <= s
  {
    if s != "" && (s[|s| - 1] == ' ' || s[|s| - 1] == '\t') then DropBlanksRight(s[..|s| - 1]) else s
  }

  predicate IsCISCmdComplete(cmd: string) {
    var t := DropBlanksRight(cmd);
    && !EndsWith(t, "--") && !EndsWith(t, "\\") && !EndsWith(t, "|") && !EndsWith(t, "&")
    && !QuotedContext(cmd)
    && !EndsWith(t, "-")
  }

  // ---------------------------------------------------------------- lines of prose

  predicate FoldStarts(t: string, word: string) {
    |word| <= |t| && forall i :: 0 <= i < |word| ==> FoldChar(t[i]) == word[i]
  }

  const OPENERS: seq<string> := ["run", "the", "to", "nothing", "or", "where", "if"]
  const MARKS: seq<string> := ["example", "verify", "note:"]

  /** shellLineSkipRe. */
  predicate SkipsLine(t: string) {
    || (exists w :: w in OPENERS && Opens(t, w))
    || (exists w :: w in MARKS && FoldStarts(t, w))
  }

  /** In any letters' case: a word that opens a sentence, with white space behind it, or the start of a mark. */
  lemma SkippedLines(t: string)
    ensures SkipsLine(t) <==>
              || Opens(t, "run") || Opens(t, "the") || Opens(t, "to") || Opens(t, "nothing")
              || Opens(t, "or") || Opens(t, "where") || Opens(t, "if")
              || FoldStarts(t, "example") || FoldStarts(t, "verify") || FoldStarts(t, "note:")
  {
    TheWords();
    hide Opens, FoldStarts, OPENERS, MARKS;
    assert (exists w :: w in OPENERS && Opens(t, w)) <==> exists i :: 0 <= i < |OPENERS| && Opens(t, OPENERS[i]);
    assert (exists w :: w in MARKS && FoldStarts(t, w)) <==> exists i :: 0 <= i < |MARKS| && FoldStarts(t, MARKS[i]);
  }

  lemma TheWords()
    ensures |OPENERS| == 7 && OPENERS[0] == "run" && OPENERS[1] == "the" && OPENERS[2] == "to"
    ensures OPENERS[3] == "nothing" && OPENERS[4] == "or" && OPENERS[5] == "where" && OPENERS[6] == "if"
    ensures |MARKS| == 3 && MARKS[0] == "example" && MARKS[1] == "verify" && MARKS[2] == "note:"
  {
  }

  predicate Opens(t: string, word: string) {
    FoldStarts(t, word) && |t| > |word| && ReSpace(t[|word|])
  }

  /** The line belongs to the next command or to the prose around it. */
  predicate StopLine(t: string) {
    t != "" && (t[0] == '#' || t[0] == '-' || SkipsLine(t))
  }

  // ---------------------------------------------------------------- the loop

  const MAX_LINES := 8
  const MAX_LENGTH := 4096

  /** One more line, joined with a space outside quotes and without one inside them. */
  function Joined(acc: string, piece: string): string {
    if QuotedContext(acc) then acc + piece else acc + " " + piece
  }

  function Absorb(lines: seq<string>, acc: string, consumed: nat): string {
    if lines == [] || consumed >= MAX_LINES || |acc| > MAX_LENGTH then acc
    else
      var t := TrimSpace(lines[0]);
      if t == "" then Absorb(lines[1..], acc, consumed)
      else if StopLine(t) then acc
      else
        var acc' := Joined(acc, t);
        if IsCISCmdComplete(acc') then acc' else Absorb(lines[1..], acc', consumed + 1)
  }

  function Absorbed(first: string, after: string): string {
    if IsCISCmdComplete(first) then first else Absorb(Split(after, '\n'), first, 0)
  }

  method AbsorbCISContinuation(first: string, after: string) returns (cmd: string)
    ensures cmd == Absorbed(first, after)
  {
    hide IsCISCmdComplete, QuotedContext, SkipsLine, TrimSpace;
    if IsCISCmdComplete(first) {
      return first;
    }
    var lines := Split(after, '\n');
    var accumulated := first;
    var consumed := 0;
    assert lines[0..] == lines;
    for i := 0 to |lines|
      invariant Absorb(lines[i..], accumulated, consumed) == Absorb(lines, first, 0)
    {
      assert lines[i..][1..] == lines[i + 1..];
      if consumed >= MAX_LINES || |accumulated| > MAX_LENGTH {
        return accumulated;
      }
      var trimmed := TrimSpace(lines[i]);
      if trimmed == "" {
        continue;
      }
      if trimmed[0] == '#' || trimmed[0] == '-' {
        return accumulated;
      }
      if SkipsLine(trimmed) {
        return accumulated;
      }
      if QuotedContext(accumulated) {
        accumulated := accumulated + trimmed;
      } else {
        accumulated := accumulated + " " + trimmed;
      }
      consumed := consumed + 1;
      if IsCISCmdComplete(accumulated) {
        return accumulated;
      }
    }
    cmd := accumulated;
  }

  // ---------------------------------------------------------------- what it computes

  /** The lines without margins and without blank ones. */
  function Shown(lines: seq<string>): seq<string> {
    if lines == [] then []
    else
      var t := TrimSpace(lines[0]);
      (if t == "" then [] else [t]) + Shown(lines[1..])
  }

  /** The first k pieces joined to the command. */
  function Taken(first: string, pieces: seq<string>, k: nat): string
    requires k <= |pieces|
  {
    if k == 0 then first else Joined(Taken(first, pieces, k - 1), pieces[k - 1])
  }

  /** Joining goes no further than k pieces. */
  predicate Halts(first: string, pieces: seq<string>, k: nat)
    requires k <= |pieces|
  {
    || k == |pieces| || k >= MAX_LINES || |Taken(first, pieces, k)| > MAX_LENGTH
    || StopLine(pieces[k]) || (k > 0 && IsCISCmdComplete(Taken(first, pieces, k)))
  }

  ghost predicate FirstHalt(first: string, pieces: seq<string>, k: nat) {
    k <= |pieces| && Halts(first, pieces, k) && forall j :: 0 <= j < k ==> !Halts(first, pieces, j)
  }

  /** Blank lines and margins change nothing. */
  lemma {:induction false} BlanksIrrelevant(lines: seq<string>, acc: string, consumed: nat)
    ensures Absorb(lines, acc, consumed) == Absorb(Shown(lines), acc, consumed)
  {
    hide IsCISCmdComplete, QuotedContext, StopLine, TrimSpace;
    if consumed >= MAX_LINES || |acc| > MAX_LENGTH {
      ShortAbsorb(Shown(lines), acc, consumed);
    } else if lines != [] {
      var t := TrimSpace(lines[0]);
      var rest := lines[1..];
      TrimIsTrimmed(lines[0]);
      BlanksIrrelevant(rest, acc, consumed);
      BlanksIrrelevant(rest, Joined(acc, t), consumed + 1);
      if t == "" {
        assert Shown(lines) == Shown(rest);
      } else {
        assert Shown(lines)[0] == t && Shown(lines)[1..] == Shown(rest);
      }
    }
  }

  lemma ShortAbsorb(lines: seq<string>, acc: string, consumed: nat)
    requires consumed >= MAX_LINES || |acc| > MAX_LENGTH
    ensures Absorb(lines, acc, consumed) == acc
  {
  }

  predicate AllShown(pieces: seq<string>) {
    forall p :: p in pieces ==> p != "" && Trimmed(p)
  }

  lemma {:induction false} ShownIsShown(lines: seq<string>)
    ensures AllShown(Shown(lines))
  {
    hide TrimSpace, Trimmed;
    if lines != [] {
      ShownIsShown(lines[1..]);
      TrimIsTrimmed(lines[0]);
    }
  }

  lemma {:induction false} AbsorbTakes(first: string, pieces: seq<string>, done: nat, k: nat)
    requires AllShown(pieces) && done <= k && FirstHalt(first, pieces, k)
    requires done > 0 ==> !IsCISCmdComplete(Taken(first, pieces, done)) || done == k
    ensures done == 0 || !IsCISCmdComplete(Taken(first, pieces, done)) ==>
              Absorb(pieces[done..], Taken(first, pieces, done), done) == Taken(first, pieces, k)
    decreases k - done
  {
    hide IsCISCmdComplete, QuotedContext, StopLine, TrimSpace;
    var acc := Taken(first, pieces, done);
    if done < |pieces| {
      assert pieces[done..][0] == pieces[done] && pieces[done..][1..] == pieces[done + 1..];
      assert pieces[done] in pieces;
      TrimMargins("", pieces[done], "");
      assert "" + pieces[done] + "" == pieces[done];
    }
    if done < k {
      assert !Halts(first, pieces, done);
      if done + 1 < k {
        assert !Halts(first, pieces, done + 1);
      }
      AbsorbTakes(first, pieces, done + 1, k);
      if IsCISCmdComplete(Taken(first, pieces, done + 1)) {
        assert Halts(first, pieces, done + 1);
      }
    }
  }

  lemma {:induction false} HaltFrom(first: string, pieces: seq<string>, j: nat) returns (k: nat)
    requires j <= |pieces| && forall i :: 0 <= i < j ==> !Halts(first, pieces, i)
    ensures FirstHalt(first, pieces, k)
    decreases |pieces| - j
  {
    hide IsCISCmdComplete, QuotedContext, StopLine, Taken;
    if Halts(first, pieces, j) {
      k := j;
    } else {
      k := HaltFrom(first, pieces, j + 1);
    }
  }

  /** The result is the command with its first k shown lines joined to it, where k is the first number at
      which joining halts. */
  lemma AbsorbMeaning(first: string, after: string) returns (k: nat)
    ensures var pieces := Shown(Split(after, '\n'));
            if IsCISCmdComplete(first) then Absorbed(first, after) == first
            else FirstHalt(first, pieces, k) && Absorbed(first, after) == Taken(first, pieces, k)
  {
    hide IsCISCmdComplete, QuotedContext, StopLine, TrimSpace, Halts;
    var lines := Split(after, '\n');
    var pieces := Shown(lines);
    k := HaltFrom(first, pieces, 0);
    BlanksIrrelevant(lines, first, 0);
    ShownIsShown(lines);
    assert pieces[0..] == pieces;
    AbsorbTakes(first, pieces, 0, k);
  }

  // ---------------------------------------------------------------- when a command is complete

  predicate Blank(c: char) {
    c == ' ' || c == '\t'
  }

  /** The last character that is no blank. */
  predicate LastShown(cmd: string, i: int) {
    0 <= i < |cmd| && !Blank(cmd[i]) && forall j :: i < j < |cmd| ==> Blank(cmd[j])
  }

  /** A whole command: quotes of both kinds are even in number, so that they cut it into an odd number of pieces,
      and the last character that is no blank, if there is one, neither continues the line nor waits for more. */
  ghost predicate Whole(cmd: string) {
    && |Split(cmd, '\'')| % 2 == 1 && |Split(cmd, '"')| % 2 == 1
    && forall i :: LastShown(cmd, i) ==> cmd[i] !in {'\\', '|', '&', '-'}
  }

  lemma {:induction false} CountIs(s: string, c: char)
    ensures |Split(s, c)| == Count(s, c) + 1
  {
    if s != "" {
      CountIs(s[1..], c);
    }
  }

  lemma {:induction false} DroppedEnd(s: string)
    ensures var t := DropBlanksRight(s);
            && (t == "" ==> forall i :: !LastShown(s, i))
            && (t != "" ==> forall i :: LastShown(s, i) <==> i == |t| - 1)
  {
    if s != "" && Blank(s[|s| - 1]) {
      DroppedEnd(s[..|s| - 1]);
      assert forall i :: LastShown(s, i) <==> LastShown(s[..|s| - 1], i);
    } else if s != "" {
      assert LastShown(s, |s| - 1);
    }
  }

  /** The converter takes exactly the whole commands as complete. */
  lemma CompleteMeans(cmd: string)
    ensures IsCISCmdComplete(cmd) <==> Whole(cmd)
  {
    hide Split, LastShown, DropBlanksRight, Count;
    CountIs(cmd, '\'');
    CountIs(cmd, '"');
    DroppedEnd(cmd);
    var t := DropBlanksRight(cmd);
    EndsInOne(t, '\\');
    EndsInOne(t, '|');
    EndsInOne(t, '&');
    EndsInOne(t, '-');
    EndsInTwo(t);
    hide EndsWith;
  }

  lemma EndsInOne(t: string, c: char)
    ensures EndsWith(t, [c]) <==> t != "" && t[|t| - 1] == c
  {
    if t != "" {
      assert t[|t| - 1..] == [t[|t| - 1]];
    }
  }

  lemma EndsInTwo(t: string)
    ensures EndsWith(t, "--") ==> t != "" && t[|t| - 1] == '-'
  {
    if EndsWith(t, "--") {
      assert t[|t| - 2..][1] == t[|t| - 1];
    }
  }

  /** A further line joins without a space where a quote is open. */
  lemma JoinedMeans(acc: string, piece: string)
    ensures Joined(acc, piece) ==
            if |Split(acc, '\'')| % 2 == 0 || |Split(acc, '"')| % 2 == 0 then acc + piece else acc + " " + piece
  {
    CountIs(acc, '\'');
    CountIs(acc, '"');
  }

  /** A whole first line is the command. Otherwise the command is the first line with the next k shown lines
      joined to it; when there is more to take it is whole, and no shorter join was, where there was more to
      take each time. */
  lemma AbsorbedIsWhole(first: string, after: string) returns (k: nat)
    ensures Whole(first) ==> Absorbed(first, after) == first
    ensures var pieces := Shown(Split(after, '\n'));
            !Whole(first) ==>
              && k <= |pieces| && Absorbed(first, after) == Taken(first, pieces, k)
              && (MoreToTake(first, pieces, k) ==> k > 0 && Whole(Taken(first, pieces, k)))
              && (forall j :: 0 <= j < k ==>
                    MoreToTake(first, pieces, j) && (j > 0 ==> !Whole(Taken(first, pieces, j))))
  {
    hide IsCISCmdComplete, Whole, QuotedContext, StopLine, Taken, Halts, Absorbed, MoreToTake;
    var pieces := Shown(Split(after, '\n'));
    k := AbsorbMeaning(first, after);
    CompleteMeans(first);
    if !Whole(first) {
      HaltsMeans(first, pieces, k);
      forall j | 0 <= j < k
        ensures MoreToTake(first, pieces, j) && (j > 0 ==> !Whole(Taken(first, pieces, j)))
      {
        HaltsMeans(first, pieces, j);
      }
    }
  }

  /** A shown line is left that is no stop line, and no limit is reached. */
  predicate MoreToTake(first: string, pieces: seq<string>, k: nat)
    requires k <= |pieces|
  {
    k < |pieces| && !StopLine(pieces[k]) && k < 8 && |Taken(first, pieces, k)| <= 4096
  }

  lemma HaltsMeans(first: string, pieces: seq<string>, k: nat)
    requires k <= |pieces|
    ensures Halts(first, pieces, k) <==>
              !MoreToTake(first, pieces, k) || (k > 0 && Whole(Taken(first, pieces, k)))
  {
    hide IsCISCmdComplete, Whole, StopLine, Taken;
    CompleteMeans(Taken(first, pieces, k));
  }

  // ---------------------------------------------------------------- cutting and joining

  /** Where line i of the command ends and line i + 1 starts: at the same place inside quotes, and around
      one space outside them. */
  function NextStart(cmd: string, cut: nat): nat
    requires cut <= |cmd|
  {
    if QuotedContext(cmd[..cut]) then cut else cut + 1
  }

  predicate CutOk(cmd: string, cut: nat) {
    && 0 < cut < |cmd| && !IsCISCmdComplete(cmd[..cut]) && cut <= MAX_LENGTH
    && (!QuotedContext(cmd[..cut]) ==> cmd[cut] == ' ')
  }

  /** The line between two cuts. */
  function Line(cmd: string, cuts: seq<nat>, i: nat): string
    requires 0 < i <= |cuts| && (forall j :: 0 <= j < |cuts| ==> cuts[j] <= |cmd|)
  {
    var from := NextStart(cmd, cuts[i - 1]);
    var to := if i < |cuts| then cuts[i] else |cmd|;
    if from <= to then cmd[from..to] else ""
  }

  /** Every cut leaves the command unfinished, and no line looks like the end of it. */
  predicate CutsOk(cmd: string, cuts: seq<nat>) {
    && 0 < |cuts| <= MAX_LINES
    && (forall j :: 0 <= j < |cuts| ==> CutOk(cmd, cuts[j]))
    && (forall i :: 1 <= i <= |cuts| ==> LineOk(cmd, cuts, i))
  }

  predicate LineOk(cmd: string, cuts: seq<nat>, i: nat)
    requires 0 < i <= |cuts| && (forall j :: 0 <= j < |cuts| ==> cuts[j] <= |cmd|)
  {
    var line := Line(cmd, cuts, i);
    line != "" && Trimmed(line) && !StopLine(line)
  }

  function Lines(cmd: string, cuts: seq<nat>): (ls: seq<string>)
    requires CutsOk(cmd, cuts)
    ensures |ls| == |cuts|
  {
    seq(|cuts|, i requires 0 <= i < |cuts| => Line(cmd, cuts, i + 1))
  }

  lemma PieceJoins(cmd: string, c: nat, to: nat)
    requires CutOk(cmd, c) && NextStart(cmd, c) <= to <= |cmd|
    ensures Joined(cmd[..c], cmd[NextStart(cmd, c)..to]) == cmd[..to]
  {
    hide QuotedContext, IsCISCmdComplete;
  }

  lemma {:induction false} TakenPrefix(cmd: string, cuts: seq<nat>, rest: seq<string>, k: nat)
    requires CutsOk(cmd, cuts) && k <= |cuts|
    ensures CutOk(cmd, cuts[0])
    ensures k < |cuts| ==> CutOk(cmd, cuts[k])
    ensures Taken(cmd[..cuts[0]], Lines(cmd, cuts) + rest, k) == cmd[..if k < |cuts| then cuts[k] else |cmd|]
  {
    hide QuotedContext, IsCISCmdComplete, StopLine, Trimmed, Joined;
    assert CutOk(cmd, cuts[0]);
    if k > 0 {
      TakenPrefix(cmd, cuts, rest, k - 1);
      assert LineOk(cmd, cuts, k);
      var to := if k < |cuts| then cuts[k] else |cmd|;
      assert (Lines(cmd, cuts) + rest)[k - 1] == Line(cmd, cuts, k);
      PieceJoins(cmd, cuts[k - 1], to);
    }
  }

  /** Any text in which the pieces of a cut command stand, line by line and with any blank lines and
      margins, gives the command back, whatever follows. */
  lemma CutThenAbsorb(cmd: string, cuts: seq<nat>, after: string, rest: seq<string>)
    requires CutsOk(cmd, cuts) && IsCISCmdComplete(cmd)
    requires Shown(Split(after, '\n')) == Lines(cmd, cuts) + rest
    ensures Absorbed(cmd[..cuts[0]], after) == cmd
  {
    hide QuotedContext, IsCISCmdComplete, StopLine, Trimmed, Absorbed, Line, Shown;
    var first := cmd[..cuts[0]];
    var pieces := Lines(cmd, cuts) + rest;
    var n := |cuts|;
    forall j | 0 <= j < n ensures !Halts(first, pieces, j) {
      TakenPrefix(cmd, cuts, rest, j);
      assert CutOk(cmd, cuts[j]);
      assert LineOk(cmd, cuts, j + 1);
      assert pieces[j] == Line(cmd, cuts, j + 1);
    }
    TakenPrefix(cmd, cuts, rest, n);
    assert cmd[..|cmd|] == cmd;
    assert Halts(first, pieces, n);
    assert CutOk(cmd, cuts[0]);
    var k := AbsorbMeaning(first, after);
    assert k == n;
  }
}
