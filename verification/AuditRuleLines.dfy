/** cmd/pack-tools/converter/cis_auditctl.go: the baseline's expected rules, collected from prose in which
    a rule may be wrapped over several lines. */
module AuditRuleLines {
  import opened Common
  import opened TextLines
  import opened AuditRules

  // ---------------------------------------------------------------- what a rule looks like

  function DropSpaces(s: string): string {
    if s != "" && ReSpace(s[0]) then DropSpaces(s[1..]) else s
  }

  const ACTIONS: seq<string> := ["always,", "never,"]
  const FILTERS: seq<string> := ["exit", "entry", "user", "task", "exclude"]

  predicate EndsWord(s: string, n: nat)
    requires n <= |s|
  {
    n == |s| || !(Letter(s[n]) || Digit(s[n]))
  }

  predicate Names(t: string, word: string) {
    StartsWith(t, word) && EndsWord(t, |word|)
  }

  /** regexpAuditctlRule: a file watch, or a list and an action. */
  predicate IsRuleLine(line: string) {
    |line| >= 3 && ReSpace(line[2]) &&
    var t := DropSpaces(line[2..]);
    || (StartsWith(line, "-w") && |t| >= 2 && t[0] == '/' && !ReSpace(t[1]))
    || (StartsWith(line, "-a") && exists a, f :: a in ACTIONS && f in FILTERS && Names(t, a + f))
  }

  // ---------------------------------------------------------------- collecting

  /** What the lines add to the rules collected so far. */
  function Collect(lines: seq<string>, rules: seq<string>): seq<string>
    decreases |lines|
  {
    if lines == [] then rules
    else
      var line := TrimSpace(lines[0]);
      if line == "" then (if rules == [] then Collect(lines[1..], rules) else rules)
      else if line[0] == '#' then rules
      else if IsRuleLine(line) then Collect(lines[1..], rules + [line])
      else if rules != [] && line[0] == '-' then
        Collect(lines[1..], rules[|rules| - 1 := rules[|rules| - 1] + " " + line])
      else rules
  }

  method CollectAuditRuleLines(block: string) returns (rules: seq<string>)
    ensures rules == Collect(Split(block, '\n'), [])
  {
    hide IsRuleLine, TrimSpace;
    rules := [];
    var lines := Split(block, '\n');
    assert lines[0..] == lines;
    for i := 0 to |lines|
      invariant Collect(lines[i..], rules) == Collect(lines, [])
    {
      assert lines[i..][1..] == lines[i + 1..];
      var line := TrimSpace(lines[i]);
      if line == "" {
        if |rules| > 0 {
          return;
        }
        continue;
      }
      if line[0] == '#' {
        return;
      }
      if IsRuleLine(line) {
        rules := rules + [line];
        continue;
      }
      if |rules| > 0 && line[0] == '-' {
        rules := rules[|rules| - 1 := rules[|rules| - 1] + " " + line];
        continue;
      }
      return;
    }
  }

  /** The lines of one rule: a rule line, then lines that start with a dash and are no rule. */
  predicate Wrapped(pieces: seq<string>) {
    && pieces != [] && IsRuleLine(TrimSpace(pieces[0])) && StartsDash(TrimSpace(pieces[0]))
    && forall i :: 1 <= i < |pieces| ==> StartsDash(TrimSpace(pieces[i])) && !IsRuleLine(TrimSpace(pieces[i]))
  }

  predicate StartsDash(line: string) {
    line != "" && line[0] == '-'
  }

  function TrimAll(pieces: seq<string>): (r: seq<string>)
    ensures |r| == |pieces|
  {
    if pieces == [] then [] else [TrimSpace(pieces[0])] + TrimAll(pieces[1..])
  }

  function Unwrapped(wrapped: seq<seq<string>>): seq<string> {
    if wrapped == [] then [] else [Join(TrimAll(wrapped[0]), " ")] + Unwrapped(wrapped[1..])
  }

  function Flat(wrapped: seq<seq<string>>): seq<string> {
    if wrapped == [] then [] else wrapped[0] + Flat(wrapped[1..])
  }

  /** Nothing after these lines is read. */
  predicate Stops(rest: seq<string>) {
    rest == [] || !StartsDash(TrimSpace(rest[0]))
  }

  lemma {:induction false} SkipBlanks(blanks: seq<string>, rest: seq<string>)
    requires forall b :: b in blanks ==> IsBlank(b)
    ensures Collect(blanks + rest, []) == Collect(rest, [])
  {
    hide IsRuleLine, TrimSpace;
    if blanks == [] {
      assert blanks + rest == rest;
    } else {
      assert (blanks + rest)[1..] == blanks[1..] + rest;
      assert blanks[0] in blanks;
      BlankTrims(blanks[0]);
      SkipBlanks(blanks[1..], rest);
    }
  }

  /** Continuation lines are joined to the last rule. */
  lemma {:induction false} JoinPieces(pieces: seq<string>, rest: seq<string>, rules: seq<string>, last: string)
    requires forall i :: 0 <= i < |pieces| ==>
               StartsDash(TrimSpace(pieces[i])) && !IsRuleLine(TrimSpace(pieces[i]))
    ensures Collect(pieces + rest, rules + [last])
            == Collect(rest, rules + [Join([last] + TrimAll(pieces), " ")])
    decreases |pieces|
  {
    hide IsRuleLine, TrimSpace;
    if pieces == [] {
      assert pieces + rest == rest;
      assert [last] + TrimAll(pieces) == [last];
    } else {
      var line := TrimSpace(pieces[0]);
      assert (pieces + rest)[0] == pieces[0] && (pieces + rest)[1..] == pieces[1..] + rest;
      assert (rules + [last])[|rules| := last + " " + line] == rules + [last + " " + line];
      JoinPieces(pieces[1..], rest, rules, last + " " + line);
      JoinShift(last, line, TrimAll(pieces[1..]));
    }
  }

  lemma JoinShift(a: string, b: string, rest: seq<string>)
    ensures Join([a] + ([b] + rest), " ") == Join([a + " " + b] + rest, " ")
  {
    var l := [b] + rest;
    assert ([a] + l)[1..] == l;
    assert l[1..] == rest;
    assert ([a + " " + b] + rest)[1..] == rest;
    if rest == [] {
      assert [a] + l == [a, b];
    }
  }

  lemma {:induction false} CollectWrapped(wrapped: seq<seq<string>>, rest: seq<string>, rules: seq<string>)
    requires (forall w :: w in wrapped ==> Wrapped(w)) && Stops(rest) && (rules != [] || wrapped != [])
    ensures Collect(Flat(wrapped) + rest, rules) == rules + Unwrapped(wrapped)
    decreases |wrapped|
  {
    hide TrimSpace, Unwrapped, Collect, Wrapped, Stops;
    if wrapped == [] {
      assert Flat(wrapped) + rest == rest;
      NoneLeft();
      Stopping(rest, rules);
      assert rules + [] == rules;
    } else {
      var w := wrapped[0];
      assert w in wrapped;
      var tail := Flat(wrapped[1..]) + rest;
      assert Flat(wrapped) + rest == w + tail;
      CollectOne(w, tail, rules);
      var joined := Join(TrimAll(w), " ");
      CollectWrapped(wrapped[1..], rest, rules + [joined]);
      OneUnwrapped(wrapped);
      assert rules + [joined] + Unwrapped(wrapped[1..]) == rules + ([joined] + Unwrapped(wrapped[1..]));
    }
  }

  /** One wrapped rule is collected whole. */
  lemma CollectOne(w: seq<string>, tail: seq<string>, rules: seq<string>)
    requires Wrapped(w)
    ensures Collect(w + tail, rules) == Collect(tail, rules + [Join(TrimAll(w), " ")])
  {
    var line := TrimSpace(w[0]);
    FirstPiece(w, tail, rules);
    assert forall i :: 0 <= i < |w[1..]| ==> w[1..][i] == w[i + 1];
    assert TrimAll(w) == [line] + TrimAll(w[1..]);
    hide Collect, TrimSpace, IsRuleLine, StartsDash, TrimAll;
    JoinPieces(w[1..], tail, rules, line);
  }

  lemma FirstPiece(w: seq<string>, tail: seq<string>, rules: seq<string>)
    requires Wrapped(w)
    ensures Collect(w + tail, rules) == Collect(w[1..] + tail, rules + [TrimSpace(w[0])])
  {
    hide TrimSpace, IsRuleLine;
    assert (w + tail)[0] == w[0] && (w + tail)[1..] == w[1..] + tail;
  }

  lemma NoneLeft()
    ensures Unwrapped([]) == []
  {
  }

  lemma OneUnwrapped(wrapped: seq<seq<string>>)
    requires wrapped != []
    ensures Unwrapped(wrapped) == [Join(TrimAll(wrapped[0]), " ")] + Unwrapped(wrapped[1..])
  {
  }

  lemma Stopping(rest: seq<string>, rules: seq<string>)
    requires Stops(rest) && rules != []
    ensures Collect(rest, rules) == rules
  {
    if rest != [] && TrimSpace(rest[0]) != "" {
      assert !IsRuleLine(TrimSpace(rest[0])) by {
        var line := TrimSpace(rest[0]);
        assert |line| >= 2 ==> line[..2][0] == line[0];
      }
    }
  }

  /** Rules wrapped over lines, after blank lines and before anything that does not start with a dash, are
      collected whole and in order. */
  lemma WrappedRulesCollected(blanks: seq<string>, wrapped: seq<seq<string>>, rest: seq<string>)
    requires (forall b :: b in blanks ==> IsBlank(b)) && wrapped != []
    requires (forall w :: w in wrapped ==> Wrapped(w)) && Stops(rest)
    ensures Collect(blanks + Flat(wrapped) + rest, []) == Unwrapped(wrapped)
  {
    hide Wrapped, Stops, IsBlank;
    assert blanks + Flat(wrapped) + rest == blanks + (Flat(wrapped) + rest);
    SkipBlanks(blanks, Flat(wrapped) + rest);
    CollectWrapped(wrapped, rest, []);
    assert [] + Unwrapped(wrapped) == Unwrapped(wrapped);
  }

  /** What is left when no rule has been collected: nothing, or a line that is not blank and no rule. */
  predicate NoRuleAhead(rest: seq<string>) {
    rest != [] ==> TrimSpace(rest[0]) != "" && (TrimSpace(rest[0])[0] == '#' || !IsRuleLine(TrimSpace(rest[0])))
  }

  lemma RuleStartsDash(line: string)
    requires IsRuleLine(line)
    ensures StartsDash(line)
  {
    assert line[..2][0] == line[0];
  }

  lemma {:induction false} TakePieces(lines: seq<string>) returns (pieces: seq<string>, rest: seq<string>)
    ensures lines == pieces + rest
    ensures forall i :: 0 <= i < |pieces| ==> StartsDash(TrimSpace(pieces[i])) && !IsRuleLine(TrimSpace(pieces[i]))
    ensures rest == [] || !StartsDash(TrimSpace(rest[0])) || IsRuleLine(TrimSpace(rest[0]))
  {
    hide IsRuleLine, TrimSpace, StartsDash;
    if lines == [] || !StartsDash(TrimSpace(lines[0])) || IsRuleLine(TrimSpace(lines[0])) {
      pieces, rest := [], lines;
    } else {
      pieces, rest := TakePieces(lines[1..]);
      pieces := [lines[0]] + pieces;
      assert lines == [lines[0]] + lines[1..];
    }
  }

  lemma {:induction false} TakeRules(lines: seq<string>) returns (wrapped: seq<seq<string>>, rest: seq<string>)
    ensures lines == Flat(wrapped) + rest && forall w :: w in wrapped ==> Wrapped(w)
    ensures rest == [] || !IsRuleLine(TrimSpace(rest[0]))
    ensures wrapped != [] ==> Stops(rest)
    ensures wrapped == [] ==> rest == lines
    decreases |lines|
  {
    hide IsRuleLine, TrimSpace, StartsDash;
    if lines == [] || !IsRuleLine(TrimSpace(lines[0])) {
      wrapped, rest := [], lines;
    } else {
      RuleStartsDash(TrimSpace(lines[0]));
      var pieces, tail := TakePieces(lines[1..]);
      wrapped, rest := TakeRules(tail);
      var w := [lines[0]] + pieces;
      assert forall i :: 1 <= i < |w| ==> w[i] == pieces[i - 1];
      wrapped := [w] + wrapped;
      assert Flat(wrapped) == w + Flat(wrapped[1..]);
      assert lines == [lines[0]] + (pieces + tail);
    }
  }

  lemma {:induction false} TakeBlanks(lines: seq<string>) returns (blanks: seq<string>, rest: seq<string>)
    ensures lines == blanks + rest && forall b :: b in blanks ==> TrimSpace(b) == ""
    ensures rest == [] || TrimSpace(rest[0]) != ""
  {
    hide TrimSpace;
    if lines == [] || TrimSpace(lines[0]) != "" {
      blanks, rest := [], lines;
    } else {
      blanks, rest := TakeBlanks(lines[1..]);
      blanks := [lines[0]] + blanks;
      assert lines == [lines[0]] + lines[1..];
    }
  }

  lemma {:induction false} SkipEmpty(blanks: seq<string>, rest: seq<string>)
    requires forall b :: b in blanks ==> TrimSpace(b) == ""
    ensures Collect(blanks + rest, []) == Collect(rest, [])
  {
    hide IsRuleLine, TrimSpace;
    if blanks == [] {
      assert blanks + rest == rest;
    } else {
      assert (blanks + rest)[1..] == blanks[1..] + rest;
      assert blanks[0] in blanks;
      SkipEmpty(blanks[1..], rest);
    }
  }

  /** Every list of lines is some blank lines, then wrapped rules, then the rest; the rules are what is collected.
      The rest starts with no wrapped line and, where there are no rules, with no rule and no blank line. */
  lemma CollectMeans(lines: seq<string>)
    returns (blanks: seq<string>, wrapped: seq<seq<string>>, rest: seq<string>)
    ensures lines == blanks + Flat(wrapped) + rest && forall b :: b in blanks ==> TrimSpace(b) == ""
    ensures forall w :: w in wrapped ==> Wrapped(w)
    ensures if wrapped == [] then NoRuleAhead(rest) else Stops(rest)
    ensures Collect(lines, []) == Unwrapped(wrapped)
  {
    hide IsRuleLine, TrimSpace, Collect, StartsDash, Wrapped, Flat, Unwrapped, Stops;
    var shown;
    blanks, shown := TakeBlanks(lines);
    wrapped, rest := TakeRules(shown);
    assert lines == blanks + Flat(wrapped) + rest;
    SkipEmpty(blanks, shown);
    if wrapped == [] {
      NothingAhead(shown);
      NoneLeft();
    } else {
      CollectWrapped(wrapped, rest, []);
      assert [] + Unwrapped(wrapped) == Unwrapped(wrapped);
    }
  }

  lemma NothingAhead(rest: seq<string>)
    requires NoRuleAhead(rest)
    ensures Collect(rest, []) == []
  {
    hide IsRuleLine, TrimSpace;
  }

  /** A rule's first line: a watch of a path, or a list and an action that end a word; white space stands between. */
  lemma RuleLineMeans(line: string)
    ensures IsRuleLine(line) <==>
            exists gap, t :: HasGap(line, gap, t) && (WatchesPath(line, t) || NamesAction(line, t))
  {
    hide Names, ReSpace;
    if |line| >= 3 && ReSpace(line[2]) {
      var t := DropSpaces(line[2..]);
      var gap := DroppedSpaces(line[2..]);
      assert line == line[..2] + (gap + t);
      assert HasGap(line, gap, t);
    }
    forall gap, t | HasGap(line, gap, t) ensures |line| >= 3 && ReSpace(line[2]) && DropSpaces(line[2..]) == t {
      assert line[2..] == gap + t && gap[0] == line[2];
      SpacesDropped(gap, t);
    }
    hide DropSpaces, HasGap, StartsWith, WordChar;
    forall t, word ensures Names(t, word) <==> StartsWith(t, word) && (|t| > |word| ==> !WordChar(t[|word|])) {
      NamesMeans(t, word);
    }
    ActionWords();
    hide ACTIONS, FILTERS;
  }

  predicate HasGap(line: string, gap: string, t: string) {
    && |line| >= 2 && line == line[..2] + (gap + t)
    && gap != "" && (forall c :: c in gap ==> ReSpace(c)) && (t == "" || !ReSpace(t[0]))
  }

  predicate WatchesPath(line: string, t: string) {
    StartsWith(line, "-w") && |t| >= 2 && t[0] == '/' && !ReSpace(t[1])
  }

  predicate NamesAction(line: string, t: string) {
    && StartsWith(line, "-a")
    && exists a, f :: a in {"always,", "never,"} && f in {"exit", "entry", "user", "task", "exclude"}
                      && StartsWith(t, a + f) && (|t| > |a + f| ==> !WordChar(t[|a + f|]))
  }

  predicate WordChar(c: char) {
    AsciiLetter(c) || AsciiDigit(c) || c == '_'
  }

  lemma NamesMeans(t: string, word: string)
    ensures Names(t, word) <==> StartsWith(t, word) && (|t| > |word| ==> !WordChar(t[|word|]))
  {
    if |t| > |word| {
      ClassesMean(t[|word|]);
    }
  }

  lemma ActionWords()
    ensures forall a :: a in ACTIONS <==> a in {"always,", "never,"}
    ensures forall f :: f in FILTERS <==> f in {"exit", "entry", "user", "task", "exclude"}
  {
    assert ACTIONS[0] == "always," && ACTIONS[1] == "never,";
    assert FILTERS[0] == "exit" && FILTERS[1] == "entry" && FILTERS[2] == "user" && FILTERS[3] == "task";
    assert FILTERS[4] == "exclude";
  }

  lemma {:induction false} DroppedSpaces(s: string) returns (gap: string)
    ensures s == gap + DropSpaces(s) && forall c :: c in gap ==> ReSpace(c)
    ensures s != "" && ReSpace(s[0]) ==> gap != ""
    ensures DropSpaces(s) == "" || !ReSpace(DropSpaces(s)[0])
  {
    hide ReSpace;
    if s != "" && ReSpace(s[0]) {
      gap := DroppedSpaces(s[1..]);
      gap := [s[0]] + gap;
      assert s == [s[0]] + s[1..];
    } else {
      gap := "";
    }
  }

  lemma {:induction false} SpacesDropped(gap: string, t: string)
    requires (forall c :: c in gap ==> ReSpace(c)) && (t == "" || !ReSpace(t[0]))
    ensures DropSpaces(gap + t) == t
  {
    hide ReSpace;
    if gap == "" {
      assert gap + t == t;
    } else {
      assert gap[0] in gap;
      assert (gap + t)[1..] == gap[1..] + t;
      SpacesDropped(gap[1..], t);
    }
  }

  // ---------------------------------------------------------------- the two blocks

  /** Where the phrase that announces expected output starts and ends. */
  datatype Mark = Mark(start: nat, end: nat)

  predicate MarksOk(marks: seq<Mark>, audit: string) {
    && (forall i :: 0 <= i < |marks| ==> marks[i].start < marks[i].end <= |audit|)
    && (forall i, j :: 0 <= i < j < |marks| ==> marks[i].end <= marks[j].start)
  }

  /** The text after mark i, without a colon, up to the next mark. */
  function Block(audit: string, marks: seq<Mark>, i: nat): string
    requires MarksOk(marks, audit) && i < |marks|
  {
    var from := marks[i].end;
    var start := if from < |audit| && audit[from] == ':' then from + 1 else from;
    var end := if i + 1 < |marks| then marks[i + 1].start else |audit|;
    if start <= end then audit[start..end] else ""
  }

  /** The text is its part in front of the mark's end, a colon if there is one, the block, and what starts with the
      next mark. */
  lemma BlockMeans(audit: string, marks: seq<Mark>, i: nat) returns (front: string, back: string)
    requires MarksOk(marks, audit) && i < |marks|
    ensures |front| == marks[i].end
    ensures |back| == if i + 1 < |marks| then |audit| - marks[i + 1].start else 0
    ensures var block := Block(audit, marks, i);
            || audit == front + ":" + block + back
            || (audit == front + block + back && !StartsWith(block, ":"))
  {
    var end := if i + 1 < |marks| then marks[i + 1].start else |audit|;
    front, back := audit[..marks[i].end], audit[end..];
    var from := marks[i].end;
    var block := Block(audit, marks, i);
    if from < end && audit[from] == ':' {
      assert audit == front + ":" + block + back;
    } else {
      assert from <= end;
      assert audit == front + block + back;
    }
  }

  function Expected(audit: string, marks: seq<Mark>, i: nat): seq<string>
    requires MarksOk(marks, audit) && i < |marks|
  {
    Collect(Split(Block(audit, marks, i), '\n'), [])
  }

  method ExtractAuditctlExpectedRules(audit: string, marks: seq<Mark>)
    returns (onDisk: seq<string>, running: seq<string>, ok: bool)
    requires MarksOk(marks, audit)
    ensures ok <==> |marks| >= 2 && Expected(audit, marks, 0) != [] && Expected(audit, marks, 1) != []
    ensures ok ==> onDisk == Expected(audit, marks, 0) && running == Expected(audit, marks, 1)
  {
    if |marks| < 2 {
      return [], [], false;
    }
    var blocks: seq<string> := [];
    for i := 0 to |marks|
      invariant |blocks| == i && forall k :: 0 <= k < i ==> blocks[k] == Block(audit, marks, k)
    {
      blocks := blocks + [Block(audit, marks, i)];
    }
    onDisk := CollectAuditRuleLines(blocks[0]);
    running := CollectAuditRuleLines(blocks[1]);
    if onDisk == [] || running == [] {
      return [], [], false;
    }
    ok := true;
  }

  /** The rules the script needs: every extracted rule, normalised in its place. */
  method NeededRules(audit: string, marks: seq<Mark>)
    returns (needDisk: seq<string>, needRun: seq<string>, ok: bool)
    requires MarksOk(marks, audit)
    ensures ok <==> |marks| >= 2 && Expected(audit, marks, 0) != [] && Expected(audit, marks, 1) != []
    ensures ok ==> AllNormal(needDisk, Expected(audit, marks, 0)) && AllNormal(needRun, Expected(audit, marks, 1))
  {
    needDisk, needRun, ok := ExtractAuditctlExpectedRules(audit, marks);
    if !ok {
      return;
    }
    needDisk := NormalizeInPlace(needDisk);
    needRun := NormalizeInPlace(needRun);
  }

  predicate AllNormal(out: seq<string>, rules: seq<string>) {
    |out| == |rules| && forall i :: 0 <= i < |rules| ==> out[i] == NormalizeAuditctlRule(rules[i])
  }

  method NormalizeInPlace(rules: seq<string>) returns (out: seq<string>)
    ensures AllNormal(out, rules)
  {
    out := rules;
    for i := 0 to |rules|
      invariant |out| == |rules|
      invariant forall k :: 0 <= k < i ==> out[k] == NormalizeAuditctlRule(rules[k])
      invariant forall k :: i <= k < |rules| ==> out[k] == rules[k]
    {
      out := out[i := NormalizeAuditctlRule(out[i])];
    }
  }
}
