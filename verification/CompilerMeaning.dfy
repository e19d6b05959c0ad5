/** When the emitted tests mean what the operators say: exact conditions, and what happens outside
    them. */
module CompilerMeaning {
  import opened Common
  import opened Conditions
  import opened PassLogic
  import opened Ros2
  import opened Shell
  import opened ShellLex
  import opened CompilerText
  import opened CompilerCorrect
  import opened TextSearch

  // ---------------------------------------------------------------- one condition

  /** The expected text of a search is taken as a search text: it is not an option, and for contains it
      is one non-empty line. */
  predicate PlainSearch(c: Condition) {
    && (IsSearch(c) ==> !IsOption(c.expected))
    && (ToLower(c.operator) == "contains" ==> c.expected != "" && '\n' !in c.expected)
  }

  /** For such a condition grep decides what the operator says. */
  lemma SearchMeaning(c: Condition, h: Host)
    requires Translatable(c) && IsSearch(c) && PlainSearch(c)
    ensures GrepMatches(GrepFlag(c), c.expected, Output(c, h), h) <==> Meets(c, Output(c, h), h)
  {
    MeetsText(c, Output(c, h), h);
    hide Meets, Translatable;
    StripStrips(h.output(RunText(c.command)));
    if ToLower(c.operator) == "contains" {
      FixedSearchMeaning(c.expected, Output(c, h));
    }
  }

  /** Text that fits into one write is never cut off. */
  lemma ShortDelivered(flag: string, pat: string, text: string, h: Host)
    requires |text| <= h.pipe
    ensures !CutOff(flag, pat, text, h)
  {
  }

  /** grep decides by lines: a match is a match of some line. */
  predicate LineMatches(c: Condition, line: string, h: Host) {
    if ToLower(c.operator) == "contains" then Contains(line, c.expected) else h.regex(c.expected, line)
  }

  /** A line before the last one matches. */
  predicate EarlyMatch(c: Condition, out: string, h: Host) {
    exists line :: line in EarlierLines(out) && LineMatches(c, line, h)
  }

  lemma MatchByLine(c: Condition, text: string, h: Host)
    requires IsSearch(c) && PlainSearch(c)
    ensures GrepMatches(GrepFlag(c), c.expected, text, h) <==>
            exists line :: line in Lines(text) && LineMatches(c, line, h)
  {
    if ToLower(c.operator) == "contains" {
      SplitAtom(c.expected, '\n');
      assert c.expected in Split(c.expected, '\n');
    }
  }

  /** No line before the last one matches, so grep has to read to the end. */
  lemma LateDelivered(c: Condition, out: string, h: Host)
    requires IsSearch(c) && PlainSearch(c) && !EarlyMatch(c, out, h)
    ensures !CutOff(GrepFlag(c), c.expected, out, h)
  {
    hide GrepMatches, LineMatches, WholeLines, EarlierLines, Lines;
    var k := h.leaves(GrepFlag(c), c.expected, out);
    if h.pipe <= k < |out| {
      FrontLines(out, k);
      MatchByLine(c, WholeLines(out[..k]), h);
    }
  }

  /** The same machine with a grep that leaves after k characters. */
  function LeavingAt(h: Host, k: nat): Host {
    h.(leaves := (flag, pat, text) => k)
  }

  /** A long output with an early match can be cut off. */
  lemma EarlyCutOff(c: Condition, out: string, h: Host)
    requires IsSearch(c) && PlainSearch(c) && Stripped(out) && |out| > h.pipe && EarlyMatch(c, out, h)
    ensures CutOff(GrepFlag(c), c.expected, out, LeavingAt(h, |out| - 1))
  {
    var h' := LeavingAt(h, |out| - 1);
    hide GrepMatches, WholeLines, EarlierLines, Lines;
    AllEarlierLines(out);
    MatchByLine(c, WholeLines(out[..|out| - 1]), h');
    var line :| line in EarlierLines(out) && LineMatches(c, line, h);
    assert LineMatches(c, line, h');
  }

  /** The output is at most one write long, or no line before the last matches. */
  predicate SafeOutput(c: Condition, h: Host) {
    IsSearch(c) ==> |Output(c, h)| <= h.pipe || !EarlyMatch(c, Output(c, h), h)
  }

  /** For a safe output the emitted test is the meaning, whenever grep leaves. */
  lemma SafeTest(c: Condition, h: Host)
    requires Translatable(c) && PlainSearch(c) && SafeOutput(c, h)
    ensures Tests(c, Output(c, h), h) <==> Meets(c, Output(c, h), h)
  {
    hide GrepMatches, CutOff, Meets, EarlyMatch, TextMeets;
    MeetsText(c, Output(c, h), h);
    if IsSearch(c) {
      SearchMeaning(c, h);
      if |Output(c, h)| <= h.pipe {
        ShortDelivered(GrepFlag(c), c.expected, Output(c, h), h);
      } else {
        LateDelivered(c, Output(c, h), h);
      }
    }
  }

  /** Whatever grep does, test and meaning agree: exactly when the output is safe. */
  lemma TestMeaning(c: Condition, h: Host)
    requires Translatable(c) && PlainSearch(c)
    ensures (forall k :: Tests(c, Output(c, h), LeavingAt(h, k)) <==> Meets(c, Output(c, h), h)) <==> SafeOutput(c, h)
  {
    var out := Output(c, h);
    hide GrepMatches, CutOff;
    StripStrips(h.output(RunText(c.command)));
    if SafeOutput(c, h) {
      forall k ensures Tests(c, out, LeavingAt(h, k)) <==> Meets(c, out, h) {
        SameFacts(c, h, k);
        SafeTest(c, LeavingAt(h, k));
      }
    } else {
      EarlyCutOff(c, out, h);
      SameFacts(c, h, |out| - 1);
      EarlyMeets(c, out, h);
      assert !Tests(c, out, LeavingAt(h, |out| - 1));
    }
  }

  /** When grep leaves changes nothing else. */
  lemma SameFacts(c: Condition, h: Host, k: nat)
    ensures Output(c, LeavingAt(h, k)) == Output(c, h) && LeavingAt(h, k).complete == h.complete
    ensures Meets(c, Output(c, h), LeavingAt(h, k)) <==> Meets(c, Output(c, h), h)
    ensures SafeOutput(c, LeavingAt(h, k)) <==> SafeOutput(c, h)
  {
    var h' := LeavingAt(h, k);
    assert h'.regex == h.regex && h'.output == h.output && h'.pipe == h.pipe;
    assert EarlyMatch(c, Output(c, h), h') <==> EarlyMatch(c, Output(c, h), h);
  }

  lemma EarlyMeets(c: Condition, out: string, h: Host)
    requires Translatable(c) && IsSearch(c) && PlainSearch(c) && Stripped(out) && EarlyMatch(c, out, h)
    ensures Meets(c, out, h)
  {
    MeetsText(c, out, h);
    hide Meets, Translatable;
    var line :| line in EarlierLines(out) && LineMatches(c, line, h);
    assert line in Split(out, '\n');
    assert out != "";
    if ToLower(c.operator) == "contains" {
      LineSearch(out, '\n', c.expected);
    }
  }

  // ---------------------------------------------------------------- the expected text

  /** The emitted search decides what the operator says, on every machine that takes the output in one
      write: exactly when the expected text is not an option and, for contains, is one line that is not empty. */
  lemma SearchTextExact(c: Condition)
    requires Translatable(c)
    ensures (forall h: Host :: |Output(c, h)| <= h.pipe ==> (Tests(c, Output(c, h), h) <==> Meets(c, Output(c, h), h)))
            <==> PlainSearch(c)
  {
    if PlainSearch(c) {
      forall h: Host | |Output(c, h)| <= h.pipe ensures Tests(c, Output(c, h), h) <==> Meets(c, Output(c, h), h) {
        SafeTest(c, h);
      }
    } else {
      var h := SearchTextFails(c);
      assert |Output(c, h)| <= h.pipe && !(Tests(c, Output(c, h), h) <==> Meets(c, Output(c, h), h));
    }
  }

  lemma SearchTextFails(c: Condition) returns (h: Host)
    requires Translatable(c) && !PlainSearch(c)
    ensures |Output(c, h)| <= h.pipe && !(Tests(c, Output(c, h), h) <==> Meets(c, Output(c, h), h))
  {
    if IsOption(c.expected) {
      h := Host(text => "", text => true, 0, (flag, pat, text) => 0, (pat, line) => false, (flag, pat, text) => true,
                (pat, text) => text, text => None);
      assert Output(c, h) == "";
      assert !Contains("", c.expected);
    } else {
      var out := SearchWitness(c.expected);
      h := Host(text => out, text => true, |out|, (flag, pat, text) => 0, (pat, line) => false,
                (flag, pat, text) => false, (pat, text) => text, text => None);
      StrippedStays(out);
      ShortDelivered(GrepFlag(c), c.expected, out, h);
      assert GrepMatches("-qF", c.expected, out, h) <==> FixedMatch(c.expected, out);
    }
  }

  lemma StrippedStays(out: string)
    requires Stripped(out)
    ensures StripNewlines(out) == out
  {
  }

  // ---------------------------------------------------------------- what is refused

  /** A number that stands in this relation to zero, or does not. */
  function NumberFor(op: string, want: bool): real {
    if op == "equals" || op == "gte" then (if want then 0.0 else -1.0)
    else if op == "gt" || op == "not_equals" then (if want then 1.0 else 0.0)
    else if op == "lt" then (if want then -1.0 else 0.0)
    else if want then 0.0 else 1.0
  }

  lemma NumberDecides(op: string, want: bool)
    requires op in NUMBER_OPERATORS || op == "equals" || op == "not_equals"
    ensures NumberMeets(op, NumberFor(op, want), 0.0) == want
  {
  }

  /** A text of which the operator holds, or does not; a regular expression is left to the machine. */
  function TextFor(op: string, expected: string, want: bool): string {
    if op == "empty" then (if want then "" else "x")
    else if op == "not_empty" then (if want then "x" else "")
    else if op == "equals" then (if want then expected else expected + "x")
    else if op == "not_equals" then (if want then expected + "x" else expected)
    else if op == "contains" then (if want then expected else "")
    else "x"
  }

  lemma OneLineText()
    ensures Lines("x") == ["x"]
  {
    SplitAtom("x", '\n');
  }

  lemma TextDecides(op: string, expected: string, want: bool, h: Host)
    requires op in TEXT_OPERATORS && (op == "contains" ==> expected != "")
    requires forall pat, line :: h.regex(pat, line) == want
    ensures TextMeets(op, TextFor(op, expected, want), expected, h) == want
  {
    OneLineText();
    hide Lines;
    if op == "contains" {
      assert OccursAt(expected, expected, 0);
    } else if op == "regex" {
      assert "x" in Lines("x");
    }
  }

  /** What is refused for its pattern or for its numbers no test of the output alone could decide: whatever it says of
      some output, there is a machine on which the condition says the opposite. (A pattern in front of a search for
      nothing at all is the exception.) */
  lemma NoTestDecides(c: Condition, test: string -> bool) returns (h: Host, out: string)
    requires ToLower(c.operator) in TEXT_OPERATORS + NUMBER_OPERATORS
    requires c.extractPattern != "" || ComparesNumbers(c)
    requires ToLower(c.operator) == "contains" ==> c.expected != ""
    ensures Meets(c, out, h) != test(out)
  {
    out := c.expected + "x";
    var op, want := ToLower(c.operator), !test(out);
    var text := if ComparesNumbers(c) then out else TextFor(op, c.expected, want);
    h := Host(s => out, s => true, 0, (flag, pat, s) => 0, (pat, line) => want, (flag, pat, s) => false,
              (pat, s) => text, s => Some(if s == c.expected then 0.0 else NumberFor(op, want)));
    hide ToLower, TextFor, TextMeets, NumberFor, NumberMeets;
    if ComparesNumbers(c) {
      NumberDecides(op, want);
    } else {
      TextDecides(op, c.expected, want, h);
    }
  }

  // ---------------------------------------------------------------- whole items

  /** Every search condition of the item has a safe output. */
  predicate SafeOutputs(conds: seq<Condition>, h: Host) {
    forall c :: c in conds ==> SafeOutput(c, h)
  }

  lemma {:induction false} HoldsSame(t: Tree, p: string -> bool, u: string -> bool, v: string -> bool)
    requires EveryLeaf(t, p) && forall id :: p(id) ==> u(id) == v(id)
    ensures Holds(t, u) == Holds(t, v)
  {
    match t
    case Cond(id) =>
    case All(kids) => forall k | k in kids ensures Holds(k, u) == Holds(k, v) { HoldsSame(k, p, u, v); }
    case Any(kids) => forall k | k in kids ensures Holds(k, u) == Holds(k, v) { HoldsSame(k, p, u, v); }
    case Neg(kid) => HoldsSame(kid, p, u, v);
  }

  lemma TestsAreMeanings(conds: seq<Condition>, t: Tree, h: Host)
    requires EveryLeaf(t, LeafOk(LeafOf(CondMap(conds, |conds|))))
    requires forall c :: c in conds ==> PlainSearch(c)
    requires SafeOutputs(conds, h)
    ensures Holds(t, TestsOf(conds, h)) == Holds(t, MeaningOf(conds, h))
  {
    var p := LeafOk(LeafOf(CondMap(conds, |conds|)));
    forall id | p(id) ensures TestsOf(conds, h)(id) == MeaningOf(conds, h)(id) {
      LastOneWins(conds, |conds|, id, h);
      SafeTest(CondMap(conds, |conds|)[id], h);
    }
    HoldsSame(t, p, TestsOf(conds, h), MeaningOf(conds, h));
  }

  /** Compiler correctness end to end: on every machine with safe outputs, the check made from an item
      passes exactly when the item is translated, its commands are whole, and its pass_logic tree is true of
      their outputs. */
  lemma CompilerCorrectness(it: Item, h: Host)
    requires it.audit.Some? ==>
      && (forall c :: c in it.audit.value.conditions ==> InFragment(c) && PlainSearch(c))
      && SafeOutputs(it.audit.value.conditions, h)
    ensures Verdict(ConvertItem(it).0, h) <==>
            && ConvertItem(it).1.NotDegraded?
            && CommandsComplete(it.audit.value.conditions, h)
            && TreeOf(it.audit.value.conditions, it.audit.value.passLogic).Some?
            && Holds(TreeOf(it.audit.value.conditions, it.audit.value.passLogic).value,
                     MeaningOf(it.audit.value.conditions, h))
  {
    ItemVerdict(it, h);
    if ConvertItem(it).1.NotDegraded? {
      var a := it.audit.value;
      AcceptedScripts(a.conditions, a.passLogic);
      TestsAreMeanings(a.conditions, TreeOf(a.conditions, a.passLogic).value, h);
    }
  }

  // ---------------------------------------------------------------- a lost match

  /** The check of the one-condition item passes, or fails, and its tree says the opposite. */
  predicate WrongVerdict(c: Condition, raw: RawLogic, passes: bool, h: Host) {
    && Verdict(ConvertItem(Item("R1", Some(Audit([c], raw)))).0, h) == passes
    && TreeOf([c], raw).Some? && Holds(TreeOf([c], raw).value, MeaningOf([c], h)) != passes
  }

  /** Where the output is longer than one write and a line before the last matches, there is a moment for
      grep to leave at which the verdict is wrong: a condition that holds fails, and its negation passes. */
  lemma LostMatch(c: Condition, raw: RawLogic, negated: bool, h: Host)
    requires InFragment(c) && Translatable(c) && PlainSearch(c) && IsSearch(c) && h.complete(RunText(c.command))
    requires |Output(c, h)| > h.pipe && EarlyMatch(c, Output(c, h), h)
    requires TreeOf([c], raw) == Some(if negated then Neg(Cond(c.id)) else Cond(c.id))
    ensures WrongVerdict(c, raw, negated, LeavingAt(h, |Output(c, h)| - 1))
  {
    hide InFragment, Translatable, PlainSearch, IsSearch, Output, EarlyMatch, TreeOf, Tests, Meets,
      WrongVerdict, LeavingAt;
    MeetsAndFails(c, h);
    SameFacts(c, h, |Output(c, h)| - 1);
    LostVerdict(c, raw, negated, LeavingAt(h, |Output(c, h)| - 1));
  }

  /** At that moment the operator holds and the emitted test fails. */
  lemma MeetsAndFails(c: Condition, h: Host)
    requires Translatable(c) && PlainSearch(c) && IsSearch(c)
    requires |Output(c, h)| > h.pipe && EarlyMatch(c, Output(c, h), h)
    ensures var h' := LeavingAt(h, |Output(c, h)| - 1);
            Meets(c, Output(c, h'), h') && !Tests(c, Output(c, h'), h')
  {
    hide GrepMatches, CutOff, LeavingAt, Meets, EarlyMatch, PlainSearch, Output, Tests, IsSearch, GrepFlag, SafeOutput;
    OutputStripped(c, h);
    SameFacts(c, h, |Output(c, h)| - 1);
    EarlyCutOff(c, Output(c, h), h);
    EarlyMeets(c, Output(c, h), h);
    CutOffFails(c, Output(c, h), LeavingAt(h, |Output(c, h)| - 1));
  }

  lemma CutOffFails(c: Condition, out: string, h: Host)
    requires IsSearch(c) && CutOff(GrepFlag(c), c.expected, out, h)
    ensures !Tests(c, out, h)
  {
    hide CutOff, GrepMatches;
  }

  lemma OutputStripped(c: Condition, h: Host)
    ensures Stripped(Output(c, h))
  {
    StripStrips(h.output(RunText(c.command)));
  }

  lemma LostVerdict(c: Condition, raw: RawLogic, negated: bool, h: Host)
    requires InFragment(c) && Translatable(c) && Meets(c, Output(c, h), h) && !Tests(c, Output(c, h), h)
    requires h.complete(RunText(c.command))
    requires TreeOf([c], raw) == Some(if negated then Neg(Cond(c.id)) else Cond(c.id))
    ensures WrongVerdict(c, raw, negated, h)
  {
    var it := Item("R1", Some(Audit([c], raw)));
    hide Meets, Tests, InFragment, Verdict;
    assert CondMap([c], 0) == map[];
    assert CondMap([c], 1) == map[c.id := c];
    AcceptedScripts([c], raw);
    assert LeafOk(LeafOf(CondMap([c], 1)))(c.id);
    ItemVerdict(it, h);
    assert Holds(TreeOf([c], raw).value, MeaningOf([c], h)) != negated;
    assert Verdict(ConvertItem(it).0, h) == negated;
  }

  /** A condition on the loaded modules. */
  const LSMOD := Condition("C1", "lsmod", "", "string", "contains", "cramfs")

  /** A line of the list that lsmod prints. */
  datatype Module = Module(name: string, size: string, users: string)

  predicate ModuleOk(m: Module) {
    '\n' !in m.name && '\n' !in m.size && '\n' !in m.users && m.users != ""
  }

  function Blanks(n: int): (s: string)
    ensures forall c :: c in s ==> c == ' '
  {
    seq(if n < 0 then 0 else n, i => ' ')
  }

  /** The columns are padded to 19 and 8 characters. */
  function ModuleLine(m: Module): string {
    m.name + (Blanks(19 - |m.name|) + " " + Blanks(8 - |m.size|) + m.size + "  " + m.users)
  }

  const LSMOD_HEADER := "Module                  Size  Used by"

  function ListLines(ms: seq<Module>): (ls: seq<string>)
    ensures |ls| == |ms| + 1
    ensures forall i :: 0 <= i < |ms| ==> ls[i + 1] == ModuleLine(ms[i])
  {
    [LSMOD_HEADER] + seq(|ms|, i requires 0 <= i < |ms| => ModuleLine(ms[i]))
  }

  /** The list without its final newline. */
  function ModuleList(ms: seq<Module>): string {
    Join(ListLines(ms), "\n")
  }

  lemma LineOk(m: Module)
    requires ModuleOk(m)
    ensures '\n' !in ModuleLine(m) && ModuleLine(m) != ""
  {
  }

  lemma HeaderOk()
    ensures '\n' !in LSMOD_HEADER
  {
  }

  lemma {:induction false} JoinStripped(lines: seq<string>)
    requires forall i :: 0 <= i < |lines| ==> '\n' !in lines[i]
    requires lines != [] && lines[|lines| - 1] != ""
    ensures Stripped(Join(lines, "\n")) && |Join(lines, "\n")| >= |lines|
  {
    if |lines| > 1 {
      JoinStripped(lines[1..]);
    }
  }

  lemma ListSplits(ms: seq<Module>)
    requires ms != [] && forall i :: 0 <= i < |ms| ==> ModuleOk(ms[i])
    ensures Stripped(ModuleList(ms)) && |ModuleList(ms)| > |ms|
    ensures EarlierLines(ModuleList(ms)) == ListLines(ms)[..|ms|]
  {
    var ls := ListLines(ms);
    HeaderOk();
    hide ModuleLine, ModuleOk, Stripped, Join;
    forall i | 0 <= i < |ls| ensures '\n' !in ls[i] && (i > 0 ==> ls[i] != "") {
      if i > 0 { LineOk(ms[i - 1]); }
    }
    JoinStripped(ls);
    SplitJoin(ls, '\n');
  }

  lemma NewlineStripped(out: string)
    requires Stripped(out)
    ensures StripNewlines(out + "\n") == out
  {
    assert (out + "\n")[..|out|] == out;
    StrippedStays(out);
  }

  /** A line with the name in it that is not the last. */
  lemma ListMatches(ms: seq<Module>, k: nat, h: Host)
    requires k + 1 < |ms| && ms[k].name == LSMOD.expected && forall i :: 0 <= i < |ms| ==> ModuleOk(ms[i])
    ensures EarlyMatch(LSMOD, ModuleList(ms), h)
  {
    LowerContains();
    ListSplits(ms);
    var line := ListLines(ms)[k + 1];
    hide ToLower, ModuleOk, ModuleList, ListLines, EarlierLines, Stripped;
    assert line == EarlierLines(ModuleList(ms))[k + 1];
    assert OccursAt(line, LSMOD.expected, 0);
    assert LineMatches(LSMOD, line, h);
  }

  /** Wherever the list of loaded modules is longer than one write and has the module anywhere but in its last
      line, there is a moment for grep to leave at which the condition holds and the check fails. */
  lemma LostInList(ms: seq<Module>, k: nat, h: Host)
    requires k + 1 < |ms| && ms[k].name == LSMOD.expected && forall i :: 0 <= i < |ms| ==> ModuleOk(ms[i])
    requires h.complete("lsmod 2>&1") && h.output("lsmod 2>&1") == ModuleList(ms) + "\n" && |ModuleList(ms)| > h.pipe
    ensures WrongVerdict(LSMOD, Absent, false, LeavingAt(h, |ModuleList(ms)| - 1))
  {
    hide ModuleList, ListLines, ModuleOk, EarlyMatch, WrongVerdict, InFragment, Translatable, PlainSearch, Holds,
      ToLower, LeavingAt, EarlierLines, Stripped, IsSearch, RunText, Output;
    LsmodFits();
    ListSplits(ms);
    ListMatches(ms, k, h);
    LsmodOutput(ms, h);
    LostMatch(LSMOD, Absent, false, h);
  }

  lemma LsmodOutput(ms: seq<Module>, h: Host)
    requires h.output("lsmod 2>&1") == ModuleList(ms) + "\n" && Stripped(ModuleList(ms))
    ensures Output(LSMOD, h) == ModuleList(ms)
  {
    LsmodText();
    hide ModuleList, RunText;
    NewlineStripped(ModuleList(ms));
  }

  /** Such a list: the module, and one more module for each character of a write. */
  function LongList(pipe: nat): (ms: seq<Module>)
    ensures |ms| == pipe + 2
  {
    [Module(LSMOD.expected, "49152", "0")]
    + seq(pipe + 1, i requires 0 <= i => Module(seq(i + 1, j => 'x'), "16384", "0"))
  }

  /** A machine of any length of a write has such a list. */
  lemma LostMatchExists(pipe: nat) returns (h: Host)
    ensures h.pipe == pipe && h.complete("lsmod 2>&1") && h.output("lsmod 2>&1") == ModuleList(LongList(pipe)) + "\n"
    ensures WrongVerdict(LSMOD, Absent, false, LeavingAt(h, |ModuleList(LongList(pipe))| - 1))
  {
    var ms := LongList(pipe);
    hide ModuleList, WrongVerdict, LeavingAt;
    assert forall i :: 0 <= i < |ms| ==> ModuleOk(ms[i]);
    hide LongList, ModuleOk;
    ListSplits(ms);
    h := Host(text => ModuleList(ms) + "\n", text => true, pipe, (flag, pat, text) => 0, (pat, line) => false,
              (flag, pat, text) => false, (pat, text) => text, text => None);
    LostInList(ms, 0, h);
  }

  lemma LsmodFits()
    ensures InFragment(LSMOD) && Translatable(LSMOD) && PlainSearch(LSMOD) && IsSearch(LSMOD)
    ensures RunText("lsmod") == "lsmod 2>&1" && ToLower("contains") == "contains"
  {
    LowerContains();
    LsmodName();
    LettersSelfContained("lsmod");
    LsmodPlain();
    LsmodText();
    hide ToLower, SelfContained, IsName, OutVar, PlainSearch, RunText;
  }

  lemma LsmodText()
    ensures RunText("lsmod") == "lsmod 2>&1"
  {
  }

  lemma LsmodPlain()
    ensures PlainSearch(LSMOD)
  {
    hide ToLower;
    assert '\n' !in "cramfs";
  }

  lemma LsmodName()
    ensures IsName(OutVar("C1"))
  {
    assert OutVar("C1") == "C1_OUT";
  }

  lemma LowerContains()
    ensures ToLower("contains") == "contains"
  {
  }

  lemma LettersSelfContained(text: string)
    requires forall c :: c in text ==> NameChar(c)
    ensures SelfContained(text)
  {
    LettersScan(text, ' ');
    assert text != "" ==> text[0] in text;
  }

  lemma {:induction false} LettersScan(text: string, prev: char)
    requires forall c :: c in text ==> NameChar(c)
    ensures AtTop(ScanRun(Code([], prev), text))
    decreases |text|
  {
    if text != "" {
      assert text[0] in text;
      assert ScanStep(Code([], prev), text[0]) == Code([], text[0]);
      LettersScan(text[1..], text[0]);
    }
  }
}
