/** The compiled script decides the pass_logic tree: what it writes, for every machine. */
module CompilerCorrect {
  import opened Common
  import opened Conditions
  import opened PassLogic
  import opened Ros2
  import opened Shell
  import opened ShellLex
  import opened ShellParse
  import opened CompilerText

  // ---------------------------------------------------------------- meanings

  /** What the shell sees in a condition's variable. */
  function Output(c: Condition, h: Host): string {
    StripNewlines(h.output(RunText(c.command)))
  }

  /** The meaning of an operator on a text. */
  predicate TextMeets(op: string, text: string, expected: string, h: Host) {
    if op == "empty" then text == ""
    else if op == "not_empty" then text != ""
    else if op == "equals" then text == expected
    else if op == "not_equals" then text != expected
    else if op == "contains" then Contains(text, expected)
    else op == "regex" && exists line :: line in Lines(text) && h.regex(expected, line)
  }

  predicate NumberMeets(op: string, n: real, expected: real) {
    if op == "equals" then n == expected
    else if op == "not_equals" then n != expected
    else if op == "gt" then n > expected
    else if op == "gte" then n >= expected
    else if op == "lt" then n < expected
    else op == "lte" && n <= expected
  }

  predicate ComparesNumbers(c: Condition) {
    || ToLower(c.operator) in {"gt", "gte", "lt", "lte"}
    || (c.valueType == "number" && ToLower(c.operator) in {"equals", "not_equals"})
  }

  /** The meaning of a condition: its pattern, if there is one, takes a text out of the output, and its
      operator looks at that text or at the number it stands for. */
  predicate Meets(c: Condition, out: string, h: Host) {
    var text := if c.extractPattern == "" then out else h.extract(c.extractPattern, out);
    if ComparesNumbers(c) then
      var n, expected := h.number(text), h.number(c.expected);
      n.Some? && expected.Some? && NumberMeets(ToLower(c.operator), n.value, expected.value)
    else TextMeets(ToLower(c.operator), text, c.expected, h)
  }

  /** What has a test depends on the output as a whole only. */
  lemma MeetsText(c: Condition, out: string, h: Host)
    requires Translatable(c)
    ensures Meets(c, out, h) <==> TextMeets(ToLower(c.operator), out, c.expected, h)
    ensures IsSearch(c) ==> (ToLower(c.operator) == "contains" || ToLower(c.operator) == "regex")
  {
    TranslatedExact(c);
    hide ToLower, TextMeets, NumberMeets;
  }

  /** What the emitted test decides on an output. Of the two searches printf must not be cut off, and grep must
      find a match by its own rules. */
  predicate Tests(c: Condition, out: string, h: Host) {
    if IsSearch(c) then !CutOff(GrepFlag(c), c.expected, out, h) && GrepMatches(GrepFlag(c), c.expected, out, h)
    else TextMeets(ToLower(c.operator), out, c.expected, h)
  }

  // ---------------------------------------------------------------- expansion

  lemma {:induction false} ExpandPlain(s: string, vars: map<string, string>, h: Host)
    ensures Expand(Plain(s), vars, h) == s
    decreases |s|
  {
    if s != "" {
      ExpandPlain(s[1..], vars, h);
      assert Plain(s)[1..] == Plain(s[1..]);
    }
  }

  lemma {:induction false} ExpandQuoted(s: string, vars: map<string, string>, h: Host)
    ensures Expand(Quoted(s), vars, h) == s
    decreases |s|
  {
    if s != "" {
      ExpandQuoted(s[1..], vars, h);
      assert Quoted(s)[1..] == Quoted(s[1..]);
    }
  }

  lemma ExpandOne(e: Elem, vars: map<string, string>, h: Host)
    ensures Expand([e], vars, h) == ExpandElem(e, vars, h)
  {
    assert [e][1..] == [];
    assert ExpandElem(e, vars, h) + "" == ExpandElem(e, vars, h);
  }

  // ---------------------------------------------------------------- one leaf

  /** The arguments of the test utility, without the brackets. */
  function Operands(c: Condition, v: string): (args: seq<string>)
    ensures 2 <= |args| <= 3
  {
    var op := ToLower(c.operator);
    if op == "empty" then ["-z", v] else if op == "not_empty" then ["-n", v]
    else if op == "equals" then [v, "=", c.expected] else [v, "!=", c.expected]
  }

  lemma TestArgs(c: Condition, env: Env, h: Host)
    requires Translatable(c) && !IsSearch(c) && OutVar(c.id) in env.vars
    ensures ExpandAll(TestWords(c), env.vars, h) == ["["] + Operands(c, env.vars[OutVar(c.id)]) + ["]"]
  {
    hide ToLower, OutVar;
    ExpandOne(Var(OutVar(c.id)), env.vars, h);
    ExpandQuoted(c.expected, env.vars, h);
    ExpandPlain("[", env.vars, h);
    ExpandPlain("]", env.vars, h);
    ExpandPlain("-z", env.vars, h);
    ExpandPlain("-n", env.vars, h);
    ExpandPlain("=", env.vars, h);
    ExpandPlain("!=", env.vars, h);
  }

  /** What the test utility decides on each operator's arguments. */
  lemma TestDecides(c: Condition, v: string, h: Host)
    requires Translatable(c) && !IsSearch(c)
    ensures Tests(c, v, h) <==> TestHolds(Operands(c, v))
  {
    hide ToLower;
  }

  lemma TestRuns(c: Condition, env: Env, h: Host)
    requires Translatable(c) && !IsSearch(c)
    requires OutVar(c.id) in env.vars
    ensures Exec(LeafNode(c), env, "", h)
            == Outcome(env, "", Tests(c, env.vars[OutVar(c.id)], h))
  {
    assert LeafNode(c) == Simple(TestWords(c));
    hide ToLower, OutVar, Tests, TestHolds, RunUtility, ExpandAll,
      Translatable, IsSearch, TestWords, LeafNode, Operands, Exec;
    var inner := Operands(c, env.vars[OutVar(c.id)]);
    TestArgs(c, env, h);
    TestDecides(c, env.vars[OutVar(c.id)], h);
    BracketRuns(inner, env, h);
    UtilityRuns(TestWords(c), env, h);
  }

  lemma BracketRuns(inner: seq<string>, env: Env, h: Host)
    ensures RunUtility(["["] + inner + ["]"], env, "", h) == Outcome(env, "", TestHolds(inner))
  {
    hide TestHolds;
    var args := ["["] + inner + ["]"];
    assert args[1..|args| - 1] == inner;
  }

  lemma UtilityRuns(ws: seq<Word>, env: Env, h: Host)
    requires |ws| > 1
    ensures Exec(Simple(ws), env, "", h) == RunUtility(ExpandAll(ws, env.vars, h), env, "", h)
  {
    hide RunUtility, ExpandAll;
  }

  lemma SearchRuns(c: Condition, env: Env, h: Host)
    requires Translatable(c) && IsSearch(c) && env.pipefail
    requires OutVar(c.id) in env.vars
    ensures Exec(LeafNode(c), env, "", h)
            == Outcome(env, "", Tests(c, env.vars[OutVar(c.id)], h))
  {
    var v := env.vars[OutVar(c.id)];
    var n := LeafNode(c);
    ExpandPlain("printf", env.vars, h);
    ExpandQuoted("%s", env.vars, h);
    ExpandOne(Var(OutVar(c.id)), env.vars, h);
    ExpandPlain("grep", env.vars, h);
    ExpandPlain(GrepFlag(c), env.vars, h);
    ExpandQuoted(c.expected, env.vars, h);
    assert ExpandAll(PrintWords(c), env.vars, h) == ["printf", "%s", v];
    assert ExpandAll(GrepWords(c), env.vars, h) == ["grep", GrepFlag(c), c.expected];
    hide CutOff, GrepMatches;
    assert Exec(n.parts[0], env, "", h) == Outcome(env, v, true);
    assert Exec(n.parts[1], env, v, h)
        == Outcome(env, "", GrepMatches(GrepFlag(c), c.expected, v, h));
    assert ReaderLeaves(n.parts[1], env, v, h) == CutOff(GrepFlag(c), c.expected, v, h);
    assert ExecPipe(n, 1, env, v, h).0 == "";
  }

  lemma LeafRuns(c: Condition, env: Env, h: Host)
    requires Translatable(c) && env.pipefail && OutVar(c.id) in env.vars
    ensures Exec(LeafNode(c), env, "", h)
            == Outcome(env, "", Tests(c, env.vars[OutVar(c.id)], h))
  {
    if IsSearch(c) {
      SearchRuns(c, env, h);
    } else {
      TestRuns(c, env, h);
    }
  }

  // ---------------------------------------------------------------- trees

  /** Compiled meaning is tree meaning: if every leaf decides val and writes nothing, so does the
      command of the whole tree. */
  lemma {:induction false} TreeRuns(t: Tree, p: string -> bool, node: string -> Node,
                                    val: string -> bool, env: Env, h: Host)
    requires Proper(t) && EveryLeaf(t, p)
    requires forall id :: p(id) ==> Exec(node(id), env, "", h) == Outcome(env, "", val(id))
    ensures Exec(TreeNode(t, node), env, "", h) == Outcome(env, "", Holds(t, val))
    decreases t, 1, 0
  {
    match t
    case Cond(id) =>
    case All(kids) => ChainRuns(t, |kids|, p, node, val, env, h); FirstHoldMeans(t, |kids|, val);
    case Any(kids) => ChainRuns(t, |kids|, p, node, val, env, h); FirstHoldMeans(t, |kids|, val);
    case Neg(kid) => TreeRuns(kid, p, node, val, env, h);
  }

  /** Whether all, or any, of the first n children hold. */
  predicate FirstHold(t: Tree, n: nat, val: string -> bool)
    requires (t.All? || t.Any?) && 1 <= n <= |t.kids|
  {
    var last := Holds(t.kids[n - 1], val);
    if n == 1 then last
    else if t.All? then FirstHold(t, n - 1, val) && last
    else FirstHold(t, n - 1, val) || last
  }

  lemma {:induction false} FirstHoldMeans(t: Tree, n: nat, val: string -> bool)
    requires (t.All? || t.Any?) && 1 <= n <= |t.kids|
    ensures t.All? ==> (FirstHold(t, n, val) <==> forall i :: 0 <= i < n ==> Holds(t.kids[i], val))
    ensures t.Any? ==> (FirstHold(t, n, val) <==> exists i :: 0 <= i < n && Holds(t.kids[i], val))
  {
    if n > 1 {
      FirstHoldMeans(t, n - 1, val);
    }
  }

  function OpOf(t: Tree): Token {
    if t.All? then AndIf else OrIf
  }

  lemma {:induction false} ChainRuns(t: Tree, n: nat, p: string -> bool, node: string -> Node,
                                     val: string -> bool, env: Env, h: Host)
    requires t.All? || t.Any?
    requires Proper(t) && EveryLeaf(t, p) && 1 <= n <= |t.kids|
    requires forall id :: p(id) ==> Exec(node(id), env, "", h) == Outcome(env, "", val(id))
    ensures Exec(ChainNode(KidNodes(t.kids, node), n, OpOf(t)), env, "", h)
            == Outcome(env, "", FirstHold(t, n, val))
    decreases t, 0, n
  {
    hide Holds, TreeNode, Exec;
    var kid := t.kids[n - 1];
    TreeRuns(kid, p, node, val, env, h);
    GroupRuns(TreeNode(kid, node), env, Holds(kid, val), h);
    if n > 1 {
      ChainRuns(t, n - 1, p, node, val, env, h);
      BothRun(ChainNode(KidNodes(t.kids, node), n - 1, OpOf(t)), Group(TreeNode(kid, node)), env,
              FirstHold(t, n - 1, val), Holds(kid, val), h);
    }
  }

  lemma GroupRuns(n: Node, env: Env, a: bool, h: Host)
    requires Exec(n, env, "", h) == Outcome(env, "", a)
    ensures Exec(Group(n), env, "", h) == Outcome(env, "", a)
  {
  }

  lemma BothRun(l: Node, r: Node, env: Env, a: bool, b: bool, h: Host)
    requires Exec(l, env, "", h) == Outcome(env, "", a) && Exec(r, env, "", h) == Outcome(env, "", b)
    ensures Exec(And(l, r), env, "", h) == Outcome(env, "", a && b)
    ensures Exec(Or(l, r), env, "", h) == Outcome(env, "", a || b)
  {
    assert "" + "" == "";
  }

  // ---------------------------------------------------------------- the script, as text

  const SET_WORDS: seq<Word> := [Plain("set"), Plain("-o"), Plain("pipefail")]
  const SET_TOKENS: seq<Token> := WordTokens(SET_WORDS) + [Semi]

  function AssignWord(c: Condition): Word {
    Plain(OutVar(c.id) + "=") + [Subst(RunText(c.command))]
  }

  function AssignTokens(conds: seq<Condition>, n: nat): seq<Token>
    requires n <= |conds|
  {
    if n == 0 then [] else AssignTokens(conds, n - 1) + [W(AssignWord(conds[n - 1])), Semi]
  }

  lemma SetLexes(done: seq<Token>)
    ensures Run(Gap(done), "set -o pipefail; ") == Gap(done + SET_TOKENS)
  {
    WordLexes("set");
    WordLexes("-o");
    WordLexes("pipefail");
    Spaced3("set", W(Plain("set")), "-o", W(Plain("-o")), "pipefail", W(Plain("pipefail")));
    var a := "set" + " " + "-o" + " " + "pipefail";
    var ta := [W(Plain("set")), W(Plain("-o")), W(Plain("pipefail"))];
    assert ta == WordTokens(SET_WORDS);
    assert "set -o pipefail; " == a + "; ";
    RunFrom(done, a, ta, "; ");
    AfterBlank(Run(Gap(done), a), done + ta);
    RunTwo(Run(Gap(done), a), ';', ' ');
    assert done + ta + [Semi] == done + SET_TOKENS;
  }

  lemma SetupStep(done: seq<Token>, c: Condition)
    requires InFragment(c)
    ensures Run(Gap(done), ConditionSetupLine(c) + "; ") == Gap(done + [W(AssignWord(c)), Semi])
  {
    RunAppend(Gap(done), ConditionSetupLine(c), "; ");
    RunSetupLine(done, c);
    RunTwo(Bare(done, AssignWord(c)), ';', ' ');
  }

  lemma SetupTextSplit(conds: seq<Condition>, n: nat)
    requires 1 <= n <= |conds|
    ensures SetupText(conds, n) == SetupText(conds, n - 1) + (ConditionSetupLine(conds[n - 1]) + "; ")
  {
    var line := ConditionSetupLine(conds[n - 1]);
    var front := SetupText(conds, n - 1);
    assert front + line + "; " == front + (line + "; ");
  }

  lemma TokensSplit(conds: seq<Condition>, n: nat)
    requires 1 <= n <= |conds|
    ensures SET_TOKENS + AssignTokens(conds, n)
            == SET_TOKENS + AssignTokens(conds, n - 1) + [W(AssignWord(conds[n - 1])), Semi]
  {
  }

  lemma SetupExtends(front: string, done: seq<Token>, c: Condition)
    requires InFragment(c) && Run(Gap([]), front) == Gap(done)
    ensures Run(Gap([]), front + (ConditionSetupLine(c) + "; ")) == Gap(done + [W(AssignWord(c)), Semi])
  {
    RunAppend(Gap([]), front, ConditionSetupLine(c) + "; ");
    SetupStep(done, c);
  }

  lemma {:induction false} SetupLexes(conds: seq<Condition>, n: nat)
    requires n <= |conds| && forall c :: c in conds ==> InFragment(c)
    ensures Run(Gap([]), SetupText(conds, n)) == Gap(SET_TOKENS + AssignTokens(conds, n))
    decreases n
  {
    hide Run, AssignWord, ConditionSetupLine, WordTokens;
    if n == 0 {
      SetLexes([]);
      assert [] + SET_TOKENS == SET_TOKENS + AssignTokens(conds, 0);
    } else {
      SetupLexes(conds, n - 1);
      SetupExtends(SetupText(conds, n - 1), SET_TOKENS + AssignTokens(conds, n - 1), conds[n - 1]);
      SetupTextSplit(conds, n);
      TokensSplit(conds, n);
    }
  }

  function EchoTokens(word: string, marker: string): seq<Token> {
    [W(Plain(word)), W(Plain("echo")), W(Quoted(marker))]
  }

  function IfTokens(logic: seq<Token>): seq<Token> {
    [W(Plain("if"))] + logic + [Semi] + EchoTokens("then", PASS_MARKER) + [Semi]
    + EchoTokens("else", FAIL_MARKER) + [Semi] + [W(Plain("fi"))]
  }

  lemma EchoLexes(word: string, marker: string)
    requires word == "then" || word == "else"
    ensures LexesTo(word + " echo " + ShellSingleQuote(marker), EchoTokens(word, marker))
  {
    var q := ShellSingleQuote(marker);
    WordLexes(word);
    WordLexes("echo");
    QuotedLexes(marker);
    Spaced3(word, W(Plain(word)), "echo", W(Plain("echo")), q, W(Quoted(marker)));
    assert word + " " + "echo" + " " + q == word + " echo " + q;
  }

  /** Text without a single quote is quoted by putting it between two. */
  lemma {:induction false} EscapeNothing(s: string)
    requires '\'' !in s
    ensures EscapeQuotes(s) == s
  {
    if s != "" {
      EscapeNothing(s[1..]);
      assert [s[0]] + s[1..] == s;
    }
  }

  function EchoText(word: string, marker: string): string {
    word + " echo " + ("'" + marker + "'")
  }

  lemma QuotedMarker(marker: string)
    requires '\'' !in marker
    ensures ShellSingleQuote(marker) == "'" + marker + "'"
  {
    EscapeNothing(marker);
  }

  lemma MarkerLexes(word: string, marker: string)
    requires word == "then" || word == "else"
    requires '\'' !in marker
    ensures LexesTo(EchoText(word, marker), EchoTokens(word, marker))
  {
    QuotedMarker(marker);
    EchoLexes(word, marker);
  }

  lemma EndPieces()
    ensures SCRIPT_END == "; then echo '" + PASS_MARKER + "'; else echo '" + FAIL_MARKER + "'; fi"
  {
  }

  lemma EndText()
    ensures SCRIPT_END == "; " + EchoText("then", PASS_MARKER) + "; " + EchoText("else", FAIL_MARKER)
                          + "; " + "fi"
  {
    EndPieces();
    assert "; then echo '" == "; " + ("then" + " echo " + "'");
    assert "'; else echo '" == "'" + ("; " + ("else" + " echo " + "'"));
    assert "'; fi" == "'" + ("; " + "fi");
    EndTextAssoc(PASS_MARKER, FAIL_MARKER, "then" + " echo ", "else" + " echo ");
  }

  lemma EndTextAssoc(p: string, f: string, t: string, e: string)
    ensures "; " + (t + "'") + p + ("'" + ("; " + (e + "'"))) + f + ("'" + ("; " + "fi"))
            == "; " + (t + ("'" + p + "'")) + "; " + (e + ("'" + f + "'")) + "; " + "fi"
  {
  }

  lemma Sequenced3(a: string, ta: seq<Token>, b: string, tb: seq<Token>, c: string, tc: seq<Token>,
                   d: string, td: seq<Token>)
    requires LexesTo(a, ta) && LexesTo(b, tb) && LexesTo(c, tc) && LexesTo(d, td)
    ensures LexesTo(a + "; " + b + "; " + c + "; " + d,
                    ta + [Semi] + tb + [Semi] + tc + [Semi] + td)
  {
    Sequenced(a, ta, b, tb);
    Sequenced(a + "; " + b, ta + [Semi] + tb, c, tc);
    Sequenced(a + "; " + b + "; " + c, ta + [Semi] + tb + [Semi] + tc, d, td);
  }

  lemma IfLexes(logic: string, ts: seq<Token>)
    requires LexesTo(logic, ts)
    ensures LexesTo("if " + logic + SCRIPT_END, IfTokens(ts))
  {
    hide LexesTo, EchoText, EchoTokens;
    MarkerLexes("then", PASS_MARKER);
    MarkerLexes("else", FAIL_MARKER);
    EndText();
    var yes := EchoText("then", PASS_MARKER);
    var no := EchoText("else", FAIL_MARKER);
    WordLexes("if");
    WordLexes("fi");
    var front := "if" + " " + logic;
    Spaced("if", [W(Plain("if"))], logic, ts);
    Sequenced3(front, [W(Plain("if"))] + ts, yes, EchoTokens("then", PASS_MARKER),
               no, EchoTokens("else", FAIL_MARKER), "fi", [W(Plain("fi"))]);
    EndParts(logic, yes, no);
  }

  lemma EndParts(logic: string, yes: string, no: string)
    requires SCRIPT_END == "; " + yes + "; " + no + "; " + "fi"
    ensures "if" + " " + logic + "; " + yes + "; " + no + "; " + "fi" == "if " + logic + SCRIPT_END
  {
    hide SCRIPT_END;
    IfText();
    var front := "if " + logic;
    assert "if" + " " + logic == front;
    assert front + "; " + yes + "; " + no + "; " + "fi" == front + ("; " + yes + "; " + no + "; " + "fi");
  }

  lemma IfText()
    ensures "if" + " " == "if "
  {
  }

  lemma LexedAfter(front: string, done: seq<Token>, body: string, ts: seq<Token>)
    requires Run(Gap([]), front) == Gap(done) && LexesTo(body, ts)
    ensures Tokens(front + body) == Some(done + ts)
  {
    RunAppend(Gap([]), front, body);
    AfterBlank(Run(Gap(done), body), done + ts);
  }

  lemma ScriptSplit(setup: string, logic: string)
    ensures Script(setup, logic) == setup + ("if " + logic + SCRIPT_END)
  {
    Assoc(setup, "if ", logic, SCRIPT_END);
  }

  lemma Assoc(a: string, b: string, c: string, d: string)
    ensures a + b + c + d == a + (b + c + d)
  {
  }

  lemma ScriptLexes(conds: seq<Condition>, logic: string, ts: seq<Token>)
    requires forall c :: c in conds ==> InFragment(c)
    requires LexesTo(logic, ts)
    ensures Tokens(Script(SetupText(conds, |conds|), logic))
            == Some(SET_TOKENS + AssignTokens(conds, |conds|) + IfTokens(ts))
  {
    hide Script, IfTokens, InFragment, SetupText, AssignTokens, Tokens, Run, LexesTo;
    SetupLexes(conds, |conds|);
    IfLexes(logic, ts);
    LexedAfter(SetupText(conds, |conds|), SET_TOKENS + AssignTokens(conds, |conds|),
               "if " + logic + SCRIPT_END, IfTokens(ts));
    ScriptSplit(SetupText(conds, |conds|), logic);
  }

  // ---------------------------------------------------------------- the script, as a command

  function EchoNode(marker: string): Node {
    Simple([Plain("echo"), Quoted(marker)])
  }

  function IfNode(logic: Node): Node {
    IfElse(logic, EchoNode(PASS_MARKER), EchoNode(FAIL_MARKER))
  }

  /** The assignments from the i-th on, then the rest. */
  function ScriptFrom(conds: seq<Condition>, i: nat, rest: Node): Node
    requires i <= |conds|
    decreases |conds| - i
  {
    if i == |conds| then rest else Then(Simple([AssignWord(conds[i])]), ScriptFrom(conds, i + 1, rest))
  }

  function TokensFrom(conds: seq<Condition>, i: nat, rest: seq<Token>): seq<Token>
    requires i <= |conds|
    decreases |conds| - i
  {
    if i == |conds| then rest else [W(AssignWord(conds[i])), Semi] + TokensFrom(conds, i + 1, rest)
  }

  lemma {:induction false} TokensFromStart(conds: seq<Condition>, i: nat, rest: seq<Token>)
    requires i <= |conds|
    ensures AssignTokens(conds, i) + TokensFrom(conds, i, rest) == AssignTokens(conds, |conds|) + rest
    decreases |conds| - i
  {
    if i < |conds| {
      TokensFromStart(conds, i + 1, rest);
      assert AssignTokens(conds, i + 1) + TokensFrom(conds, i + 1, rest)
          == AssignTokens(conds, i) + TokensFrom(conds, i, rest);
    }
  }

  lemma AssignWordFacts(c: Condition)
    ensures !Reserved(W(AssignWord(c)))
    ensures !Closes([W(AssignWord(c))])
  {
    var w := AssignWord(c);
    assert w[|w| - 1] == Subst(RunText(c.command));
    QuotedNotReserved(w);
    NotReserved(W(w));
  }

  lemma EchoList(marker: string, after: string, rest: seq<Token>)
    requires after == "else" || after == "fi"
    ensures ParseList([W(Plain("echo")), W(Quoted(marker))] + ([Semi, W(Plain(after))] + rest))
            == Got(EchoNode(marker), [W(Plain(after))] + rest)
  {
    var ws := [Plain("echo"), Quoted(marker)];
    var tail := [Semi, W(Plain(after))] + rest;
    ReservedIff("echo");
    assert tail[1..] == [W(Plain(after))] + rest;
    assert Is(tail[1], after);
    SimpleList(ws, tail);
    assert WordTokens(ws) == [W(Plain("echo")), W(Quoted(marker))];
  }

  lemma ParseIfParts(ts: seq<Token>, test: Node, r1: seq<Token>, yes: Node, r2: seq<Token>, no: Node)
    requires ParseList(ts) == Got(test, [W(Plain("then"))] + r1)
    requires ParseList(r1) == Got(yes, [W(Plain("else"))] + r2)
    requires ParseList(r2) == Got(no, [W(Plain("fi"))])
    ensures ParseIf(ts) == Got(IfElse(test, yes, no), [])
  {
    assert ([W(Plain("then"))] + r1)[1..] == r1;
    assert ([W(Plain("else"))] + r2)[1..] == r2;
  }

  lemma IfAlone(ts: seq<Token>, n: Node)
    requires ParseIf(ts) == Got(n, [])
    ensures ParseList([W(Plain("if"))] + ts) == Got(n, [])
  {
    var all := [W(Plain("if"))] + ts;
    PlainInjective("if", "{");
    PlainInjective("if", "!");
    assert all[1..] == ts;
    assert ParseCommand(all) == Got(n, []);
    assert ParsePipeSeq(all) == GotSeq([n], []);
    PipelineAlone(all, n, []);
  }

  lemma ListThen(ts: seq<Token>, n: Node, r1: seq<Token>)
    requires ReadsAs(ts, n)
    ensures ParseList(ts + ([Semi] + ([W(Plain("then"))] + r1))) == Got(n, [W(Plain("then"))] + r1)
  {
    var then1 := [W(Plain("then"))] + r1;
    var tail := [Semi] + then1;
    assert ParseAndOr(ts + tail) == Got(n, tail);
    assert tail[1..] == then1;
    assert Is(then1[0], "then");
  }

  /** if, a test, two commands and fi; the commands in front of else and fi. */
  lemma IfParts(ts: seq<Token>, n: Node, yes: seq<Token>, y: Node, no: seq<Token>, m: Node)
    requires ReadsAs(ts, n)
    requires forall rest :: ParseList(yes + ([Semi, W(Plain("else"))] + rest)) == Got(y, [W(Plain("else"))] + rest)
    requires ParseList(no + [Semi, W(Plain("fi"))]) == Got(m, [W(Plain("fi"))])
    ensures ParseList([W(Plain("if"))] + ts + [Semi] + ([W(Plain("then"))] + yes) + [Semi]
                      + ([W(Plain("else"))] + no) + [Semi] + [W(Plain("fi"))])
            == Got(IfElse(n, y, m), [])
  {
    hide ParseList, ParseIf, ReadsAs;
    var r2 := no + [Semi, W(Plain("fi"))];
    var r1 := yes + ([Semi, W(Plain("else"))] + r2);
    ListThen(ts, n, r1);
    var body := ts + ([Semi] + ([W(Plain("then"))] + r1));
    ParseIfParts(body, n, r1, y, r2, m);
    IfAlone(body, IfElse(n, y, m));
    assert [W(Plain("if"))] + ts + [Semi] + ([W(Plain("then"))] + yes) + [Semi]
           + ([W(Plain("else"))] + no) + [Semi] + [W(Plain("fi"))] == [W(Plain("if"))] + body;
  }

  lemma IfReads(ts: seq<Token>, n: Node)
    requires ReadsAs(ts, n)
    ensures ParseList(IfTokens(ts)) == Got(IfNode(n), [])
  {
    hide ParseList, ReadsAs;
    var yes := [W(Plain("echo")), W(Quoted(PASS_MARKER))];
    var no := [W(Plain("echo")), W(Quoted(FAIL_MARKER))];
    forall rest
      ensures ParseList(yes + ([Semi, W(Plain("else"))] + rest)) ==
              Got(EchoNode(PASS_MARKER), [W(Plain("else"))] + rest)
    {
      EchoList(PASS_MARKER, "else", rest);
    }
    EchoList(FAIL_MARKER, "fi", []);
    assert [Semi, W(Plain("fi"))] + [] == [Semi, W(Plain("fi"))];
    assert [W(Plain("fi"))] + [] == [W(Plain("fi"))];
    IfParts(ts, n, yes, EchoNode(PASS_MARKER), no, EchoNode(FAIL_MARKER));
    assert EchoTokens("then", PASS_MARKER) == [W(Plain("then"))] + yes;
    assert EchoTokens("else", FAIL_MARKER) == [W(Plain("else"))] + no;
  }

  lemma {:induction false} SetupReads(conds: seq<Condition>, i: nat, rest: seq<Token>, n: Node)
    requires i <= |conds|
    requires ParseList(rest) == Got(n, []) && !Closes(rest)
    ensures ParseList(TokensFrom(conds, i, rest)) == Got(ScriptFrom(conds, i, n), [])
    ensures !Closes(TokensFrom(conds, i, rest))
    decreases |conds| - i
  {
    hide ParseList, Closes, AssignWord;
    if i < |conds| {
      SetupReads(conds, i + 1, rest, n);
      var w := AssignWord(conds[i]);
      AssignWordFacts(conds[i]);
      OneAssign(w, TokensFrom(conds, i + 1, rest), ScriptFrom(conds, i + 1, n));
      assert TokensFrom(conds, i, rest) == [W(w)] + ([Semi] + TokensFrom(conds, i + 1, rest));
    }
  }

  /** An assignment in front of a list. */
  lemma OneAssign(w: Word, rest: seq<Token>, n: Node)
    requires !Reserved(W(w)) && !Closes([W(w)])
    requires ParseList(rest) == Got(n, []) && !Closes(rest)
    ensures ParseList([W(w)] + ([Semi] + rest)) == Got(Then(Simple([w]), n), [])
    ensures !Closes([W(w)] + ([Semi] + rest))
  {
    hide ParseList, Reserved, Is;
    OneWord(w);
    ThenReads([w], rest, n);
  }

  lemma IfOpens(ts: seq<Token>)
    ensures !Closes(IfTokens(ts))
  {
    PlainInjective("if", "}");
    PlainInjective("if", "then");
    PlainInjective("if", "else");
    PlainInjective("if", "fi");
    assert IfTokens(ts)[0] == W(Plain("if"));
  }

  lemma BodyReads(conds: seq<Condition>, tail: seq<Token>, n: Node)
    requires ParseList(tail) == Got(n, []) && !Closes(tail)
    ensures ParseList(SET_TOKENS + AssignTokens(conds, |conds|) + tail)
            == Got(Then(Simple(SET_WORDS), ScriptFrom(conds, 0, n)), [])
  {
    hide ParseList, Closes, TokensFrom, ScriptFrom;
    SetupReads(conds, 0, tail, n);
    TokensFromStart(conds, 0, tail);
    var rest := TokensFrom(conds, 0, tail);
    assert AssignTokens(conds, 0) + rest == rest;
    ReservedIff("set");
    ThenReads(SET_WORDS, rest, ScriptFrom(conds, 0, n));
    assert SET_TOKENS + AssignTokens(conds, |conds|) + tail == WordTokens(SET_WORDS) + ([Semi] + rest);
  }

  /** Every accepted script is one command: set, the assignments, and the if. */
  lemma ScriptReads(conds: seq<Condition>, logic: string, ts: seq<Token>, n: Node)
    requires forall c :: c in conds ==> InFragment(c)
    requires LexesTo(logic, ts) && ReadsAs(ts, n)
    ensures ParseScript(Script(SetupText(conds, |conds|), logic))
            == Some(Then(Simple(SET_WORDS), ScriptFrom(conds, 0, IfNode(n))))
  {
    hide Script, IfTokens, InFragment, AssignTokens, ScriptFrom, Tokens, ParseList, LexesTo, ReadsAs, Closes;
    ScriptLexes(conds, logic, ts);
    IfReads(ts, n);
    IfOpens(ts);
    BodyReads(conds, IfTokens(ts), IfNode(n));
  }

  // ---------------------------------------------------------------- the script, run

  /** The variables after the first n setup lines. */
  function VarsAfter(conds: seq<Condition>, n: nat, h: Host): map<string, string>
    requires n <= |conds|
  {
    if n == 0 then map[]
    else VarsAfter(conds, n - 1, h)[OutVar(conds[n - 1].id) := Output(conds[n - 1], h)]
  }

  lemma {:induction false} NameBeforeEquals(s: string, rest: Word)
    requires forall c :: c in s ==> NameChar(c)
    ensures AssignedName(Plain(s) + [Ch('=', false)] + rest) == Some(|s|)
    decreases |s|
  {
    var w := Plain(s) + [Ch('=', false)] + rest;
    if s != "" {
      assert s[0] in s;
      NameBeforeEquals(s[1..], rest);
      assert w[1..] == Plain(s[1..]) + [Ch('=', false)] + rest;
    }
  }

  lemma AssignRuns(c: Condition, env: Env, h: Host)
    requires IsName(OutVar(c.id))
    ensures Exec(Simple([AssignWord(c)]), env, "", h)
            == Outcome(env.(vars := env.vars[OutVar(c.id) := Output(c, h)]), "", true)
  {
    var v := OutVar(c.id);
    var w := AssignWord(c);
    PlainAppend(v, "=");
    assert w == Plain(v) + [Ch('=', false)] + [Subst(RunText(c.command))];
    NameBeforeEquals(v, [Subst(RunText(c.command))]);
    assert w[..|v|] == Plain(v);
    assert CharsOf(Plain(v)) == v;
    assert w[|v| + 1..] == [Subst(RunText(c.command))];
    ExpandOne(Subst(RunText(c.command)), env.vars, h);
  }

  /** A command that writes nothing only hands its environment on. */
  lemma SilentThen(first: Node, second: Node, env: Env, env': Env, h: Host)
    requires Exec(first, env, "", h) == Outcome(env', "", true)
    ensures Exec(Then(first, second), env, "", h) == Exec(second, env', "", h)
  {
    var r := Exec(second, env', "", h);
    assert "" + r.out == r.out;
  }

  lemma {:induction false} SetupRuns(conds: seq<Condition>, i: nat, rest: Node, h: Host)
    requires i <= |conds| && forall c :: c in conds ==> IsName(OutVar(c.id))
    ensures Exec(ScriptFrom(conds, i, rest), Env(VarsAfter(conds, i, h), true), "", h)
            == Exec(rest, Env(VarsAfter(conds, |conds|, h), true), "", h)
    decreases |conds| - i
  {
    if i < |conds| {
      var env := Env(VarsAfter(conds, i, h), true);
      AssignRuns(conds[i], env, h);
      SetupRuns(conds, i + 1, rest, h);
      SilentThen(Simple([AssignWord(conds[i])]), ScriptFrom(conds, i + 1, rest), env,
                 Env(VarsAfter(conds, i + 1, h), true), h);
    }
  }

  /** Distinct IDs have distinct variables, so the variable set last and the condition kept last under
      an ID belong together. */
  lemma {:induction false} LastOneWins(conds: seq<Condition>, n: nat, id: string, h: Host)
    requires n <= |conds|
    ensures id in CondMap(conds, n) <==> OutVar(id) in VarsAfter(conds, n, h)
    ensures id in CondMap(conds, n) ==>
              && CondMap(conds, n)[id] in conds && CondMap(conds, n)[id].id == id
              && VarsAfter(conds, n, h)[OutVar(id)] == Output(CondMap(conds, n)[id], h)
    decreases n
  {
    if n > 0 {
      LastOneWins(conds, n - 1, id, h);
      var other := conds[n - 1].id;
      if OutVar(other) == OutVar(id) {
        assert id == OutVar(id)[..|id|] && other == OutVar(other)[..|other|];
      }
    }
  }

  lemma EchoRuns(marker: string, env: Env, h: Host)
    requires marker == PASS_MARKER || marker == FAIL_MARKER
    ensures Exec(EchoNode(marker), env, "", h) == Outcome(env, marker + "\n", true)
  {
    ExpandPlain("echo", env.vars, h);
    ExpandQuoted(marker, env.vars, h);
    assert ExpandAll([Plain("echo"), Quoted(marker)], env.vars, h) == ["echo", marker];
    assert marker[..3] == "** ";
  }

  lemma BranchRuns(test: Node, yes: Node, no: Node, env: Env, ok: bool, a: string, b: string, h: Host)
    requires Exec(test, env, "", h) == Outcome(env, "", ok)
    requires Exec(yes, env, "", h) == Outcome(env, a, true)
    requires Exec(no, env, "", h) == Outcome(env, b, true)
    ensures Exec(IfElse(test, yes, no), env, "", h).out == if ok then a else b
  {
    IfUnfolds(test, yes, no, env, h);
    hide Exec;
    assert "" + a == a && "" + b == b;
  }

  lemma IfUnfolds(test: Node, yes: Node, no: Node, env: Env, h: Host)
    ensures var t := Exec(test, env, "", h);
            var r := Exec(if t.ok then yes else no, t.env, "", h);
            Exec(IfElse(test, yes, no), env, "", h) == Outcome(r.env, t.out + r.out, r.ok)
  {
    hide RunSimple, ExecPipe;
  }

  lemma IfRuns(logic: Node, env: Env, ok: bool, h: Host)
    requires Exec(logic, env, "", h) == Outcome(env, "", ok)
    ensures Exec(IfNode(logic), env, "", h).out == (if ok then PASS_MARKER else FAIL_MARKER) + "\n"
  {
    hide Exec, EchoNode;
    EchoRuns(PASS_MARKER, env, h);
    EchoRuns(FAIL_MARKER, env, h);
    BranchRuns(logic, EchoNode(PASS_MARKER), EchoNode(FAIL_MARKER), env, ok,
               PASS_MARKER + "\n", FAIL_MARKER + "\n", h);
  }

  lemma SetRuns(h: Host)
    ensures Exec(Simple(SET_WORDS), FreshEnv, "", h) == Outcome(Env(map[], true), "", true)
  {
    ExpandPlain("set", map[], h);
    ExpandPlain("-o", map[], h);
    ExpandPlain("pipefail", map[], h);
    assert ExpandAll(SET_WORDS, map[], h) == ["set", "-o", "pipefail"];
  }

  // ---------------------------------------------------------------- the whole compilation

  /** Which conditions hold on a machine, by the tests that were emitted. */
  function TestsOf(conds: seq<Condition>, h: Host): string -> bool {
    var m := CondMap(conds, |conds|);
    id => id in m && Tests(m[id], Output(m[id], h), h)
  }

  /** Which conditions hold on a machine, by their meaning. */
  function MeaningOf(conds: seq<Condition>, h: Host): string -> bool {
    var m := CondMap(conds, |conds|);
    id => id in m && Meets(m[id], Output(m[id], h), h)
  }

  function TokensAt(conds: seq<Condition>): string -> seq<Token> {
    var m := CondMap(conds, |conds|);
    id => if id in m then LeafTokens(m[id]) else []
  }

  function NodeAt(conds: seq<Condition>): string -> Node {
    var m := CondMap(conds, |conds|);
    id => if id in m then LeafNode(m[id]) else Simple([])
  }

  lemma LeavesRead(conds: seq<Condition>, h: Host)
    requires forall c :: c in conds ==> InFragment(c)
    ensures var leaf := LeafOf(CondMap(conds, |conds|));
            forall id :: LeafOk(leaf)(id) ==>
              && LexesTo(LeafText(leaf)(id), TokensAt(conds)(id))
              && ReadsAs(TokensAt(conds)(id), NodeAt(conds)(id))
              && Exec(NodeAt(conds)(id), Env(VarsAfter(conds, |conds|, h), true), "", h)
                 == Outcome(Env(VarsAfter(conds, |conds|, h), true), "", TestsOf(conds, h)(id))
  {
    var m := CondMap(conds, |conds|);
    var leaf := LeafOf(m);
    var env := Env(VarsAfter(conds, |conds|, h), true);
    forall id | LeafOk(leaf)(id)
      ensures LexesTo(LeafText(leaf)(id), TokensAt(conds)(id))
      ensures ReadsAs(TokensAt(conds)(id), NodeAt(conds)(id))
      ensures Exec(NodeAt(conds)(id), env, "", h) == Outcome(env, "", TestsOf(conds, h)(id))
    {
      LastOneWins(conds, |conds|, id, h);
      LeafLexes(m[id]);
      LeafReads(m[id]);
      LeafRuns(m[id], env, h);
    }
  }

  /** Every command is a list of whole commands. */
  predicate CommandsComplete(conds: seq<Condition>, h: Host) {
    forall c :: c in conds ==> h.complete(RunText(c.command))
  }

  function Line(complete: bool, ok: bool): string {
    if !complete then "" else (if ok then PASS_MARKER else FAIL_MARKER) + "\n"
  }

  /** What an accepted script writes, on every machine: the PASS line if the tree is true of the emitted
      tests, and the FAIL line otherwise; nothing where bash refuses one of the commands. Duplicate condition
      IDs are included. */
  lemma ScriptDecides(conds: seq<Condition>, raw: RawLogic, h: Host)
    requires forall c :: c in conds ==> InFragment(c)
    requires CombineText(conds, raw).Ok?
    ensures TreeOf(conds, raw).Some?
    ensures RunScript(CombineText(conds, raw).value, h)
            == Some(Line(CommandsComplete(conds, h), Holds(TreeOf(conds, raw).value, TestsOf(conds, h))))
  {
    AcceptedScripts(conds, raw);
    LeavesRead(conds, h);
    var leaf := LeafOf(CondMap(conds, |conds|));
    var t := TreeOf(conds, raw).value;
    var p := LeafOk(leaf);
    var env := Env(VarsAfter(conds, |conds|, h), true);
    TreeLexes(t, p, LeafText(leaf), TokensAt(conds));
    LeavesComplete(conds, h);
    TreeComplete(t, TokensAt(conds), h);
    TreeReads(t, p, TokensAt(conds), NodeAt(conds));
    TreeRuns(t, p, NodeAt(conds), TestsOf(conds, h), env, h);
    ScriptRuns(conds, LogicText(conds, raw).value, TreeTokens(t, TokensAt(conds)),
               TreeNode(t, NodeAt(conds)), Holds(t, TestsOf(conds, h)), h);
  }

  lemma LeavesComplete(conds: seq<Condition>, h: Host)
    ensures forall id :: TokensComplete(TokensAt(conds)(id), h)
  {
    hide LeafTokens;
    var m := CondMap(conds, |conds|);
    forall id ensures TokensComplete(TokensAt(conds)(id), h) {
      if id in m {
        LeafComplete(m[id], h);
      }
    }
  }

  /** Only the setup lines run commands. */
  lemma ScriptComplete(conds: seq<Condition>, ts: seq<Token>, h: Host)
    requires TokensComplete(ts, h)
    ensures TokensComplete(SET_TOKENS + AssignTokens(conds, |conds|) + IfTokens(ts), h) <==> CommandsComplete(conds, h)
  {
    hide TokensComplete, AssignTokens, IfTokens, SET_TOKENS;
    SetComplete(h);
    SetupComplete(conds, |conds|, h);
    IfComplete(ts, h);
    assert conds[..|conds|] == conds;
    CompleteTogether(SET_TOKENS, AssignTokens(conds, |conds|), h);
    CompleteTogether(SET_TOKENS + AssignTokens(conds, |conds|), IfTokens(ts), h);
  }

  lemma SetComplete(h: Host)
    ensures TokensComplete(SET_TOKENS, h)
  {
    hide WordTokens;
    WordsComplete(SET_WORDS, h);
    CompleteTogether(WordTokens(SET_WORDS), [Semi], h);
  }

  lemma AssignComplete(c: Condition, h: Host)
    ensures TokensComplete([W(AssignWord(c)), Semi], h) <==> h.complete(RunText(c.command))
  {
    hide OutVar, RunText;
    var w := AssignWord(c);
    var front := Plain(OutVar(c.id) + "=");
    assert forall e :: e in w <==> e in front || e == Subst(RunText(c.command));
    assert WordComplete(w, h) <==> h.complete(RunText(c.command));
    assert W(w) in [W(w), Semi];
  }

  lemma {:induction false} SetupComplete(conds: seq<Condition>, n: nat, h: Host)
    requires n <= |conds|
    ensures TokensComplete(AssignTokens(conds, n), h) <==> CommandsComplete(conds[..n], h)
    decreases n
  {
    hide AssignWord, RunText;
    if n > 0 {
      SetupComplete(conds, n - 1, h);
      AssignComplete(conds[n - 1], h);
      CompleteTogether(AssignTokens(conds, n - 1), [W(AssignWord(conds[n - 1])), Semi], h);
      assert conds[..n] == conds[..n - 1] + [conds[n - 1]];
      assert forall c :: c in conds[..n] <==> c in conds[..n - 1] || c == conds[n - 1];
    }
  }

  lemma EchoComplete(word: string, marker: string, h: Host)
    ensures TokensComplete(EchoTokens(word, marker), h)
    ensures TokensComplete([W(Plain(word))], h) && TokensComplete([Semi], h)
  {
  }

  lemma IfComplete(ts: seq<Token>, h: Host)
    requires TokensComplete(ts, h)
    ensures TokensComplete(IfTokens(ts), h)
  {
    hide TokensComplete, EchoTokens, PASS_MARKER, FAIL_MARKER;
    EchoComplete("then", PASS_MARKER, h);
    EchoComplete("else", FAIL_MARKER, h);
    EchoComplete("if", "", h);
    EchoComplete("fi", "", h);
    var a := [W(Plain("if"))] + ts;
    var b := a + [Semi] + EchoTokens("then", PASS_MARKER);
    var c := b + [Semi] + EchoTokens("else", FAIL_MARKER);
    CompleteTogether([W(Plain("if"))], ts, h);
    CompleteTogether(a, [Semi], h);
    CompleteTogether(a + [Semi], EchoTokens("then", PASS_MARKER), h);
    CompleteTogether(b, [Semi], h);
    CompleteTogether(b + [Semi], EchoTokens("else", FAIL_MARKER), h);
    CompleteTogether(c, [Semi], h);
    CompleteTogether(c + [Semi], [W(Plain("fi"))], h);
  }

  lemma ScriptRuns(conds: seq<Condition>, logic: string, ts: seq<Token>, n: Node, ok: bool, h: Host)
    requires forall c :: c in conds ==> InFragment(c)
    requires LexesTo(logic, ts) && ReadsAs(ts, n) && TokensComplete(ts, h)
    requires var env := Env(VarsAfter(conds, |conds|, h), true);
             Exec(n, env, "", h) == Outcome(env, "", ok)
    ensures RunScript(Script(SetupText(conds, |conds|), logic), h) == Some(Line(CommandsComplete(conds, h), ok))
  {
    hide TokensComplete, CommandsComplete;
    ScriptLexes(conds, logic, ts);
    ScriptComplete(conds, ts, h);
    ScriptReads(conds, logic, ts, n);
    SetRuns(h);
    SilentThen(Simple(SET_WORDS), ScriptFrom(conds, 0, IfNode(n)), FreshEnv, Env(map[], true), h);
    SetupRuns(conds, 0, IfNode(n), h);
    IfRuns(n, Env(VarsAfter(conds, |conds|, h), true), ok, h);
  }

  // ---------------------------------------------------------------- quoting

  /** Quote round trip: any string, quoted, lexes to one word, and the word expands to the string. */
  lemma QuoteRoundTrip(s: string, vars: map<string, string>, h: Host)
    ensures Tokens(ShellSingleQuote(s)) == Some([W(Quoted(s))])
    ensures Expand(Quoted(s), vars, h) == s
  {
    QuotedLexes(s);
    LexesTokens(ShellSingleQuote(s), [W(Quoted(s))]);
    ExpandQuoted(s, vars, h);
  }

  function BashWords(script: string): seq<Word> {
    [Plain("bash"), Plain("-c"), Quoted(script)]
  }

  /** wrapBash gives exactly the three words bash, -c and the script. */
  lemma WrapBashLexes(script: string)
    ensures Tokens(WrapBash(script)) == Some(WordTokens(BashWords(script)))
  {
    WordLexes("bash");
    WordLexes("-c");
    QuotedLexes(script);
    var q := ShellSingleQuote(script);
    Spaced3("bash", W(Plain("bash")), "-c", W(Plain("-c")), q, W(Quoted(script)));
    assert "bash" + " " + "-c" + " " + q == WrapBash(script);
    assert WordTokens(BashWords(script)) == [W(Plain("bash")), W(Plain("-c")), W(Quoted(script))];
    LexesTokens(WrapBash(script), WordTokens(BashWords(script)));
  }

  /** Text that lexes to plain words is one simple command. */
  lemma WordsParse(text: string, ws: seq<Word>)
    requires Tokens(text) == Some(WordTokens(ws))
    requires ws != [] && !Reserved(W(ws[0]))
    ensures ParseScript(text) == Some(Simple(ws))
  {
    SimpleList(ws, []);
    assert WordTokens(ws) + [] == WordTokens(ws);
  }

  /** The inner bash runs the script itself, whatever quotes the script contains. */
  lemma WrapBashRuns(script: string, h: Host)
    ensures RunAuditCommand(WrapBash(script), h) == RunScript(script, h)
  {
    var ws := BashWords(script);
    WrapBashLexes(script);
    ReservedIff("bash");
    WordsParse(WrapBash(script), ws);
    WordsComplete(ws, h);
    ExpandPlain("bash", map[], h);
    ExpandPlain("-c", map[], h);
    ExpandQuoted(script, map[], h);
    var args := ExpandAll(ws, map[], h);
    assert |args| == 3 && args[0] == "bash" && args[1] == "-c" && args[2] == script;
  }

  lemma TrueParses()
    ensures Tokens("true") == Some(WordTokens([Plain("true")]))
    ensures ParseScript("true") == Some(Simple([Plain("true")]))
  {
    WordLexes("true");
    OneWord(Plain("true"));
    LexesTokens("true", WordTokens([Plain("true")]));
    ReservedIff("true");
    WordsParse("true", [Plain("true")]);
  }

  lemma TrueRuns(h: Host)
    ensures RunAuditCommand("true", h) == Some("")
  {
    TrueParses();
    WordsComplete([Plain("true")], h);
    ExpandPlain("true", map[], h);
    var args := ExpandAll([Plain("true")], map[], h);
    assert |args| == 1 && args[0] == "true";
    assert RunUtility(args, FreshEnv, "", h).out == "";
  }

  // ---------------------------------------------------------------- verdicts

  /** A check passes when its command writes its marker. */
  predicate Verdict(check: Check, h: Host) {
    var out := RunAuditCommand(check.auditCommand, h);
    out.Some? && Contains(out.value, check.contains)
  }

  lemma MarkersTold()
    ensures Contains(PASS_MARKER + "\n", PASS_MARKER)
    ensures !Contains(FAIL_MARKER + "\n", PASS_MARKER)
    ensures !Contains("", DEGRADED_MARKER) && !Contains("", PASS_MARKER)
  {
    assert OccursAt(PASS_MARKER + "\n", PASS_MARKER, 0);
    var f := FAIL_MARKER + "\n";
    assert |f| == |PASS_MARKER| + 1;
    assert !OccursAt(f, PASS_MARKER, 0) by { assert f[0..10][3] == 'F' && PASS_MARKER[3] == 'P'; }
    assert !OccursAt(f, PASS_MARKER, 1) by { assert f[1..11][1] == ' ' && PASS_MARKER[1] == '*'; }
  }

  /** End to end: a check made from an item passes on a machine exactly when the item can be translated, its
      commands are whole, and its tree is true of the emitted tests. In particular a degraded check never
      passes. */
  lemma ItemVerdict(it: Item, h: Host)
    requires it.audit.Some? ==> forall c :: c in it.audit.value.conditions ==> InFragment(c)
    ensures Verdict(ConvertItem(it).0, h) <==>
            && ConvertItem(it).1.NotDegraded?
            && CommandsComplete(it.audit.value.conditions, h)
            && TreeOf(it.audit.value.conditions, it.audit.value.passLogic).Some?
            && Holds(TreeOf(it.audit.value.conditions, it.audit.value.passLogic).value,
                     TestsOf(it.audit.value.conditions, h))
  {
    MarkersTold();
    if ConvertItem(it).1.NotDegraded? {
      var a := it.audit.value;
      ScriptDecides(a.conditions, a.passLogic, h);
      WrapBashRuns(CombineText(a.conditions, a.passLogic).value, h);
    } else {
      TrueRuns(h);
    }
  }
}
