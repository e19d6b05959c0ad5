/** The text of the pass_logic compiler, read back: every leaf, every tree and every whole script
    lexes and parses to one command whose structure is the tree's. */
module CompilerText {
  import opened Common
  import opened Conditions
  import opened PassLogic
  import opened Shell
  import opened ShellLex
  import opened ShellParse

  // ---------------------------------------------------------------- leaves

  predicate Translatable(c: Condition) {
    ConditionToBashTest(c).Ok?
  }

  /** What the shell model needs of a condition: its variable has a valid name and its command closes
      everything it opens. */
  predicate InFragment(c: Condition) {
    IsName(OutVar(c.id)) && SelfContained(c.command)
  }

  function VarWord(c: Condition): Word {
    [Var(OutVar(c.id))]
  }

  /** The words of a leaf that is one test command. */
  function TestWords(c: Condition): seq<Word> {
    var op := ToLower(c.operator);
    if op == "empty" then [Plain("["), Plain("-z"), VarWord(c), Plain("]")]
    else if op == "not_empty" then [Plain("["), Plain("-n"), VarWord(c), Plain("]")]
    else if op == "equals" then [Plain("["), VarWord(c), Plain("="), Quoted(c.expected), Plain("]")]
    else [Plain("["), VarWord(c), Plain("!="), Quoted(c.expected), Plain("]")]
  }

  predicate IsSearch(c: Condition) {
    ToLower(c.operator) == "contains" || ToLower(c.operator) == "regex"
  }

  function GrepFlag(c: Condition): string {
    if ToLower(c.operator) == "contains" then "-qF" else "-qE"
  }

  function PrintWords(c: Condition): seq<Word> {
    [Plain("printf"), Quoted("%s"), VarWord(c)]
  }

  function GrepWords(c: Condition): seq<Word> {
    [Plain("grep"), Plain(GrepFlag(c)), Quoted(c.expected)]
  }

  function LeafTokens(c: Condition): seq<Token> {
    if IsSearch(c) then WordTokens(PrintWords(c)) + [Pipe] + WordTokens(GrepWords(c))
    else WordTokens(TestWords(c))
  }

  function LeafNode(c: Condition): Node {
    if IsSearch(c) then Pipeline([Simple(PrintWords(c)), Simple(GrepWords(c))])
    else Simple(TestWords(c))
  }

  lemma VarLexes(c: Condition)
    requires IsName(OutVar(c.id))
    ensures LexesTo(VarRef(c.id), [W(VarWord(c))])
  {
    forall done ensures Lexed(Run(Gap(done), VarRef(c.id)), done + [W(VarWord(c))]) {
      RunVarRef(done, c.id);
    }
  }

  lemma Spaced3(a: string, ta: Token, b: string, tb: Token, c: string, tc: Token)
    requires LexesTo(a, [ta]) && LexesTo(b, [tb]) && LexesTo(c, [tc])
    ensures LexesTo(a + " " + b + " " + c, [ta, tb, tc])
  {
    Spaced(a, [ta], b, [tb]);
    assert [ta] + [tb] == [ta, tb];
    Spaced(a + " " + b, [ta, tb], c, [tc]);
    assert [ta, tb] + [tc] == [ta, tb, tc];
  }

  /** Four or five words with blanks between them. */
  lemma Spaced5(a: string, ta: Token, b: string, tb: Token, c: string, tc: Token,
                d: string, td: Token)
    requires LexesTo(a, [ta]) && LexesTo(b, [tb]) && LexesTo(c, [tc]) && LexesTo(d, [td])
    ensures LexesTo(a + " " + b + " " + c + " " + d, [ta, tb, tc, td])
  {
    Spaced3(a, ta, b, tb, c, tc);
    Spaced(a + " " + b + " " + c, [ta, tb, tc], d, [td]);
    assert [ta, tb, tc] + [td] == [ta, tb, tc, td];
  }

  lemma UnaryLexes(c: Condition, flag: string)
    requires IsName(OutVar(c.id)) && (flag == "-z" || flag == "-n")
    ensures LexesTo("[ " + flag + " " + VarRef(c.id) + " ]",
                    WordTokens([Plain("["), Plain(flag), VarWord(c), Plain("]")]))
  {
    WordLexes("[");
    WordLexes(flag);
    VarLexes(c);
    WordLexes("]");
    Spaced5("[", W(Plain("[")), flag, W(Plain(flag)), VarRef(c.id), W(VarWord(c)), "]", W(Plain("]")));
    assert "[" + " " + flag + " " + VarRef(c.id) + " " + "]" == "[ " + flag + " " + VarRef(c.id) + " ]";
  }

  lemma BinaryLexes(c: Condition, op: string)
    requires IsName(OutVar(c.id)) && (op == "=" || op == "!=")
    ensures LexesTo("[ " + VarRef(c.id) + " " + op + " " + ShellSingleQuote(c.expected) + " ]",
                    WordTokens([Plain("["), VarWord(c), Plain(op), Quoted(c.expected), Plain("]")]))
  {
    WordLexes("[");
    WordLexes(op);
    VarLexes(c);
    QuotedLexes(c.expected);
    WordLexes("]");
    var q := ShellSingleQuote(c.expected);
    Spaced5("[", W(Plain("[")), VarRef(c.id), W(VarWord(c)), op, W(Plain(op)), q, W(Quoted(c.expected)));
    Spaced("[" + " " + VarRef(c.id) + " " + op + " " + q,
           [W(Plain("[")), W(VarWord(c)), W(Plain(op)), W(Quoted(c.expected))], "]", [W(Plain("]"))]);
    assert "[" + " " + VarRef(c.id) + " " + op + " " + q + " " + "]"
        == "[ " + VarRef(c.id) + " " + op + " " + q + " ]";
    assert [W(Plain("[")), W(VarWord(c)), W(Plain(op)), W(Quoted(c.expected))] + [W(Plain("]"))]
        == WordTokens([Plain("["), VarWord(c), Plain(op), Quoted(c.expected), Plain("]")]);
  }

  lemma PrintLexes(c: Condition)
    requires IsName(OutVar(c.id))
    ensures LexesTo("printf" + " " + "'%s'" + " " + VarRef(c.id), WordTokens(PrintWords(c)))
  {
    WordLexes("printf");
    PercentLexes();
    VarLexes(c);
    Spaced3("printf", W(Plain("printf")), "'%s'", W(Quoted("%s")), VarRef(c.id), W(VarWord(c)));
    assert WordTokens(PrintWords(c)) == [W(Plain("printf")), W(Quoted("%s")), W(VarWord(c))];
  }

  lemma PercentLexes()
    ensures LexesTo("'%s'", [W(Quoted("%s"))])
  {
    QuotedLexes("%s");
    assert EscapeQuotes("s") == "s" && EscapeQuotes("%s") == "%s";
    assert ShellSingleQuote("%s") == "'%s'";
  }

  lemma GrepLexes(c: Condition, flag: string)
    requires flag == "-qF" || flag == "-qE"
    ensures LexesTo("grep" + " " + flag + " " + ShellSingleQuote(c.expected),
                    WordTokens([Plain("grep"), Plain(flag), Quoted(c.expected)]))
  {
    WordLexes("grep");
    WordLexes(flag);
    QuotedLexes(c.expected);
    Spaced3("grep", W(Plain("grep")), flag, W(Plain(flag)), ShellSingleQuote(c.expected), W(Quoted(c.expected)));
    assert WordTokens([Plain("grep"), Plain(flag), Quoted(c.expected)])
        == [W(Plain("grep")), W(Plain(flag)), W(Quoted(c.expected))];
  }

  lemma SearchText(v: string, flag: string, q: string)
    ensures ("printf" + " " + "'%s'" + " " + v) + OpText(Pipe) + ("grep" + " " + flag + " " + q)
            == "printf '%s' " + v + " | grep " + flag + " " + q
  {
    assert "printf '%s' " == "printf" + " " + "'%s'" + " ";
    assert " | grep " == OpText(Pipe) + ("grep" + " ");
  }

  lemma SearchLexes(c: Condition, flag: string)
    requires IsName(OutVar(c.id)) && (flag == "-qF" || flag == "-qE")
    ensures LexesTo("printf '%s' " + VarRef(c.id) + " | grep " + flag + " " + ShellSingleQuote(c.expected),
                    WordTokens(PrintWords(c)) + [Pipe]
                    + WordTokens([Plain("grep"), Plain(flag), Quoted(c.expected)]))
  {
    hide LexesTo, WordTokens, PrintWords, VarRef, ShellSingleQuote, Plain, Quoted, OpText;
    PrintLexes(c);
    GrepLexes(c, flag);
    Operated("printf" + " " + "'%s'" + " " + VarRef(c.id), WordTokens(PrintWords(c)), Pipe,
             "grep" + " " + flag + " " + ShellSingleQuote(c.expected),
             WordTokens([Plain("grep"), Plain(flag), Quoted(c.expected)]));
    SearchText(VarRef(c.id), flag, ShellSingleQuote(c.expected));
  }

  lemma LeafLexes(c: Condition)
    requires Translatable(c) && IsName(OutVar(c.id))
    ensures LexesTo(ConditionToBashTest(c).value, LeafTokens(c))
  {
    var op := ToLower(c.operator);
    var text := ConditionToBashTest(c).value;
    var v := VarRef(c.id);
    var q := ShellSingleQuote(c.expected);
    if op == "empty" {
      UnaryLexes(c, "-z");
      assert text == "[ " + "-z" + " " + v + " ]";
    } else if op == "not_empty" {
      UnaryLexes(c, "-n");
      assert text == "[ " + "-n" + " " + v + " ]";
    } else if op == "equals" {
      BinaryLexes(c, "=");
      assert text == "[ " + v + " " + "=" + " " + q + " ]";
    } else if op == "not_equals" {
      BinaryLexes(c, "!=");
      assert text == "[ " + v + " " + "!=" + " " + q + " ]";
    } else if op == "contains" {
      SearchLexes(c, "-qF");
      assert text == "printf '%s' " + v + " | grep " + "-qF" + " " + q;
    } else {
      SearchLexes(c, "-qE");
      assert text == "printf '%s' " + v + " | grep " + "-qE" + " " + q;
    }
  }

  lemma LeafReads(c: Condition)
    ensures ReadsAs(LeafTokens(c), LeafNode(c))
  {
    hide ReadsAs, Reserved;
    if IsSearch(c) {
      ReservedIff("printf");
      ReservedIff("grep");
      PipeReadsAs(PrintWords(c), GrepWords(c));
    } else {
      ReservedIff("[");
      SimpleReadsAs(TestWords(c));
    }
  }

  // ---------------------------------------------------------------- trees

  function TreeTokens(t: Tree, leaf: string -> seq<Token>): seq<Token>
    requires Proper(t)
  {
    match t
    case Cond(id) => leaf(id)
    case All(kids) => ChainTokens(seq(|kids|, i requires 0 <= i < |kids| => TreeTokens(kids[i], leaf)), |kids|, AndIf)
    case Any(kids) => ChainTokens(seq(|kids|, i requires 0 <= i < |kids| => TreeTokens(kids[i], leaf)), |kids|, OrIf)
    case Neg(kid) => [BANG] + Brace(TreeTokens(kid, leaf))
  }

  function TreeNode(t: Tree, leaf: string -> Node): Node
    requires Proper(t)
  {
    match t
    case Cond(id) => leaf(id)
    case All(kids) => ChainNode(seq(|kids|, i requires 0 <= i < |kids| => TreeNode(kids[i], leaf)), |kids|, AndIf)
    case Any(kids) => ChainNode(seq(|kids|, i requires 0 <= i < |kids| => TreeNode(kids[i], leaf)), |kids|, OrIf)
    case Neg(kid) => Not(Group(TreeNode(kid, leaf)))
  }

  lemma BracedLexes(s: string, ts: seq<Token>)
    requires LexesTo(s, ts)
    ensures LexesTo(Braced(s), Brace(ts))
  {
    WordLexes("{");
    WordLexes("}");
    Spaced("{", [LBRACE], s, ts);
    Sequenced("{" + " " + s, [LBRACE] + ts, "}", [RBRACE]);
    assert "{" + " " + s + "; " + "}" == Braced(s);
    assert [LBRACE] + ts + [Semi] + [RBRACE] == Brace(ts);
  }

  lemma {:induction false} JoinSnoc(ps: seq<string>, p: string, sep: string)
    requires ps != []
    ensures Join(ps + [p], sep) == Join(ps, sep) + sep + p
    decreases |ps|
  {
    if |ps| == 1 {
      assert (ps + [p])[1..] == [p];
    } else {
      JoinSnoc(ps[1..], p, sep);
      assert (ps + [p])[1..] == ps[1..] + [p];
      assert Join(ps + [p], sep) == ps[0] + sep + (Join(ps[1..], sep) + sep + p);
    }
  }

  /** The first n children, each in braces, with an operator between them. */
  lemma {:induction false} KidsLex(kids: seq<Tree>, n: nat, op: Token, text: string -> string,
                                   tss: seq<seq<Token>>)
    requires 1 <= n <= |kids| == |tss|
    requires op == AndIf || op == OrIf
    requires forall i :: 0 <= i < |kids| ==> LexesTo(Render(kids[i], text), tss[i])
    ensures LexesTo(Join(RenderKids(kids, n, text), OpText(op)), ChainTokens(tss, n, op))
    decreases n
  {
    var last := Braced(Render(kids[n - 1], text));
    BracedLexes(Render(kids[n - 1], text), tss[n - 1]);
    if n == 1 {
      assert RenderKids(kids, 1, text) == [last];
    } else {
      KidsLex(kids, n - 1, op, text, tss);
      var front := RenderKids(kids, n - 1, text);
      JoinSnoc(front, last, OpText(op));
      Operated(Join(front, OpText(op)), ChainTokens(tss, n - 1, op), op, last, Brace(tss[n - 1]));
    }
  }

  /** The text of a proper tree reads as the tree's tokens, at any depth. */
  lemma {:induction false} TreeLexes(t: Tree, p: string -> bool, text: string -> string,
                                     leaf: string -> seq<Token>)
    requires Proper(t) && EveryLeaf(t, p)
    requires forall id :: p(id) ==> LexesTo(text(id), leaf(id))
    ensures LexesTo(Render(t, text), TreeTokens(t, leaf))
  {
    match t
    case Cond(id) =>
    case All(kids) => KidListLexes(t, kids, p, text, leaf); KidsLex(kids, |kids|, AndIf, text, KidTokens(kids, leaf));
    case Any(kids) => KidListLexes(t, kids, p, text, leaf); KidsLex(kids, |kids|, OrIf, text, KidTokens(kids, leaf));
    case Neg(kid) =>
      TreeLexes(kid, p, text, leaf);
      var inner := Braced(Render(kid, text));
      BracedLexes(Render(kid, text), TreeTokens(kid, leaf));
      WordLexes("!");
      Spaced("!", [BANG], inner, Brace(TreeTokens(kid, leaf)));
      assert "!" + " " + inner == "! " + inner;
  }

  function KidTokens(kids: seq<Tree>, leaf: string -> seq<Token>): (tss: seq<seq<Token>>)
    requires forall k | k in kids :: Proper(k)
    ensures |tss| == |kids|
  {
    seq(|kids|, i requires 0 <= i < |kids| => TreeTokens(kids[i], leaf))
  }

  lemma {:induction false} KidListLexes(t: Tree, kids: seq<Tree>, p: string -> bool,
                                        text: string -> string, leaf: string -> seq<Token>)
    requires (t.All? || t.Any?) && t.kids == kids && Proper(t) && EveryLeaf(t, p)
    requires forall id :: p(id) ==> LexesTo(text(id), leaf(id))
    ensures forall i :: 0 <= i < |kids| ==> LexesTo(Render(kids[i], text), KidTokens(kids, leaf)[i])
    decreases t, 0
  {
    forall i | 0 <= i < |kids| ensures LexesTo(Render(kids[i], text), KidTokens(kids, leaf)[i]) {
      TreeLexes(kids[i], p, text, leaf);
    }
  }

  /** Printer and parser agree: the tokens of a proper tree are one command, shaped like the tree. */
  lemma {:induction false} TreeReads(t: Tree, p: string -> bool, leaf: string -> seq<Token>,
                                     node: string -> Node)
    requires Proper(t) && EveryLeaf(t, p)
    requires forall id :: p(id) ==> ReadsAs(leaf(id), node(id))
    ensures ReadsAs(TreeTokens(t, leaf), TreeNode(t, node))
  {
    match t
    case Cond(id) =>
    case All(kids) =>
      KidListReads(t, kids, p, leaf, node);
      ChainReadsAs(KidTokens(kids, leaf), KidNodes(kids, node), AndIf);
    case Any(kids) =>
      KidListReads(t, kids, p, leaf, node);
      ChainReadsAs(KidTokens(kids, leaf), KidNodes(kids, node), OrIf);
    case Neg(kid) =>
      TreeReads(kid, p, leaf, node);
      NegatedReadsAs(TreeTokens(kid, leaf), TreeNode(kid, node));
  }

  function KidNodes(kids: seq<Tree>, node: string -> Node): (ns: seq<Node>)
    requires forall k | k in kids :: Proper(k)
    ensures |ns| == |kids|
  {
    seq(|kids|, i requires 0 <= i < |kids| => TreeNode(kids[i], node))
  }

  lemma {:induction false} KidListReads(t: Tree, kids: seq<Tree>, p: string -> bool,
                                        leaf: string -> seq<Token>, node: string -> Node)
    requires (t.All? || t.Any?) && t.kids == kids && Proper(t) && EveryLeaf(t, p)
    requires forall id :: p(id) ==> ReadsAs(leaf(id), node(id))
    ensures forall i :: 0 <= i < |kids| ==> ReadsAs(KidTokens(kids, leaf)[i], KidNodes(kids, node)[i])
    decreases t, 0
  {
    forall i | 0 <= i < |kids| ensures ReadsAs(KidTokens(kids, leaf)[i], KidNodes(kids, node)[i]) {
      TreeReads(kids[i], p, leaf, node);
    }
  }

  // ---------------------------------------------------------------- command substitutions

  lemma CompleteTogether(a: seq<Token>, b: seq<Token>, h: Host)
    ensures TokensComplete(a + b, h) <==> TokensComplete(a, h) && TokensComplete(b, h)
  {
    hide WordComplete;
    assert forall t :: t in a + b <==> t in a || t in b;
  }

  lemma WordsComplete(ws: seq<Word>, h: Host)
    requires forall w :: w in ws ==> WordComplete(w, h)
    ensures TokensComplete(WordTokens(ws), h)
  {
    hide WordComplete;
    forall t | t in WordTokens(ws) ensures t.W? ==> WordComplete(t.word, h) {
      var i :| 0 <= i < |WordTokens(ws)| && WordTokens(ws)[i] == t;
      assert ws[i] in ws;
    }
  }

  /** The tests run no command of their own. */
  lemma LeafComplete(c: Condition, h: Host)
    ensures TokensComplete(LeafTokens(c), h)
  {
    hide ToLower, WordTokens;
    if IsSearch(c) {
      WordsComplete(PrintWords(c), h);
      WordsComplete(GrepWords(c), h);
      CompleteTogether(WordTokens(PrintWords(c)), [Pipe], h);
      CompleteTogether(WordTokens(PrintWords(c)) + [Pipe], WordTokens(GrepWords(c)), h);
    } else {
      WordsComplete(TestWords(c), h);
    }
  }

  lemma BraceComplete(ts: seq<Token>, h: Host)
    requires TokensComplete(ts, h)
    ensures TokensComplete(Brace(ts), h)
  {
    CompleteTogether([LBRACE], ts, h);
    CompleteTogether([LBRACE] + ts, [Semi, RBRACE], h);
  }

  lemma OpComplete(op: Token, h: Host)
    requires !op.W?
    ensures TokensComplete([op], h)
  {
  }

  lemma {:induction false} ChainComplete(tss: seq<seq<Token>>, n: nat, op: Token, h: Host)
    requires 1 <= n <= |tss| && !op.W? && forall i :: 0 <= i < |tss| ==> TokensComplete(tss[i], h)
    ensures TokensComplete(ChainTokens(tss, n, op), h)
    decreases n
  {
    hide TokensComplete, Brace;
    BraceComplete(tss[n - 1], h);
    if n > 1 {
      ChainComplete(tss, n - 1, op, h);
      OpComplete(op, h);
      CompleteTogether(ChainTokens(tss, n - 1, op), [op], h);
      CompleteTogether(ChainTokens(tss, n - 1, op) + [op], Brace(tss[n - 1]), h);
    }
  }

  lemma {:induction false} TreeComplete(t: Tree, leaf: string -> seq<Token>, h: Host)
    requires Proper(t) && forall id :: TokensComplete(leaf(id), h)
    ensures TokensComplete(TreeTokens(t, leaf), h)
  {
    hide TokensComplete, Brace;
    match t
    case Cond(id) =>
    case All(kids) =>
      forall i | 0 <= i < |kids| ensures TokensComplete(KidTokens(kids, leaf)[i], h) { TreeComplete(kids[i], leaf, h); }
      ChainComplete(KidTokens(kids, leaf), |kids|, AndIf, h);
    case Any(kids) =>
      forall i | 0 <= i < |kids| ensures TokensComplete(KidTokens(kids, leaf)[i], h) { TreeComplete(kids[i], leaf, h); }
      ChainComplete(KidTokens(kids, leaf), |kids|, OrIf, h);
    case Neg(kid) =>
      TreeComplete(kid, leaf, h);
      BraceComplete(TreeTokens(kid, leaf), h);
      BangComplete(h);
      CompleteTogether([BANG], Brace(TreeTokens(kid, leaf)), h);
  }

  lemma BangComplete(h: Host)
    ensures TokensComplete([BANG], h)
  {
  }

  // ---------------------------------------------------------------- structure

  /** No AND-OR list without braces mixes && with ||. */
  predicate Unmixed(n: Node) {
    match n
    case And(left, right) => !left.Or? && !right.And? && !right.Or? && Unmixed(left) && Unmixed(right)
    case Or(left, right) => !left.And? && !right.And? && !right.Or? && Unmixed(left) && Unmixed(right)
    case Not(body) => Unmixed(body)
    case Group(body) => Unmixed(body)
    case _ => true
  }

  lemma {:induction false} ChainUnmixed(ns: seq<Node>, n: nat, op: Token)
    requires 1 <= n <= |ns| && forall i :: 0 <= i < |ns| ==> Unmixed(ns[i])
    ensures Unmixed(ChainNode(ns, n, op))
    ensures op == AndIf ==> !ChainNode(ns, n, op).Or?
    ensures op != AndIf ==> !ChainNode(ns, n, op).And?
    decreases n
  {
    if n > 1 {
      ChainUnmixed(ns, n - 1, op);
    }
  }

  lemma {:induction false} TreeUnmixed(t: Tree, p: string -> bool, node: string -> Node)
    requires Proper(t) && EveryLeaf(t, p)
    requires forall id :: p(id) ==> Unmixed(node(id))
    ensures Unmixed(TreeNode(t, node))
  {
    match t
    case Cond(id) =>
    case All(kids) =>
      forall i | 0 <= i < |kids| ensures Unmixed(KidNodes(kids, node)[i]) { TreeUnmixed(kids[i], p, node); }
      ChainUnmixed(KidNodes(kids, node), |kids|, AndIf);
    case Any(kids) =>
      forall i | 0 <= i < |kids| ensures Unmixed(KidNodes(kids, node)[i]) { TreeUnmixed(kids[i], p, node); }
      ChainUnmixed(KidNodes(kids, node), |kids|, OrIf);
    case Neg(kid) => TreeUnmixed(kid, p, node);
  }
}
