/** How the grammar reads token sequences built from pieces: simple commands, pipelines of two,
    brace groups, and chains of groups joined by one operator. */
module ShellParse {
  import opened Common
  import opened Shell
  import opened ShellLex

  const LBRACE: Token := W(Plain("{"))
  const RBRACE: Token := W(Plain("}"))
  const BANG: Token := W(Plain("!"))

  function WordTokens(ws: seq<Word>): (ts: seq<Token>)
    ensures |ts| == |ws|
    ensures forall i :: 0 <= i < |ts| ==> ts[i] == W(ws[i])
  {
    seq(|ws|, i requires 0 <= i < |ws| => W(ws[i]))
  }

  lemma OneWord(w: Word)
    ensures WordTokens([w]) == [W(w)]
  {
  }

  /** { ts; } */
  function Brace(ts: seq<Token>): seq<Token> {
    [LBRACE] + ts + [Semi, RBRACE]
  }

  predicate AtSemi(rest: seq<Token>) {
    rest != [] && rest[0] == Semi
  }

  /** Before a semicolon, the tokens are one AND-OR list with this structure. */
  ghost predicate ReadsAs(ts: seq<Token>, n: Node) {
    forall rest {:trigger ParseAndOr(ts + rest)} ::
      AtSemi(rest) ==> ParseAndOr(ts + rest) == Got(n, rest)
  }

  lemma ReservedIff(s: string)
    ensures Reserved(W(Plain(s))) <==> s in RESERVED
  {
    if Reserved(W(Plain(s))) {
      var i :| 0 <= i < |RESERVED| && Is(W(Plain(s)), RESERVED[i]);
      PlainInjective(s, RESERVED[i]);
    }
    if s in RESERVED {
      var i :| 0 <= i < |RESERVED| && RESERVED[i] == s;
      assert Is(W(Plain(s)), RESERVED[i]);
    }
  }

  lemma NotReserved(t: Token)
    requires !Reserved(t)
    ensures !Is(t, "!") && !Is(t, "{") && !Is(t, "}") && !Is(t, "if") && !Is(t, "then")
    ensures !Is(t, "else") && !Is(t, "fi")
  {
    assert RESERVED[0] == "!" && RESERVED[1] == "{" && RESERVED[2] == "}" && RESERVED[11] == "if";
    assert RESERVED[13] == "then" && RESERVED[7] == "else" && RESERVED[9] == "fi";
  }

  /** A word with a quoted character or an expansion in it is never a reserved word. */
  lemma QuotedNotReserved(w: Word)
    requires exists i :: 0 <= i < |w| && (!w[i].Ch? || w[i].quoted)
    ensures !Reserved(W(w))
  {
    var i :| 0 <= i < |w| && (!w[i].Ch? || w[i].quoted);
    forall j | 0 <= j < |RESERVED| ensures !Is(W(w), RESERVED[j]) {
      var p := Plain(RESERVED[j]);
      assert i < |p| ==> p[i].Ch? && !p[i].quoted;
    }
  }

  // ---------------------------------------------------------------- commands

  lemma {:induction false} TakeAll(ws: seq<Word>, rest: seq<Token>)
    requires rest == [] || !rest[0].W?
    ensures TakeWords(WordTokens(ws) + rest) == |ws|
    decreases |ws|
  {
    var ts := WordTokens(ws) + rest;
    if ws == [] {
      assert ts == rest;
    } else {
      TakeAll(ws[1..], rest);
      assert ts[1..] == WordTokens(ws[1..]) + rest;
    }
  }

  lemma SimpleReads(ws: seq<Word>, rest: seq<Token>)
    requires ws != [] && !Reserved(W(ws[0]))
    requires rest == [] || !rest[0].W?
    ensures ParseCommand(WordTokens(ws) + rest) == Got(Simple(ws), rest)
  {
    var ts := WordTokens(ws) + rest;
    TakeAll(ws, rest);
    NotReserved(ts[0]);
    assert ts[..|ws|] == WordTokens(ws);
    assert ts[|ws|..] == rest;
    assert WordsOf(ts[..|ws|]) == ws;
  }

  lemma SimplePipeline(ws: seq<Word>, rest: seq<Token>)
    requires ws != [] && !Reserved(W(ws[0]))
    requires rest == [] || (!rest[0].W? && rest[0] != Pipe)
    ensures ParsePipeline(WordTokens(ws) + rest) == Got(Simple(ws), rest)
  {
    SimpleReads(ws, rest);
    NotReserved((WordTokens(ws) + rest)[0]);
    assert ParsePipeSeq(WordTokens(ws) + rest) == GotSeq([Simple(ws)], rest);
  }

  /** A pipeline followed by a semicolon or by nothing is a whole AND-OR list. */
  lemma PipelineAlone(ts: seq<Token>, n: Node, rest: seq<Token>)
    requires ParsePipeline(ts) == Got(n, rest)
    requires rest == [] || rest[0] == Semi
    ensures ParseAndOr(ts) == Got(n, rest)
  {
  }

  /** A simple command that is a whole list: at the end, or before a semicolon that ends the list. */
  lemma SimpleList(ws: seq<Word>, rest: seq<Token>)
    requires ws != [] && !Reserved(W(ws[0]))
    requires rest == [] || (rest[0] == Semi && Closes(rest[1..]))
    ensures ParseList(WordTokens(ws) + rest) == Got(Simple(ws), if rest == [] then [] else rest[1..])
  {
    SimplePipeline(ws, rest);
    PipelineAlone(WordTokens(ws) + rest, Simple(ws), rest);
  }

  /** A simple command and a semicolon in front of a list. */
  lemma ThenReads(ws: seq<Word>, rest: seq<Token>, n: Node)
    requires ws != [] && !Reserved(W(ws[0]))
    requires ParseList(rest) == Got(n, []) && !Closes(rest)
    ensures ParseList(WordTokens(ws) + ([Semi] + rest)) == Got(Then(Simple(ws), n), [])
  {
    SimplePipeline(ws, [Semi] + rest);
    PipelineAlone(WordTokens(ws) + ([Semi] + rest), Simple(ws), [Semi] + rest);
    assert ([Semi] + rest)[1..] == rest;
  }

  lemma SimpleReadsAs(ws: seq<Word>)
    requires ws != [] && !Reserved(W(ws[0]))
    ensures ReadsAs(WordTokens(ws), Simple(ws))
  {
    forall rest | AtSemi(rest)
      ensures ParseAndOr(WordTokens(ws) + rest) == Got(Simple(ws), rest)
    {
      SimplePipeline(ws, rest);
    }
  }

  lemma PipeReads(a: seq<Word>, b: seq<Word>, rest: seq<Token>)
    requires a != [] && !Reserved(W(a[0])) && b != [] && !Reserved(W(b[0]))
    requires AtSemi(rest)
    ensures ParseAndOr(WordTokens(a) + [Pipe] + WordTokens(b) + rest)
            == Got(Pipeline([Simple(a), Simple(b)]), rest)
  {
    var tail := WordTokens(b) + rest;
    var ts := WordTokens(a) + ([Pipe] + tail);
    assert WordTokens(a) + [Pipe] + WordTokens(b) + rest == ts;
    SimpleReads(b, rest);
    assert ParsePipeSeq(tail) == GotSeq([Simple(b)], rest);
    SimpleReads(a, [Pipe] + tail);
    assert ([Pipe] + tail)[1..] == tail;
    assert ParsePipeSeq(ts) == GotSeq([Simple(a)] + [Simple(b)], rest);
    assert [Simple(a)] + [Simple(b)] == [Simple(a), Simple(b)];
    NotReserved(ts[0]);
    assert ParsePipeline(ts) == Got(Pipeline([Simple(a), Simple(b)]), rest);
  }

  lemma PipeReadsAs(a: seq<Word>, b: seq<Word>)
    requires a != [] && !Reserved(W(a[0])) && b != [] && !Reserved(W(b[0]))
    ensures ReadsAs(WordTokens(a) + [Pipe] + WordTokens(b), Pipeline([Simple(a), Simple(b)]))
  {
    forall rest | AtSemi(rest)
      ensures ParseAndOr(WordTokens(a) + [Pipe] + WordTokens(b) + rest)
              == Got(Pipeline([Simple(a), Simple(b)]), rest)
    {
      PipeReads(a, b, rest);
    }
  }

  // ---------------------------------------------------------------- groups

  lemma BraceWordsDiffer()
    ensures !Is(LBRACE, "!") && Is(LBRACE, "{") && Is(RBRACE, "}")
    ensures Is(BANG, "!") && !Is(LBRACE, "if")
  {
    PlainInjective("{", "!");
    PlainInjective("{", "if");
  }

  lemma ListBeforeBrace(ts: seq<Token>, n: Node, rest: seq<Token>)
    requires ReadsAs(ts, n)
    ensures ParseList(ts + ([Semi, RBRACE] + rest)) == Got(n, [RBRACE] + rest)
  {
    var after := [Semi, RBRACE] + rest;
    assert ParseAndOr(ts + after) == Got(n, after);
    assert after[1..] == [RBRACE] + rest;
    BraceWordsDiffer();
    assert Closes([RBRACE] + rest);
  }

  lemma GroupReads(ts: seq<Token>, n: Node, rest: seq<Token>)
    requires ReadsAs(ts, n)
    ensures ParseCommand(Brace(ts) + rest) == Got(Group(n), rest)
  {
    var all := Brace(ts) + rest;
    ListBeforeBrace(ts, n, rest);
    BraceWordsDiffer();
    assert all[0] == LBRACE;
    assert all[1..] == ts + ([Semi, RBRACE] + rest);
    assert ([RBRACE] + rest)[1..] == rest;
  }

  lemma GroupPipeline(ts: seq<Token>, n: Node, rest: seq<Token>)
    requires ReadsAs(ts, n)
    requires rest == [] || rest[0] != Pipe
    ensures ParsePipeSeq(Brace(ts) + rest) == GotSeq([Group(n)], rest)
    ensures ParsePipeline(Brace(ts) + rest) == Got(Group(n), rest)
  {
    GroupReads(ts, n, rest);
    BraceWordsDiffer();
    assert (Brace(ts) + rest)[0] == LBRACE;
  }

  lemma NegatedReadsAs(ts: seq<Token>, n: Node)
    requires ReadsAs(ts, n)
    ensures ReadsAs([BANG] + Brace(ts), Not(Group(n)))
  {
    forall rest | AtSemi(rest)
      ensures ParseAndOr([BANG] + Brace(ts) + rest) == Got(Not(Group(n)), rest)
    {
      var all := [BANG] + Brace(ts) + rest;
      GroupPipeline(ts, n, rest);
      BraceWordsDiffer();
      assert all[1..] == Brace(ts) + rest;
      assert ParsePipeline(all) == Got(Not(Group(n)), rest);
    }
  }

  // ---------------------------------------------------------------- chains

  /** The first n lists in braces, with op between them. */
  function ChainTokens(kids: seq<seq<Token>>, n: nat, op: Token): seq<Token>
    requires 1 <= n <= |kids|
  {
    if n == 1 then Brace(kids[0]) else ChainTokens(kids, n - 1, op) + [op] + Brace(kids[n - 1])
  }

  /** The same chain as a tree, leaning to the left. */
  function ChainNode(kids: seq<Node>, n: nat, op: Token): Node
    requires 1 <= n <= |kids|
  {
    if n == 1 then Group(kids[0])
    else if op == AndIf then And(ChainNode(kids, n - 1, op), Group(kids[n - 1]))
    else Or(ChainNode(kids, n - 1, op), Group(kids[n - 1]))
  }

  lemma {:induction false} ChainReads(tss: seq<seq<Token>>, ns: seq<Node>, n: nat, op: Token,
                                      rest: seq<Token>)
    requires 1 <= n <= |tss| == |ns|
    requires op == AndIf || op == OrIf
    requires forall i :: 0 <= i < |tss| ==> ReadsAs(tss[i], ns[i])
    requires rest == [] || rest[0] != Pipe
    ensures ParseAndOr(ChainTokens(tss, n, op) + rest) == ParseAndOrTail(ChainNode(ns, n, op), rest)
    decreases n
  {
    hide ParsePipeline, ReadsAs, Brace;
    GroupPipeline(tss[n - 1], ns[n - 1], rest);
    if n > 1 {
      var last := Brace(tss[n - 1]) + rest;
      ChainReads(tss, ns, n - 1, op, [op] + last);
      assert ChainTokens(tss, n, op) + rest == ChainTokens(tss, n - 1, op) + ([op] + last);
      assert ([op] + last)[1..] == last;
    }
  }

  lemma ChainReadsAs(tss: seq<seq<Token>>, ns: seq<Node>, op: Token)
    requires 1 <= |tss| == |ns|
    requires op == AndIf || op == OrIf
    requires forall i :: 0 <= i < |tss| ==> ReadsAs(tss[i], ns[i])
    ensures ReadsAs(ChainTokens(tss, |tss|, op), ChainNode(ns, |ns|, op))
  {
    forall rest | AtSemi(rest)
      ensures ParseAndOr(ChainTokens(tss, |tss|, op) + rest) == Got(ChainNode(ns, |ns|, op), rest)
    {
      ChainReads(tss, ns, |tss|, op, rest);
    }
  }
}
