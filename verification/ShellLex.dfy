/** How the lexer reads text built from pieces: plain runs, quoted strings, expansions. */
module ShellLex {
  import opened Common
  import opened Shell
  import opened Conditions

  lemma {:induction false} RunAppend(st: Lex, a: string, b: string)
    ensures Run(st, a + b) == Run(Run(st, a), b)
    decreases |a|
  {
    if a == "" {
      assert a + b == b;
    } else {
      assert (a + b)[1..] == a[1..] + b;
      RunAppend(Step(st, a[0]), a[1..], b);
    }
  }

  lemma RunOne(st: Lex, c: char)
    ensures Run(st, [c]) == Step(st, c)
  {
    assert [c][1..] == "";
  }

  lemma RunTwo(st: Lex, c: char, d: char)
    ensures Run(st, [c, d]) == Step(Step(st, c), d)
  {
    assert [c, d] == [c] + [d];
    RunAppend(st, [c], [d]);
    RunOne(st, c);
    RunOne(Step(st, c), d);
  }

  lemma RunCons(st: Lex, c: char, rest: string)
    ensures Run(st, [c] + rest) == Run(Step(st, c), rest)
  {
    assert ([c] + rest)[1..] == rest;
  }

  lemma PlainAppend(a: string, b: string)
    ensures Plain(a + b) == Plain(a) + Plain(b)
  {
  }

  lemma PlainInjective(a: string, b: string)
    ensures Plain(a) == Plain(b) <==> a == b
  {
    if Plain(a) == Plain(b) {
      assert |a| == |b|;
      forall i | 0 <= i < |a| ensures a[i] == b[i] {
        assert Plain(a)[i] == Plain(b)[i];
      }
    }
  }

  // ---------------------------------------------------------------- plain runs

  lemma {:induction false} RunPlain(done: seq<Token>, w: Word, s: string)
    requires forall c :: c in s ==> PlainChar(c)
    ensures Run(Bare(done, w), s) == Bare(done, w + Plain(s))
    decreases |s|
  {
    if s == "" {
      assert w + Plain(s) == w;
    } else {
      assert s[0] in s;
      assert Step(Bare(done, w), s[0]) == Bare(done, w + [Ch(s[0], false)]);
      RunPlain(done, w + [Ch(s[0], false)], s[1..]);
      assert w + [Ch(s[0], false)] + Plain(s[1..]) == w + Plain(s);
    }
  }

  lemma RunWord(done: seq<Token>, s: string)
    requires s != "" && forall c :: c in s ==> PlainChar(c)
    ensures Run(Gap(done), s) == Bare(done, Plain(s))
  {
    assert s[0] in s;
    RunPlain(done, [Ch(s[0], false)], s[1..]);
    assert [Ch(s[0], false)] + Plain(s[1..]) == Plain(s);
  }

  // ---------------------------------------------------------------- single quotes

  lemma EscapeSteps(done: seq<Token>, w: Word)
    ensures Step(Sgl(done, w), '\'') == Bare(done, w)
    ensures Step(Bare(done, w), '\\') == Esc(done, w)
    ensures Step(Esc(done, w), '\'') == Bare(done, w + [Ch('\'', true)])
    ensures Step(Bare(done, w + [Ch('\'', true)]), '\'') == Sgl(done, w + [Ch('\'', true)])
  {
  }

  lemma RunEscapeSequence(done: seq<Token>, w: Word, rest: string)
    ensures Run(Sgl(done, w), "'\\''" + rest) == Run(Sgl(done, w + [Ch('\'', true)]), rest)
  {
    var r3 := ['\''] + rest;
    var r2 := ['\''] + r3;
    var r1 := ['\\'] + r2;
    var w' := w + [Ch('\'', true)];
    assert "'\\''" + rest == ['\''] + r1;
    EscapeSteps(done, w);
    hide Run, Step;
    RunCons(Sgl(done, w), '\'', r1);
    RunCons(Bare(done, w), '\\', r2);
    RunCons(Esc(done, w), '\'', r3);
    RunCons(Bare(done, w'), '\'', rest);
  }

  /** Section 2.2.2, for any character: inside single quotes everything but the quote is itself, and
      the escape sequence '\'' leaves the quotes, adds one quote and re-enters them. */
  lemma EscapeStep(s: string, rest: string)
    requires s != ""
    ensures EscapeQuotes(s) + rest
            == (if s[0] == '\'' then "'\\''" else [s[0]]) + (EscapeQuotes(s[1..]) + rest)
  {
  }

  lemma RunEscapedOne(done: seq<Token>, w: Word, c: char, rest: string)
    ensures Run(Sgl(done, w), (if c == '\'' then "'\\''" else [c]) + rest)
            == Run(Sgl(done, w + [Ch(c, true)]), rest)
  {
    if c == '\'' {
      RunEscapeSequence(done, w, rest);
    } else {
      RunCons(Sgl(done, w), c, rest);
    }
  }

  lemma {:induction false} RunEscaped(done: seq<Token>, w: Word, s: string, rest: string)
    ensures Run(Sgl(done, w), EscapeQuotes(s) + rest) == Run(Sgl(done, w + Quoted(s)), rest)
    decreases |s|
  {
    hide Run;
    if s == "" {
      assert w + Quoted(s) == w;
      assert EscapeQuotes(s) + rest == rest;
    } else {
      var w' := w + [Ch(s[0], true)];
      EscapeStep(s, rest);
      RunEscapedOne(done, w, s[0], EscapeQuotes(s[1..]) + rest);
      RunEscaped(done, w', s[1..], rest);
      assert w' + Quoted(s[1..]) == w + Quoted(s);
    }
  }

  lemma RunQuoted(st: Lex, s: string)
    requires st.Gap? || st.Bare?
    ensures Run(st, ShellSingleQuote(s))
            == Bare(st.done, (if st.Gap? then [] else st.word) + Quoted(s))
  {
    var w := if st.Gap? then [] else st.word;
    assert ShellSingleQuote(s) == ['\''] + (EscapeQuotes(s) + "'");
    RunCons(st, '\'', EscapeQuotes(s) + "'");
    RunEscaped(st.done, w, s, "'");
    RunOne(Sgl(st.done, w + Quoted(s)), '\'');
  }

  // ---------------------------------------------------------------- names and substitutions

  lemma {:induction false} RunName(done: seq<Token>, w: Word, n: string, s: string)
    requires forall c :: c in s ==> NameChar(c)
    ensures Run(Name(done, w, n), s) == Name(done, w, n + s)
    decreases |s|
  {
    if s == "" {
      assert n + s == n;
    } else {
      assert s[0] in s;
      RunName(done, w, n + [s[0]], s[1..]);
      assert n + [s[0]] + s[1..] == n + s;
    }
  }

  /** "$id_OUT" in double quotes. */
  lemma RunVarRef(done: seq<Token>, id: string)
    requires IsName(OutVar(id))
    ensures Run(Gap(done), VarRef(id)) == Bare(done, [Var(OutVar(id))])
  {
    var v := OutVar(id);
    var r2 := v + "\"";
    assert VarRef(id) == ['"'] + (['$'] + r2);
    RunCons(Gap(done), '"', ['$'] + r2);
    RunCons(Dbl(done, []), '$', r2);
    RunNameText(done, v);
    assert [] + [Var(v)] == [Var(v)];
  }

  lemma RunNameText(done: seq<Token>, v: string)
    requires IsName(v)
    ensures Run(Dollar(done, []), v + "\"") == Bare(done, [] + [Var(v)])
  {
    assert v + "\"" == [v[0]] + (v[1..] + "\"");
    RunCons(Dollar(done, []), v[0], v[1..] + "\"");
    RunAppend(Name(done, [], [v[0]]), v[1..], "\"");
    assert forall c :: c in v[1..] ==> c in v;
    RunName(done, [], [v[0]], v[1..]);
    assert [v[0]] + v[1..] == v;
    RunOne(Name(done, [], v), '"');
  }

  lemma {:induction false} ScanAppend(s: Scan, a: string, b: string)
    ensures ScanRun(s, a + b) == ScanRun(ScanRun(s, a), b)
    decreases |a|
  {
    if a == "" {
      assert a + b == b;
    } else {
      assert (a + b)[1..] == a[1..] + b;
      ScanAppend(ScanStep(s, a[0]), a[1..], b);
    }
  }

  lemma {:induction false} LostStays(text: string)
    ensures ScanRun(Lost, text) == Lost
    decreases |text|
  {
    if text != "" {
      LostStays(text[1..]);
    }
  }

  /** Text that keeps the scan on its way goes into the substitution unchanged. */
  lemma {:induction false} RunSubText(done: seq<Token>, w: Word, t: string, scan: Scan, text: string)
    requires ScanRun(scan, text) != Lost
    requires t != "" || text == "" || text[0] != '('
    ensures Run(Sub(done, w, t, scan), text) == Sub(done, w, t + text, ScanRun(scan, text))
    decreases |text|
  {
    if text == "" {
      assert t + text == t;
    } else {
      if ScanStep(scan, text[0]) == Lost {
        LostStays(text[1..]);
        assert false;
      }
      RunSubText(done, w, t + [text[0]], ScanStep(scan, text[0]), text[1..]);
      assert t + [text[0]] + text[1..] == t + text;
    }
  }

  /** The text the shell runs for a condition: its command with standard error joined to the output. */
  function RunText(command: string): string {
    command + " 2>&1"
  }

  lemma SelfContainedRunText(command: string)
    requires SelfContained(command)
    ensures SelfContained(RunText(command))
  {
    hide ScanRun, ScanStep;
    var s := ScanRun(ScanStart, command);
    ScanAppend(ScanStart, command, " 2>&1");
    RedirectScanned(s);
    assert command != "" ==> RunText(command)[0] == command[0];
  }

  /** Reading the redirection leads from the top level to the top level. */
  lemma RedirectScanned(s: Scan)
    requires AtTop(s)
    ensures AtTop(ScanRun(s, " 2>&1"))
  {
    hide ScanRun;
    assert " 2>&1" == [' '] + (['2'] + (['>'] + (['&'] + ['1'])));
    ScanAppend(s, [' '], ['2'] + (['>'] + (['&'] + ['1'])));
    ScanAppend(Code([], ' '), ['2'], ['>'] + (['&'] + ['1']));
    ScanAppend(Code([], '2'), ['>'], ['&'] + ['1']);
    ScanAppend(Code([], '>'), ['&'], ['1']);
    ScanOne(s, ' ');
    ScanOne(Code([], ' '), '2');
    ScanOne(Code([], '2'), '>');
    ScanOne(Code([], '>'), '&');
    ScanOne(Code([], '&'), '1');
  }

  lemma ScanOne(s: Scan, c: char)
    ensures ScanRun(s, [c]) == ScanStep(s, c)
  {
    assert [c][1..] == "";
  }

  /** A condition's setup line is one word: the variable, '=', and the command's output. */
  lemma RunSetupLine(done: seq<Token>, c: Condition)
    requires IsName(OutVar(c.id)) && SelfContained(c.command)
    ensures Run(Gap(done), ConditionSetupLine(c))
            == Bare(done, Plain(OutVar(c.id) + "=") + [Subst(RunText(c.command))])
  {
    hide Run, Step, SelfContained;
    var v := OutVar(c.id) + "=";
    var text := RunText(c.command);
    var r2 := text + ")\"";
    var r1 := "$(" + r2;
    SetupLineText(c);
    SelfContainedRunText(c.command);
    RunAppend(Gap(done), v, ['"'] + r1);
    RunAssigned(done, c.id);
    OpenQuote(done, Plain(v), r1);
    OpenSubst(done, Plain(v), r2);
    RunSubst(done, Plain(v), text);
  }

  lemma SetupLineText(c: Condition)
    ensures ConditionSetupLine(c)
            == OutVar(c.id) + "=" + (['"'] + ("$(" + (RunText(c.command) + ")\"")))
  {
    assert "=\"$(" == "=" + (['"'] + "$(");
    assert " 2>&1)\"" == " 2>&1" + ")\"";
  }

  lemma RunAssigned(done: seq<Token>, id: string)
    requires IsName(OutVar(id))
    ensures Run(Gap(done), OutVar(id) + "=") == Bare(done, Plain(OutVar(id) + "="))
  {
    var v := OutVar(id) + "=";
    assert forall ch :: ch in v ==> ch in OutVar(id) || ch == '=';
    RunWord(done, v);
  }

  lemma OpenQuote(done: seq<Token>, w: Word, rest: string)
    ensures Run(Bare(done, w), ['"'] + rest) == Run(Dbl(done, w), rest)
  {
    RunCons(Bare(done, w), '"', rest);
  }

  lemma OpenSubst(done: seq<Token>, w: Word, rest: string)
    ensures Run(Dbl(done, w), "$(" + rest) == Run(Sub(done, w, "", ScanStart), rest)
  {
    assert "$(" + rest == ['$'] + (['('] + rest);
    RunCons(Dbl(done, w), '$', ['('] + rest);
    RunCons(Dollar(done, w), '(', rest);
  }

  lemma RunSubst(done: seq<Token>, w: Word, text: string)
    requires SelfContained(text)
    ensures Run(Sub(done, w, "", ScanStart), text + ")\"") == Bare(done, w + [Subst(text)])
  {
    RunAppend(Sub(done, w, "", ScanStart), text, ")\"");
    RunSubText(done, w, "", ScanStart, text);
    assert "" + text == text;
    RunTwo(Sub(done, w, text, ScanRun(ScanStart, text)), ')', '"');
  }

  // ---------------------------------------------------------------- tokens of a text

  /** The lexer has read exactly the tokens ts, the last of which may still be open. */
  predicate Lexed(st: Lex, ts: seq<Token>) {
    (st.Gap? && st.done == ts) || (st.Bare? && st.done + [W(st.word)] == ts)
  }

  /** Wherever a token may start, the text reads as these tokens. */
  ghost predicate LexesTo(text: string, ts: seq<Token>) {
    forall done {:trigger Run(Gap(done), text)} :: Lexed(Run(Gap(done), text), done + ts)
  }

  lemma AfterBlank(st: Lex, ts: seq<Token>)
    requires Lexed(st, ts)
    ensures Step(st, ' ') == Gap(ts)
    ensures Step(st, ';') == Gap(ts + [Semi])
    ensures Finish(st) == Some(ts)
  {
    if st.Bare? {
      assert st.done + [W(st.word), Semi] == ts + [Semi];
    }
  }

  lemma WordLexes(s: string)
    requires s != "" && forall c :: c in s ==> PlainChar(c)
    ensures LexesTo(s, [W(Plain(s))])
  {
    forall done ensures Lexed(Run(Gap(done), s), done + [W(Plain(s))]) {
      RunWord(done, s);
    }
  }

  lemma QuotedLexes(s: string)
    ensures LexesTo(ShellSingleQuote(s), [W(Quoted(s))])
  {
    forall done ensures Lexed(Run(Gap(done), ShellSingleQuote(s)), done + [W(Quoted(s))]) {
      RunQuoted(Gap(done), s);
      assert [] + Quoted(s) == Quoted(s);
    }
  }

  lemma ThenBlank(st: Lex, ts: seq<Token>, b: string, tb: seq<Token>)
    requires Lexed(st, ts) && LexesTo(b, tb)
    ensures Lexed(Run(st, " " + b), ts + tb)
  {
    AfterBlank(st, ts);
    RunCons(st, ' ', b);
  }

  lemma ThenSemi(st: Lex, ts: seq<Token>, b: string, tb: seq<Token>)
    requires Lexed(st, ts) && LexesTo(b, tb)
    ensures Lexed(Run(st, "; " + b), ts + [Semi] + tb)
  {
    AfterBlank(st, ts);
    assert "; " + b == [';'] + ([' '] + b);
    RunCons(st, ';', [' '] + b);
    RunCons(Gap(ts + [Semi]), ' ', b);
  }

  /** The operators of AND-OR lists and pipelines, with a blank on either side. */
  function OpText(t: Token): string
    requires t == AndIf || t == OrIf || t == Pipe
  {
    match t
    case AndIf => " && "
    case OrIf => " || "
    case Pipe => " | "
  }

  lemma ThenPipe(st: Lex, ts: seq<Token>, b: string)
    requires Lexed(st, ts)
    ensures Run(st, " | " + b) == Run(Gap(ts + [Pipe]), b)
  {
    AfterBlank(st, ts);
    var r2 := [' '] + b;
    var r1 := ['|'] + r2;
    assert " | " + b == [' '] + r1;
    RunCons(st, ' ', r1);
    RunCons(Gap(ts), '|', r2);
    RunCons(Bar(ts), ' ', b);
  }

  lemma ThenDouble(st: Lex, ts: seq<Token>, t: Token, b: string)
    requires t == AndIf || t == OrIf
    requires Lexed(st, ts)
    ensures Run(st, OpText(t) + b) == Run(Gap(ts + [t]), b)
  {
    AfterBlank(st, ts);
    var c := if t == AndIf then '&' else '|';
    var r3 := [' '] + b;
    var r2 := [c] + r3;
    var r1 := [c] + r2;
    assert OpText(t) + b == [' '] + r1;
    RunCons(st, ' ', r1);
    RunCons(Gap(ts), c, r2);
    RunCons(Step(Gap(ts), c), c, r3);
    RunCons(Gap(ts + [t]), ' ', b);
  }

  lemma ThenOp(st: Lex, ts: seq<Token>, t: Token, b: string, tb: seq<Token>)
    requires t == AndIf || t == OrIf || t == Pipe
    requires Lexed(st, ts) && LexesTo(b, tb)
    ensures Lexed(Run(st, OpText(t) + b), ts + [t] + tb)
  {
    if t == Pipe {
      ThenPipe(st, ts, b);
    } else {
      ThenDouble(st, ts, t, b);
    }
  }

  lemma RunFrom(done: seq<Token>, a: string, ta: seq<Token>, more: string)
    requires LexesTo(a, ta)
    ensures Run(Gap(done), a + more) == Run(Run(Gap(done), a), more)
    ensures Lexed(Run(Gap(done), a), done + ta)
  {
    RunAppend(Gap(done), a, more);
  }

  lemma SpacedAt(done: seq<Token>, a: string, ta: seq<Token>, b: string, tb: seq<Token>)
    requires LexesTo(a, ta) && LexesTo(b, tb)
    ensures Lexed(Run(Gap(done), a + (" " + b)), done + (ta + tb))
  {
    RunFrom(done, a, ta, " " + b);
    ThenBlank(Run(Gap(done), a), done + ta, b, tb);
    assert done + ta + tb == done + (ta + tb);
  }

  /** Two texts with a blank between them. */
  lemma Spaced(a: string, ta: seq<Token>, b: string, tb: seq<Token>)
    requires LexesTo(a, ta) && LexesTo(b, tb)
    ensures LexesTo(a + " " + b, ta + tb)
  {
    var text := a + (" " + b);
    assert a + " " + b == text;
    forall done ensures Lexed(Run(Gap(done), text), done + (ta + tb)) {
      SpacedAt(done, a, ta, b, tb);
    }
  }

  lemma SequencedAt(done: seq<Token>, a: string, ta: seq<Token>, b: string, tb: seq<Token>)
    requires LexesTo(a, ta) && LexesTo(b, tb)
    ensures Lexed(Run(Gap(done), a + ("; " + b)), done + (ta + [Semi] + tb))
  {
    RunFrom(done, a, ta, "; " + b);
    ThenSemi(Run(Gap(done), a), done + ta, b, tb);
    assert done + ta + [Semi] + tb == done + (ta + [Semi] + tb);
  }

  /** Two texts with "; " between them. */
  lemma Sequenced(a: string, ta: seq<Token>, b: string, tb: seq<Token>)
    requires LexesTo(a, ta) && LexesTo(b, tb)
    ensures LexesTo(a + "; " + b, ta + [Semi] + tb)
  {
    var text := a + ("; " + b);
    assert a + "; " + b == text;
    forall done ensures Lexed(Run(Gap(done), text), done + (ta + [Semi] + tb)) {
      SequencedAt(done, a, ta, b, tb);
    }
  }

  lemma OperatedAt(done: seq<Token>, a: string, ta: seq<Token>, t: Token, b: string, tb: seq<Token>)
    requires (t == AndIf || t == OrIf || t == Pipe) && LexesTo(a, ta) && LexesTo(b, tb)
    ensures Lexed(Run(Gap(done), a + (OpText(t) + b)), done + (ta + [t] + tb))
  {
    RunFrom(done, a, ta, OpText(t) + b);
    ThenOp(Run(Gap(done), a), done + ta, t, b, tb);
    assert done + ta + [t] + tb == done + (ta + [t] + tb);
  }

  /** Two texts with an operator between them. */
  lemma Operated(a: string, ta: seq<Token>, t: Token, b: string, tb: seq<Token>)
    requires (t == AndIf || t == OrIf || t == Pipe) && LexesTo(a, ta) && LexesTo(b, tb)
    ensures LexesTo(a + OpText(t) + b, ta + [t] + tb)
  {
    var text := a + (OpText(t) + b);
    assert a + OpText(t) + b == text;
    forall done ensures Lexed(Run(Gap(done), text), done + (ta + [t] + tb)) {
      OperatedAt(done, a, ta, t, b, tb);
    }
  }

  lemma LexesTokens(text: string, ts: seq<Token>)
    requires LexesTo(text, ts)
    ensures Tokens(text) == Some(ts)
  {
    assert [] + ts == ts;
    assert Lexed(Run(Gap([]), text), [] + ts);
    AfterBlank(Run(Gap([]), text), ts);
  }
}
