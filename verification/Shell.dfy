/**
 A fragment of the POSIX Shell Command Language (POSIX.1-2017, volume Shell and Utilities), as
 bash runs it: the lexer of sections 2.2 and 2.3, the grammar of sections 2.9.1 to 2.9.4, and an
 evaluator. Text outside the fragment is rejected rather than given a made-up meaning.
 */
module Shell {
  import opened Common

  // ---------------------------------------------------------------- words and tokens

  /** One unit of a word: a character (quoted or not), "$name", or "$(text)". */
  datatype Elem = Ch(c: char, quoted: bool) | Var(name: string) | Subst(text: string)

  type Word = seq<Elem>

  datatype Token = W(word: Word) | Semi | AndIf | OrIf | Pipe

  function Plain(s: string): (w: Word)
    ensures |w| == |s|
  {
    seq(|s|, i requires 0 <= i < |s| => Ch(s[i], false))
  }

  function Quoted(s: string): (w: Word)
    ensures |w| == |s|
  {
    seq(|s|, i requires 0 <= i < |s| => Ch(s[i], true))
  }

  predicate NameStart(c: char) {
    'a' <= c <= 'z' || 'A' <= c <= 'Z' || c == '_'
  }

  predicate NameChar(c: char) {
    NameStart(c) || '0' <= c <= '9'
  }

  /** A valid variable name (section 3.235 of the Base Definitions). */
  predicate IsName(s: string) {
    s != "" && NameStart(s[0]) && forall c :: c in s ==> NameChar(c)
  }

  /** Characters that stand for themselves in an unquoted word of the fragment. */
  predicate PlainChar(c: char) {
    NameChar(c) || c in "[]{}!=-./,:%+@^"
  }

  // ---------------------------------------------------------------- command substitution text

  /** Where the scan for the ')' that closes "$(" stands: open parentheses and double quotes are
      stacked, single quotes and escapes are modes of their own. */
  datatype Nest = Paren | DoubleQuote

  datatype Scan =
    | Lost                                             // comments, back-quotes, $'..', here-documents
    | Code(stack: seq<Nest>, prev: char)
    | Single(stack: seq<Nest>)
    | Escape(stack: seq<Nest>)

  const ScanStart := Code([], ' ')

  predicate InQuotes(stack: seq<Nest>) {
    stack != [] && stack[|stack| - 1] == DoubleQuote
  }

  /** The scan stands where an unquoted ')' would close the substitution. */
  predicate AtTop(s: Scan) {
    s.Code? && s.stack == []
  }

  function ScanStep(s: Scan, c: char): Scan {
    match s
    case Lost => Lost
    case Single(stack) => if c == '\'' then Code(stack, c) else s
    case Escape(stack) => Code(stack, 'x')
    case Code(stack, prev) =>
      if c == '`' then Lost
      else if c == '\\' then Escape(stack)
      else if InQuotes(stack) then
        if c == '"' then Code(stack[..|stack| - 1], c)
        else if c == '(' && prev == '$' then Code(stack + [Paren], c)
        else Code(stack, c)
      else if c == '\'' then (if prev == '$' then Lost else Single(stack))
      else if c == '"' then (if prev == '$' then Lost else Code(stack + [DoubleQuote], c))
      else if c == '(' then Code(stack + [Paren], c)
      else if c == ')' then (if stack == [] then Lost else Code(stack[..|stack| - 1], c))
      else if c == '#' && prev in " \t\n;|&()<>" then Lost
      else if c == '<' && prev == '<' then Lost
      else Code(stack, c)
  }

  function ScanRun(s: Scan, text: string): Scan
    decreases |text|
  {
    if text == "" then s else ScanRun(ScanStep(s, text[0]), text[1..])
  }

  /** The text can stand inside "$(" and ")": quotes and parentheses in it pair up, it does not
      end inside a comment or escape, and it does not begin with the '(' of "$((". */
  predicate SelfContained(text: string) {
    AtTop(ScanRun(ScanStart, text)) && (text != "" ==> text[0] != '(')
  }

  // ---------------------------------------------------------------- lexer

  /** Lexer states; done holds the finished tokens, word the one being read. */
  datatype Lex =
    | Stuck
    | Gap(done: seq<Token>)
    | Bare(done: seq<Token>, word: Word)
    | Esc(done: seq<Token>, word: Word)
    | Sgl(done: seq<Token>, word: Word)
    | Dbl(done: seq<Token>, word: Word)
    | Dollar(done: seq<Token>, word: Word)
    | Name(done: seq<Token>, word: Word, name: string)
    | Sub(done: seq<Token>, word: Word, text: string, scan: Scan)
    | Amp(done: seq<Token>)
    | Bar(done: seq<Token>)

  function StepGap(done: seq<Token>, c: char): Lex {
    if c == ' ' || c == '\t' then Gap(done)
    else if c == ';' then Gap(done + [Semi])
    else if c == '&' then Amp(done)
    else if c == '|' then Bar(done)
    else if c == '\'' then Sgl(done, [])
    else if c == '"' then Dbl(done, [])
    else if c == '\\' then Esc(done, [])
    else if PlainChar(c) then Bare(done, [Ch(c, false)])
    else Stuck
  }

  function StepBare(done: seq<Token>, word: Word, c: char): Lex {
    if c == ' ' || c == '\t' then Gap(done + [W(word)])
    else if c == ';' then Gap(done + [W(word), Semi])
    else if c == '&' then Amp(done + [W(word)])
    else if c == '|' then Bar(done + [W(word)])
    else if c == '\'' then Sgl(done, word)
    else if c == '"' then Dbl(done, word)
    else if c == '\\' then Esc(done, word)
    else if PlainChar(c) then Bare(done, word + [Ch(c, false)])
    else Stuck
  }

  function StepDbl(done: seq<Token>, word: Word, c: char): Lex {
    if c == '"' then Bare(done, word)
    else if c == '$' then Dollar(done, word)
    else if c == '\\' || c == '`' then Stuck
    else Dbl(done, word + [Ch(c, true)])
  }

  function Step(st: Lex, c: char): Lex {
    match st
    case Stuck => Stuck
    case Gap(done) => StepGap(done, c)
    case Bare(done, word) => StepBare(done, word, c)
    case Esc(done, word) => if c == '\n' then Stuck else Bare(done, word + [Ch(c, true)])
    case Sgl(done, word) =>
      if c == '\'' then Bare(done, word) else Sgl(done, word + [Ch(c, true)])
    case Dbl(done, word) => StepDbl(done, word, c)
    case Dollar(done, word) =>
      if c == '(' then Sub(done, word, "", ScanStart)
      else if NameStart(c) then Name(done, word, [c])
      else Stuck
    case Name(done, word, name) =>
      if NameChar(c) then Name(done, word, name + [c])
      else StepDbl(done, word + [Var(name)], c)
    case Sub(done, word, text, scan) =>
      if c == ')' && AtTop(scan) then Dbl(done, word + [Subst(text)])
      else if ScanStep(scan, c) == Lost || (text == "" && c == '(') then Stuck
      else Sub(done, word, text + [c], ScanStep(scan, c))
    case Amp(done) => if c == '&' then Gap(done + [AndIf]) else Stuck
    case Bar(done) => if c == '|' then Gap(done + [OrIf]) else StepGap(done + [Pipe], c)
  }

  function Run(st: Lex, text: string): Lex
    decreases |text|
  {
    if text == "" then st else Run(Step(st, text[0]), text[1..])
  }

  function Finish(st: Lex): Option<seq<Token>> {
    match st
    case Gap(done) => Some(done)
    case Bare(done, word) => Some(done + [W(word)])
    case Bar(done) => Some(done + [Pipe])
    case _ => None
  }

  function Tokens(text: string): Option<seq<Token>> {
    Finish(Run(Gap([]), text))
  }

  // ---------------------------------------------------------------- grammar

  datatype Node =
    | Simple(words: seq<Word>)
    | Pipeline(parts: seq<Node>)
    | Not(body: Node)
    | And(left: Node, right: Node)
    | Or(left: Node, right: Node)
    | Then(left: Node, right: Node)
    | Group(body: Node)
    | IfElse(test: Node, yes: Node, no: Node)

  datatype Parse = Fail | Got(node: Node, rest: seq<Token>)

  datatype ParseSeq = FailSeq | GotSeq(nodes: seq<Node>, rest: seq<Token>)

  /** Reserved words count only when unquoted and in command position (section 2.4). */
  predicate Is(t: Token, reserved: string) {
    t == W(Plain(reserved))
  }

  const RESERVED: seq<string> :=
    ["!", "{", "}", "case", "do", "done", "elif", "else", "esac", "fi", "for", "if", "in", "then",
     "until", "while", "function", "select", "time", "[[", "]]"]

  predicate Reserved(t: Token) {
    exists i | 0 <= i < |RESERVED| :: Is(t, RESERVED[i])
  }

  predicate Closes(ts: seq<Token>) {
    ts == [] || Is(ts[0], "}") || Is(ts[0], "then") || Is(ts[0], "else") || Is(ts[0], "fi")
  }

  /** The words of a simple command: as many as come before the next operator. */
  function TakeWords(ts: seq<Token>): (n: nat)
    ensures n <= |ts|
    ensures forall i :: 0 <= i < n ==> ts[i].W?
  {
    if ts == [] || !ts[0].W? then 0 else 1 + TakeWords(ts[1..])
  }

  function WordsOf(ts: seq<Token>): (ws: seq<Word>)
    requires forall i :: 0 <= i < |ts| ==> ts[i].W?
    ensures |ws| == |ts|
  {
    seq(|ts|, i requires 0 <= i < |ts| => ts[i].word)
  }

  function ParseList(ts: seq<Token>): (r: Parse)
    ensures r.Got? ==> |r.rest| < |ts|
    decreases |ts|, 5
  {
    match ParseAndOr(ts)
    case Fail => Fail
    case Got(n, rest) =>
      if rest == [] || rest[0] != Semi then Got(n, rest)
      else if Closes(rest[1..]) then Got(n, rest[1..])
      else match ParseList(rest[1..])
        case Fail => Fail
        case Got(m, rest') => Got(Then(n, m), rest')
  }

  function ParseAndOr(ts: seq<Token>): (r: Parse)
    ensures r.Got? ==> |r.rest| < |ts|
    decreases |ts|, 4
  {
    match ParsePipeline(ts)
    case Fail => Fail
    case Got(n, rest) => ParseAndOrTail(n, rest)
  }

  /** Section 2.9.3: && and || have equal precedence and associate to the left. */
  function ParseAndOrTail(left: Node, ts: seq<Token>): (r: Parse)
    ensures r.Got? ==> |r.rest| <= |ts|
    decreases |ts|, 4
  {
    if ts == [] || (ts[0] != AndIf && ts[0] != OrIf) then Got(left, ts)
    else match ParsePipeline(ts[1..])
      case Fail => Fail
      case Got(n, rest) =>
        ParseAndOrTail(if ts[0] == AndIf then And(left, n) else Or(left, n), rest)
  }

  /** Section 2.9.2: an optional ! negates the whole pipeline. */
  function ParsePipeline(ts: seq<Token>): (r: Parse)
    ensures r.Got? ==> |r.rest| < |ts|
    decreases |ts|, 3
  {
    if ts != [] && Is(ts[0], "!") then
      match ParsePipeSeq(ts[1..])
      case FailSeq => Fail
      case GotSeq(ns, rest) => Got(Not(PipelineOf(ns)), rest)
    else
      match ParsePipeSeq(ts)
      case FailSeq => Fail
      case GotSeq(ns, rest) => Got(PipelineOf(ns), rest)
  }

  function PipelineOf(ns: seq<Node>): Node {
    if |ns| == 1 then ns[0] else Pipeline(ns)
  }

  function ParsePipeSeq(ts: seq<Token>): (r: ParseSeq)
    ensures r.GotSeq? ==> |r.rest| < |ts|
    decreases |ts|, 2
  {
    match ParseCommand(ts)
    case Fail => FailSeq
    case Got(n, rest) =>
      if rest == [] || rest[0] != Pipe then GotSeq([n], rest)
      else match ParsePipeSeq(rest[1..])
        case FailSeq => FailSeq
        case GotSeq(ns, rest') => GotSeq([n] + ns, rest')
  }

  function ParseCommand(ts: seq<Token>): (r: Parse)
    ensures r.Got? ==> |r.rest| < |ts|
    decreases |ts|, 1
  {
    if ts == [] || !ts[0].W? then Fail
    else if Is(ts[0], "{") then
      match ParseList(ts[1..])
      case Fail => Fail
      case Got(n, rest) =>
        if rest != [] && Is(rest[0], "}") then Got(Group(n), rest[1..]) else Fail
    else if Is(ts[0], "if") then ParseIf(ts[1..])
    else if Reserved(ts[0]) then Fail
    else
      var k := TakeWords(ts);
      Got(Simple(WordsOf(ts[..k])), ts[k..])
  }

  /** Section 2.9.4.1, with exactly one else part. */
  function ParseIf(ts: seq<Token>): (r: Parse)
    ensures r.Got? ==> |r.rest| < |ts|
    decreases |ts|, 6
  {
    match ParseList(ts)
    case Fail => Fail
    case Got(test, r1) =>
      if r1 == [] || !Is(r1[0], "then") then Fail
      else match ParseList(r1[1..])
        case Fail => Fail
        case Got(yes, r2) =>
          if r2 == [] || !Is(r2[0], "else") then Fail
          else match ParseList(r2[1..])
            case Fail => Fail
            case Got(no, r3) =>
              if r3 == [] || !Is(r3[0], "fi") then Fail
              else Got(IfElse(test, yes, no), r3[1..])
  }

  /** A whole script: one list and nothing after it. */
  function ParseScript(text: string): Option<Node> {
    match Tokens(text)
    case None => None
    case Some(ts) =>
      match ParseList(ts)
      case Fail => None
      case Got(n, rest) => if rest == [] then Some(n) else None
  }

  // ---------------------------------------------------------------- evaluation

  /** What the audited machine contributes.
      output: what a command text writes; pipe: how many characters a printf hands to a pipe in one write,
      which ends whatever the reader does; leaves: how many characters a grep with this flag and operand has
      read of this text when it stops reading, if it stops early; regex: whether a line matches an extended
      regular expression; option: what grep does when its operand is an option; complete: whether bash reads a
      text as a list of whole commands, as it must the text of each command substitution; extract: what a
      pattern takes out of a text; number: the number that a text stands for. */
  datatype Host = Host(
    output: string -> string,
    complete: string -> bool,
    pipe: nat,
    leaves: (string, string, string) -> nat,
    regex: (string, string) -> bool,
    option: (string, string, string) -> bool,
    extract: (string, string) -> string,
    number: string -> Option<real>)

  datatype Env = Env(vars: map<string, string>, pipefail: bool)

  const FreshEnv := Env(map[], false)

  datatype Outcome = Outcome(env: Env, out: string, ok: bool)

  /** Section 2.6.3: a command substitution loses its trailing newlines. */
  function StripNewlines(s: string): string
    decreases |s|
  {
    if s != "" && s[|s| - 1] == '\n' then StripNewlines(s[..|s| - 1]) else s
  }

  function ExpandElem(e: Elem, vars: map<string, string>, h: Host): string {
    match e
    case Ch(c, _) => [c]
    case Var(name) => if name in vars then vars[name] else ""
    case Subst(text) => StripNewlines(h.output(text))
  }

  function Expand(w: Word, vars: map<string, string>, h: Host): string {
    if w == [] then "" else ExpandElem(w[0], vars, h) + Expand(w[1..], vars, h)
  }

  function ExpandAll(ws: seq<Word>, vars: map<string, string>, h: Host): (args: seq<string>)
    ensures |args| == |ws|
  {
    seq(|ws|, i requires 0 <= i < |ws| => Expand(ws[i], vars, h))
  }

  /** NAME=value in front of a command (section 2.9.1): the length of the name, if w is one. */
  function AssignedName(w: Word): (n: Option<nat>)
    ensures n.Some? ==> n.value < |w|
  {
    if w == [] || !w[0].Ch? || w[0].quoted then None
    else if w[0].c == '=' then Some(0)
    else if !NameChar(w[0].c) then None
    else match AssignedName(w[1..])
      case None => None
      case Some(k) => Some(k + 1)
  }

  function CharsOf(w: Word): (s: string)
    ensures |s| == |w|
  {
    seq(|w|, i requires 0 <= i < |w| => if w[i].Ch? then w[i].c else ' ')
  }

  predicate IsAssignment(w: Word) {
    AssignedName(w).Some? && IsName(CharsOf(w[..AssignedName(w).value]))
  }

  /** The lines grep reads: a final newline does not start another line. */
  function Lines(text: string): seq<string> {
    if text == "" then []
    else if text[|text| - 1] == '\n' then Split(text[..|text| - 1], '\n')
    else Split(text, '\n')
  }

  /** grep -F: some line contains some pattern, patterns being separated by newlines. */
  predicate FixedMatch(pat: string, text: string) {
    exists line, p :: line in Lines(text) && p in Split(pat, '\n') && Contains(line, p)
  }

  /** Section 12.2 of the Base Definitions, guidelines 3 and 4: an option is '-' and at least one more
      character, so a lone '-' is an operand. */
  predicate IsOption(arg: string) {
    |arg| > 1 && arg[0] == '-'
  }

  predicate GrepMatches(flag: string, pat: string, text: string, h: Host) {
    if IsOption(pat) then h.option(flag, pat, text)
    else if flag == "-qF" then FixedMatch(pat, text)
    else exists line :: line in Lines(text) && h.regex(pat, line)
  }

  /** The whole lines of the text: up to its last newline. */
  function WholeLines(text: string): (r: string)
    ensures r <= text
    ensures r == "" || r[|r| - 1] == '\n'
    ensures '\n' !in text[|r|..]
  {
    if text == "" || text[|text| - 1] == '\n' then text
    else
      var r := WholeLines(text[..|text| - 1]);
      assert text[|r|..] == text[..|text| - 1][|r|..] + [text[|text| - 1]];
      r
  }

  /** A grep -q leaves once a line it has read matches. A writer that has not finished by then is cut off:
      its first write it has always finished. */
  predicate CutOff(flag: string, pat: string, text: string, h: Host) {
    var k := h.leaves(flag, pat, text);
    h.pipe <= k < |text| && GrepMatches(flag, pat, WholeLines(text[..k]), h)
  }

  /** The test utility on two and three arguments. */
  predicate TestHolds(args: seq<string>) {
    if |args| == 2 && args[0] == "-z" then args[1] == ""
    else if |args| == 2 && args[0] == "-n" then args[1] != ""
    else if |args| == 3 && args[1] == "=" then args[0] == args[2]
    else if |args| == 3 && args[1] == "!=" then args[0] != args[2]
    else false
  }

  function RunUtility(args: seq<string>, env: Env, input: string, h: Host): Outcome {
    if args == [] then Outcome(env, "", true)
    else if args[0] == "[" && |args| >= 2 && args[|args| - 1] == "]" then
      Outcome(env, "", TestHolds(args[1..|args| - 1]))
    else if |args| == 3 && args[0] == "printf" && args[1] == "%s" then
      Outcome(env, args[2], true)
    else if |args| == 3 && args[0] == "grep" && (args[1] == "-qF" || args[1] == "-qE") then
      Outcome(env, "", GrepMatches(args[1], args[2], input, h))
    else if |args| == 2 && args[0] == "echo" && StartsWith(args[1], "** ") then
      Outcome(env, args[1] + "\n", true)
    else if args == ["set", "-o", "pipefail"] then Outcome(env.(pipefail := true), "", true)
    else if args == ["true"] then Outcome(env, "", true)
    else Outcome(env, "", false)
  }

  function RunSimple(ws: seq<Word>, env: Env, input: string, h: Host): Outcome {
    if |ws| == 1 && IsAssignment(ws[0]) then
      var k := AssignedName(ws[0]).value;
      Outcome(env.(vars := env.vars[CharsOf(ws[0][..k]) := Expand(ws[0][k + 1..], env.vars, h)]),
              "", true)
    else RunUtility(ExpandAll(ws, env.vars, h), env, input, h)
  }

  function Exec(n: Node, env: Env, input: string, h: Host): Outcome
    decreases n, 1, 0
  {
    match n
    case Simple(ws) => RunSimple(ws, env, input, h)
    case Pipeline(parts) =>
      if parts == [] then Outcome(env, "", true)
      else
        var r := ExecPipe(n, 0, env, input, h);
        Outcome(env, r.0, if env.pipefail then r.1 else r.2)
    case Not(body) =>
      var r := Exec(body, env, input, h);
      Outcome(r.env, r.out, !r.ok)
    case And(left, right) =>
      var l := Exec(left, env, input, h);
      if !l.ok then l
      else var r := Exec(right, l.env, input, h); Outcome(r.env, l.out + r.out, r.ok)
    case Or(left, right) =>
      var l := Exec(left, env, input, h);
      if l.ok then l
      else var r := Exec(right, l.env, input, h); Outcome(r.env, l.out + r.out, r.ok)
    case Then(left, right) =>
      var l := Exec(left, env, input, h);
      var r := Exec(right, l.env, input, h);
      Outcome(r.env, l.out + r.out, r.ok)
    case Group(body) => Exec(body, env, input, h)
    case IfElse(test, yes, no) =>
      var t := Exec(test, env, input, h);
      var r := Exec(if t.ok then yes else no, t.env, input, h);
      Outcome(r.env, t.out + r.out, r.ok)
  }

  /** Each part of a pipeline runs in a subshell and reads what the part before it wrote: what the last
      part writes, whether every part ended with status zero, and whether the last one did. A part whose
      reader leaves before it has written everything ends with another status. */
  function ExecPipe(n: Node, k: nat, env: Env, input: string, h: Host): (string, bool, bool)
    requires n.Pipeline? && k < |n.parts|
    decreases n, 0, |n.parts| - k
  {
    var o := Exec(n.parts[k], env, input, h);
    if k + 1 == |n.parts| then (o.out, o.ok, o.ok)
    else
      var r := ExecPipe(n, k + 1, env, o.out, h);
      (r.0, o.ok && !ReaderLeaves(n.parts[k + 1], env, o.out, h) && r.1, r.2)
  }

  /** The next part of the pipeline is a grep that cuts off the writer of this text. */
  predicate ReaderLeaves(n: Node, env: Env, text: string, h: Host) {
    n.Simple? &&
    var args := ExpandAll(n.words, env.vars, h);
    |args| == 3 && args[0] == "grep" && (args[1] == "-qF" || args[1] == "-qE") && CutOff(args[1], args[2], text, h)
  }

  predicate WordComplete(w: Word, h: Host) {
    forall e :: e in w && e.Subst? ==> h.complete(e.text)
  }

  predicate TokensComplete(ts: seq<Token>, h: Host) {
    forall t :: t in ts && t.W? ==> WordComplete(t.word, h)
  }

  /** Section 2.6.3: the text of every command substitution is itself a list of whole commands. bash reads it
      with the script around it and refuses both when it is not. */
  predicate SubstsComplete(script: string, h: Host) {
    Tokens(script).Some? ==> TokensComplete(Tokens(script).value, h)
  }

  /** bash -c with this script: what it writes, if the script is in the fragment. A refused script writes
      nothing. */
  function RunScript(script: string, h: Host): Option<string> {
    match ParseScript(script)
    case None => None
    case Some(n) => Some(if SubstsComplete(script, h) then Exec(n, FreshEnv, "", h).out else "")
  }

  /** An audit command line: either a simple command of its own or bash -c with a script. */
  function RunAuditCommand(text: string, h: Host): Option<string> {
    match ParseScript(text)
    case None => None
    case Some(n) =>
      if !n.Simple? then None
      else if !SubstsComplete(text, h) then Some("")
      else
        var args := ExpandAll(n.words, map[], h);
        if |args| == 3 && args[0] == "bash" && args[1] == "-c" then RunScript(args[2], h)
        else Some(RunUtility(args, FreshEnv, "", h).out)
  }
}
