/**
 cmd/pack-tools/converter/cis_auditctl.go: one audit rule brought to a common form, by regular
 expressions over its text when the pack is converted, and by sed and sort over the host's rules when
 the emitted script runs.
 */
module AuditRules {
  import opened Common
  import opened Sorting

  // ---------------------------------------------------------------- matching

  predicate Letter(c: char) {
    'a' <= c <= 'z' || 'A' <= c <= 'Z' || c == '_'
  }

  predicate Digit(c: char) {
    '0' <= c <= '9'
  }

  predicate ListChar(c: char) {
    Letter(c) || Digit(c) || c == ','
  }

  predicate KeyChar(c: char) {
    '!' <= c <= '~'
  }

  /** How many characters from the start are in the class. */
  function Run(s: string, inClass: char -> bool): (n: nat)
    ensures n <= |s|
  {
    if s == "" || !inClass(s[0]) then 0 else 1 + Run(s[1..], inClass)
  }

  /** The rewriting steps. The first four are the converter's, in its order; the emitted script writes a
      list of its own in place of the first, then takes the second and third. */
  datatype Step = SortLists | KeyForm | AuidUnset | UidPlaceholder | PutList(list: string)

  function Flag(p: Step): string {
    match p
    case SortLists => "-S"
    case PutList(_) => "-S"
    case KeyForm => "-k"
    case AuidUnset => "-F"
    case UidPlaceholder => "-F"
  }

  function Stem(p: Step): string {
    match p
    case AuidUnset => "auid!="
    case UidPlaceholder => "auid>="
    case _ => ""
  }

  /** What a match starts with; every pattern starts with a space. */
  function Prefix(p: Step): string {
    " " + Flag(p) + " " + Stem(p)
  }

  /** The length of the rest of the match, greedily; 0 when there is none. */
  function BodyLength(p: Step, s: string): (n: nat)
    ensures n <= |s|
  {
    match p
    case KeyForm => Run(s, KeyChar)
    case UidPlaceholder => Run(s, Digit)
    case AuidUnset =>
      if s != "" && s[0] == '-' then
        var n := Run(s[1..], Digit);
        if n == 0 then 0 else 1 + n
      else Run(s, Digit)
    case _ => if s != "" && Letter(s[0]) then 1 + Run(s[1..], ListChar) else 0
  }

  const PLACEHOLDER := "__UID_MIN__"

  function Put(p: Step, body: string): string {
    match p
    case SortLists => " -S " + Join(Sort(Split(body, ','), TextLe), ",")
    case PutList(list) => " -S " + list
    case KeyForm => " -F key=" + body
    case AuidUnset => " -F auid!=unset"
    case UidPlaceholder => " -F auid>=" + PLACEHOLDER
  }

  predicate Hit(s: string, p: Step) {
    StartsWith(s, Prefix(p)) && BodyLength(p, s[|Prefix(p)|..]) > 0
  }

  function HitBody(s: string, p: Step): (body: string)
    requires Hit(s, p)
    ensures body != ""
  {
    var rest := s[|Prefix(p)|..];
    rest[..BodyLength(p, rest)]
  }

  function AfterHit(s: string, p: Step): (rest: string)
    requires Hit(s, p)
    ensures |rest| < |s|
  {
    var rest := s[|Prefix(p)|..];
    rest[BodyLength(p, rest)..]
  }

  /** Every match is replaced, from the left (ReplaceAllString, and s///g). */
  function ReplaceAll(s: string, p: Step): string
    decreases |s|
  {
    if s == "" then ""
    else if Hit(s, p) then Put(p, HitBody(s, p)) + ReplaceAll(AfterHit(s, p), p)
    else [s[0]] + ReplaceAll(s[1..], p)
  }

  /** The first match is replaced (s/// without g). */
  function ReplaceFirst(s: string, p: Step): string {
    if s == "" then ""
    else if Hit(s, p) then Put(p, HitBody(s, p)) + AfterHit(s, p)
    else [s[0]] + ReplaceFirst(s[1..], p)
  }

  /** The body of the last match, as a greedy prefix leaves it. */
  function LastBody(s: string, p: Step): Option<string> {
    if s == "" then None
    else match LastBody(s[1..], p)
      case Some(body) => Some(body)
      case None => if Hit(s, p) then Some(HitBody(s, p)) else None
  }

  // ---------------------------------------------------------------- the two normalisers

  /** normalizeAuditctlRule. */
  function NormalizeAuditctlRule(rule: string): string {
    ReplaceAll(ReplaceAll(ReplaceAll(ReplaceAll(rule, SortLists), KeyForm), AuidUnset), UidPlaceholder)
  }

  /** One line through normalize_fn. The order is the host's, as its locale has it. */
  function NormalizeFn(line: string, host: (string, string) -> bool): string {
    var listed :=
      if Contains(line, " -S ") then
        match LastBody(line, PutList(""))
        case Some(list) => ReplaceFirst(line, PutList(Join(SortUnique(Split(list, ','), host), ",")))
        case None => ReplaceFirst(line, PutList(""))
      else line;
    ReplaceAll(ReplaceAll(listed, KeyForm), AuidUnset)
  }

  /** ${r//__UID_MIN__/$UID_MIN}. */
  function FillUid(s: string, uid: string): string
    decreases |s|
  {
    if s == "" then ""
    else if StartsWith(s, PLACEHOLDER) then uid + FillUid(s[|PLACEHOLDER|..], uid)
    else [s[0]] + FillUid(s[1..], uid)
  }

  // ---------------------------------------------------------------- rules as words

  /** The parts of a rule after its first word. */
  datatype Item =
    | Syscalls(names: seq<string>)
    | Key(short: bool, name: string)
    | AuidNot(value: string)
    | AuidMin(value: string)
    | Field(text: string)
    | Other(word: string)

  datatype Rule = Rule(head: string, items: seq<Item>)

  function Words(item: Item): seq<string> {
    match item
    case Syscalls(names) => ["-S", Join(names, ",")]
    case Key(short, name) => if short then ["-k", name] else ["-F", "key=" + name]
    case AuidNot(value) => ["-F", "auid!=" + value]
    case AuidMin(value) => ["-F", "auid>=" + value]
    case Field(text) => ["-F", text]
    case Other(word) => [word]
  }

  function Spaced(words: seq<string>): string {
    if words == [] then "" else " " + words[0] + Spaced(words[1..])
  }

  function ItemsText(items: seq<Item>): string {
    if items == [] then "" else Spaced(Words(items[0])) + ItemsText(items[1..])
  }

  /** A rule as it is written, one space between words. */
  function Text(r: Rule): string {
    r.head + ItemsText(r.items)
  }

  predicate IsNumber(s: string) {
    BodyLength(AuidUnset, s) == |s| && s != ""
  }

  predicate IsDigits(s: string) {
    s != "" && forall c :: c in s ==> Digit(c)
  }

  predicate NameOk(name: string) {
    name != "" && Letter(name[0]) && forall c :: c in name ==> Letter(c) || Digit(c)
  }

  predicate ItemOk(item: Item) {
    match item
    case Syscalls(names) => names != [] && forall n :: n in names ==> NameOk(n)
    case Key(_, name) => name != "" && name[0] != '-' && forall c :: c in name ==> KeyChar(c)
    case AuidNot(value) => value == "unset" || IsNumber(value)
    case AuidMin(value) => value == PLACEHOLDER || IsDigits(value)
    case Field(text) =>
      && !IsFlag(text) && ' ' !in text
      && !StartsWith(text, "key=") && !StartsWith(text, "auid!=") && !StartsWith(text, "auid>=")
    case Other(word) => ' ' !in word && !IsFlag(word)
  }

  predicate IsFlag(word: string) {
    word == "-S" || word == "-k" || word == "-F"
  }

  predicate RuleOk(r: Rule) {
    ' ' !in r.head && forall i :: i in r.items ==> ItemOk(i)
  }

  // ---------------------------------------------------------------- the classes of characters

  /** By the characters' numbers. */
  predicate AsciiLetter(c: char) {
    65 <= c as int <= 90 || 97 <= c as int <= 122
  }

  predicate AsciiDigit(c: char) {
    48 <= c as int <= 57
  }

  lemma ClassesMean(c: char)
    ensures Letter(c) <==> AsciiLetter(c) || c == '_'
    ensures Digit(c) <==> AsciiDigit(c)
    ensures ListChar(c) <==> AsciiLetter(c) || c == '_' || AsciiDigit(c) || c == ','
    ensures KeyChar(c) <==> 33 <= c as int <= 126
  {
  }

  lemma {:induction false} RunsThrough(s: string, inClass: char -> bool)
    ensures Run(s, inClass) == |s| <==> forall c :: c in s ==> inClass(c)
    ensures Run(s, inClass) > 0 <==> s != "" && inClass(s[0])
  {
    if s != "" {
      RunsThrough(s[1..], inClass);
      assert s == [s[0]] + s[1..];
    }
  }

  /** A number may have a sign. */
  lemma NumberMeans(s: string)
    ensures IsNumber(s) <==> IsDigits(s) || (s != "" && s[0] == '-' && IsDigits(s[1..]))
  {
    RunsThrough(s, Digit);
    if s != "" {
      RunsThrough(s[1..], Digit);
      assert s[0] in s;
    }
  }

  /** Where the four patterns match: behind their flags, a list starts with a letter, a key with any visible
      character, the unset user with a number, and the least user number with a digit. */
  lemma HitMeans(s: string)
    ensures Hit(s, SortLists) <==> StartsWith(s, " -S ") && |s| > 4 && Letter(s[4])
    ensures Hit(s, KeyForm) <==> StartsWith(s, " -k ") && |s| > 4 && KeyChar(s[4])
    ensures Hit(s, AuidUnset) <==>
              && StartsWith(s, " -F auid!=") && |s| > 10
              && (Digit(s[10]) || (s[10] == '-' && |s| > 11 && Digit(s[11])))
    ensures Hit(s, UidPlaceholder) <==> StartsWith(s, " -F auid>=") && |s| > 10 && Digit(s[10])
  {
    assert Prefix(SortLists) == " -S " && Prefix(KeyForm) == " -k ";
    assert Prefix(AuidUnset) == " -F auid!=" && Prefix(UidPlaceholder) == " -F auid>=";
    hide Prefix, StartsWith;
    if |s| >= 4 {
      RunsThrough(s[4..], KeyChar);
    }
    if |s| >= 10 {
      RunsThrough(s[10..], Digit);
    }
    if |s| >= 11 {
      assert s[10..][1..] == s[11..];
      RunsThrough(s[11..], Digit);
    }
  }

  // ---------------------------------------------------------------- what each step does to an item

  function StepItem(item: Item, p: Step): Item {
    match (item, p)
    case (Syscalls(names), SortLists) => Syscalls(Sort(names, TextLe))
    case (Key(_, name), KeyForm) => Key(false, name)
    case (AuidNot(_), AuidUnset) => AuidNot("unset")
    case (AuidMin(_), UidPlaceholder) => AuidMin(PLACEHOLDER)
    case _ => item
  }

  function StepItems(items: seq<Item>, p: Step): (r: seq<Item>)
    ensures |r| == |items|
    ensures forall i :: 0 <= i < |items| ==> r[i] == StepItem(items[i], p)
  {
    if items == [] then [] else [StepItem(items[0], p)] + StepItems(items[1..], p)
  }
}
