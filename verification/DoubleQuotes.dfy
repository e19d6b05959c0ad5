/**
 Go's %q writes a text between double quotes, and bash reads it back by section 2.2.3 of the POSIX.1-2017
 Shell Command Language, which knows fewer escapes and expands '$' and backquotes: which texts survive.
 */
module DoubleQuotes {
  import opened Common
  import Bytes

  // ---------------------------------------------------------------- writing

  /** The digits of n in base 16, in width places. */
  function HexText(n: nat, width: nat): (s: string)
    ensures |s| == width
  {
    if width == 0 then "" else HexText(n / 16, width - 1) + [Bytes.HexDigit(n % 16)]
  }

  predicate Ascii(c: char) {
    ' ' <= c <= '~'
  }

  /** strconv.IsPrint: the printable characters of ASCII, and beyond ASCII those of the parameter. */
  predicate IsPrint(c: char, wide: char -> bool) {
    Ascii(c) || (c >= '\U{0080}' && wide(c))
  }

  /** The letter of a one-letter escape. */
  function Letter(c: char): Option<char> {
    if c == '\U{0007}' then Some('a')
    else if c == '\U{0008}' then Some('b')
    else if c == '\t' then Some('t')
    else if c == '\n' then Some('n')
    else if c == '\U{000B}' then Some('v')
    else if c == '\U{000C}' then Some('f')
    else if c == '\r' then Some('r')
    else None
  }

  /** What %q writes for one character. */
  function QuoteChar(c: char, wide: char -> bool): string {
    if c == '"' || c == '\\' then ['\\', c]
    else if IsPrint(c, wide) then [c]
    else if Letter(c).Some? then ['\\', Letter(c).value]
    else if c < '\U{0080}' then "\\x" + HexText(c as int, 2)
    else if (c as int) < 0x1_0000 then "\\u" + HexText(c as int, 4)
    else "\\U" + HexText(c as int, 8)
  }

  function QuoteChars(s: string, wide: char -> bool): string {
    if s == "" then "" else QuoteChar(s[0], wide) + QuoteChars(s[1..], wide)
  }

  /** strconv.Quote. */
  function GoQuote(s: string, wide: char -> bool): string {
    "\"" + QuoteChars(s, wide) + "\""
  }

  // ---------------------------------------------------------------- no two texts are written alike

  lemma {:induction false} HexTells(m: nat, n: nat, width: nat)
    requires HexText(m, width) == HexText(n, width)
    requires m < Power(width) && n < Power(width)
    ensures m == n
  {
    if width > 0 {
      var s, t := HexText(m, width), HexText(n, width);
      assert s[..width - 1] == HexText(m / 16, width - 1) && t[..width - 1] == HexText(n / 16, width - 1);
      assert s[width - 1] == Bytes.HexDigit(m % 16) && t[width - 1] == Bytes.HexDigit(n % 16);
      Bytes.DigitRoundTrip(m % 16);
      Bytes.DigitRoundTrip(n % 16);
      HexTells(m / 16, n / 16, width - 1);
    }
  }

  function Power(width: nat): (p: nat)
    ensures p > 0
  {
    if width == 0 then 1 else 16 * Power(width - 1)
  }

  lemma Powers()
    ensures Power(2) == 0x100 && Power(4) == 0x1_0000 && Power(8) == 0x1_0000_0000
  {
    assert Power(1) == 16 && Power(2) == 16 * Power(1) && Power(3) == 16 * Power(2) && Power(4) == 16 * Power(3);
    assert Power(5) == 16 * Power(4) && Power(6) == 16 * Power(5) && Power(7) == 16 * Power(6);
  }

  /** How a character is written: as itself, behind a backslash, or as a number of so many digits behind a letter. */
  datatype Form = Itself | Behind(letter: char) | InDigits(letter: char, width: nat)

  function FormOf(c: char, wide: char -> bool): Form {
    if c == '"' || c == '\\' then Behind(c)
    else if IsPrint(c, wide) then Itself
    else match c as int
      case 7 => Behind('a')
      case 8 => Behind('b')
      case 9 => Behind('t')
      case 10 => Behind('n')
      case 11 => Behind('v')
      case 12 => Behind('f')
      case 13 => Behind('r')
      case n => if n < 128 then InDigits('x', 2) else if n < 0x1_0000 then InDigits('u', 4) else InDigits('U', 8)
  }

  lemma FormIs(c: char, wide: char -> bool)
    ensures QuoteChar(c, wide) ==
            match FormOf(c, wide)
            case Itself => [c]
            case Behind(l) => ['\\', l]
            case InDigits(l, width) => ['\\', l] + HexText(c as int, width)
    ensures FormOf(c, wide).InDigits? ==> c as int < Power(FormOf(c, wide).width)
  {
    Powers();
    hide IsPrint, HexText, Power;
    assert "\\x" == ['\\', 'x'] && "\\u" == ['\\', 'u'] && "\\U" == ['\\', 'U'];
  }

  lemma SameForm(c: char, d: char, wide: char -> bool)
    requires FormOf(c, wide) == FormOf(d, wide) && FormOf(c, wide).Behind?
    ensures c == d
  {
    hide IsPrint;
  }

  /** What is written for one character tells it, whatever follows. */
  lemma CharTells(c: char, d: char, x: string, y: string, wide: char -> bool)
    requires QuoteChar(c, wide) + x == QuoteChar(d, wide) + y
    ensures c == d && x == y
  {
    FormIs(c, wide);
    FormIs(d, wide);
    var p, q := QuoteChar(c, wide), QuoteChar(d, wide);
    var s := p + x;
    assert s[0] == p[0] == q[0];
    FormsAlike(c, d, x, y, wide);
    assert |p| == |q|;
    assert s[..|p|] == p && s[..|q|] == q && s[|p|..] == x && s[|q|..] == y;
    match FormOf(c, wide)
    case Itself =>
    case Behind(_) => SameForm(c, d, wide);
    case InDigits(l, width) =>
      assert p[2..] == HexText(c as int, width) && q[2..] == HexText(d as int, width);
      HexTells(c as int, d as int, width);
  }

  lemma FormsAlike(c: char, d: char, x: string, y: string, wide: char -> bool)
    requires QuoteChar(c, wide) + x == QuoteChar(d, wide) + y
    ensures FormOf(c, wide) == FormOf(d, wide)
  {
    FormIs(c, wide);
    FormIs(d, wide);
    var p, q := QuoteChar(c, wide), QuoteChar(d, wide);
    assert (p + x)[0] == p[0] && (q + y)[0] == q[0];
    if |p| >= 2 && |q| >= 2 {
      assert (p + x)[1] == p[1] && (q + y)[1] == q[1];
    }
    hide QuoteChar, HexText, IsPrint;
  }

  lemma AtLeastOne(s: string, wide: char -> bool)
    ensures s == "" <==> |QuoteChars(s, wide)| == 0
  {
    if s != "" {
      FormIs(s[0], wide);
      hide QuoteChar;
    }
  }

  lemma {:induction false} CharsTell(s: string, t: string, wide: char -> bool)
    requires QuoteChars(s, wide) + "\"" == QuoteChars(t, wide) + "\""
    ensures s == t
  {
    hide QuoteChar;
    AtLeastOne(s, wide);
    AtLeastOne(t, wide);
    assert |QuoteChars(s, wide) + "\""| == |QuoteChars(t, wide) + "\""|;
    if s != "" && t != "" {
      var x, y := QuoteChars(s[1..], wide) + "\"", QuoteChars(t[1..], wide) + "\"";
      assert QuoteChars(s, wide) + "\"" == QuoteChar(s[0], wide) + x;
      assert QuoteChars(t, wide) + "\"" == QuoteChar(t[0], wide) + y;
      CharTells(s[0], t[0], x, y, wide);
      CharsTell(s[1..], t[1..], wide);
      assert s == [s[0]] + s[1..] && t == [t[0]] + t[1..];
    }
  }

  /** %q writes no two texts alike. */
  lemma QuoteTells(s: string, t: string, wide: char -> bool)
    requires GoQuote(s, wide) == GoQuote(t, wide)
    ensures s == t
  {
    assert GoQuote(s, wide)[1..] == QuoteChars(s, wide) + "\"";
    assert GoQuote(t, wide)[1..] == QuoteChars(t, wide) + "\"";
    CharsTell(s, t, wide);
  }

  /** Printable are, of the first 128 characters, those from the blank to the tilde, and beyond them what the
      parameter says. */
  lemma PrintMeans(c: char, wide: char -> bool)
    ensures IsPrint(c, wide) <==> if c as int < 128 then 32 <= c as int <= 126 else wide(c)
  {
  }

  // ---------------------------------------------------------------- reading

  /** After a '$' this character starts an expansion. */
  predicate StartsExpansion(c: char) {
    || 'a' <= c <= 'z' || 'A' <= c <= 'Z' || '0' <= c <= '9'
    || c in "_@*#?-$!({["
  }

  /** The text between an opening double quote and the closing one that ends s, if nothing in it is expanded. */
  function ReadInside(s: string): Option<string> {
    if s == "" then None
    else if s[0] == '"' then (if |s| == 1 then Some("") else None)
    else if s[0] == '`' then None
    else if s[0] == '$' && |s| > 1 && StartsExpansion(s[1]) then None
    else if s[0] == '\\' && |s| > 1 && s[1] in "$`\"\\" then Before([s[1]], ReadInside(s[2..]))
    else if s[0] == '\\' && |s| > 1 && s[1] == '\n' then ReadInside(s[2..])
    else Before([s[0]], ReadInside(s[1..]))
  }

  function Before(front: string, rest: Option<string>): (r: Option<string>)
    ensures front == "" ==> r == rest
  {
    assert rest.Some? ==> "" + rest.value == rest.value;
    match rest
    case None => None
    case Some(r) => Some(front + r)
  }

  function ReadBack(literal: string): Option<string> {
    if literal != "" && literal[0] == '"' then ReadInside(literal[1..]) else None
  }

  // ---------------------------------------------------------------- which texts survive

  /** Printable, no backquote, and no '$' in front of the start of an expansion. */
  predicate KeptAt(s: string, i: nat, wide: char -> bool)
    requires i < |s|
  {
    && IsPrint(s[i], wide) && s[i] != '`'
    && (s[i] == '$' && i + 1 < |s| ==> !StartsExpansion(s[i + 1]))
  }

  predicate Kept(s: string, wide: char -> bool) {
    forall i :: 0 <= i < |s| ==> KeptAt(s, i, wide)
  }

  predicate Plain(c: char) {
    'a' <= c <= 'z' || 'A' <= c <= 'Z' || '0' <= c <= '9'
  }

  lemma {:induction false} HexPlain(n: nat, width: nat)
    ensures forall c :: c in HexText(n, width) ==> Plain(c)
  {
    if width > 0 {
      HexPlain(n / 16, width - 1);
    }
  }

  /** Letters and digits are read as they are. */
  lemma {:induction false} ReadPlain(w: string, rest: string)
    requires forall c :: c in w ==> Plain(c)
    ensures ReadInside(w + rest) == Before(w, ReadInside(rest))
  {
    if w == "" {
      assert w + rest == rest;
    } else {
      var s := w + rest;
      assert s[0] == w[0] && s[0] in w && s[1..] == w[1..] + rest;
      ReadPlain(w[1..], rest);
      BeforeTwice([w[0]], w[1..], ReadInside(rest));
      assert [w[0]] + w[1..] == w;
    }
  }

  lemma BeforeTwice(a: string, b: string, rest: Option<string>)
    ensures Before(a, Before(b, rest)) == Before(a + b, rest)
  {
    if rest.Some? {
      assert a + (b + rest.value) == a + b + rest.value;
    }
  }

  /** A character that is not printable is written as a backslash and letters and digits. */
  lemma EscapeShape(c: char, wide: char -> bool)
    requires c != '"' && c != '\\' && !IsPrint(c, wide)
    ensures var q := QuoteChar(c, wide); |q| >= 2 && q[0] == '\\' && forall d :: d in q[1..] ==> Plain(d)
  {
    HexPlain(c as int, 2);
    HexPlain(c as int, 4);
    HexPlain(c as int, 8);
    var q := QuoteChar(c, wide);
    if Letter(c).None? {
      var width := if c < '\U{0080}' then 2 else if (c as int) < 0x1_0000 then 4 else 8;
      assert q[2..] == HexText(c as int, width);
      assert q[1..] == [q[1]] + q[2..];
    }
  }

  lemma ReadEscape(c: char, rest: string, wide: char -> bool)
    requires c != '"' && c != '\\' && !IsPrint(c, wide)
    ensures var q := QuoteChar(c, wide); |q| >= 2 && q[0] == '\\' && ReadInside(q + rest) == Before(q, ReadInside(rest))
  {
    var q := QuoteChar(c, wide);
    EscapeShape(c, wide);
    var s := q + rest;
    assert s[1] == q[1] && q[1] in q[1..];
    assert s[1..] == q[1..] + rest;
    ReadPlain(q[1..], rest);
    BeforeTwice(['\\'], q[1..], ReadInside(rest));
    assert ['\\'] + q[1..] == q;
  }

  /** What the next written character is, as far as a '$' before it cares. */
  lemma NextWritten(s: string, wide: char -> bool)
    ensures var t := QuoteChars(s, wide) + "\"";
            StartsExpansion(t[0]) <==> s != "" && IsPrint(s[0], wide) && StartsExpansion(s[0])
  {
    if s != "" && s[0] != '"' && s[0] != '\\' && !IsPrint(s[0], wide) {
      EscapeShape(s[0], wide);
    }
  }

  lemma ReadEscaped(c: char, rest: string)
    requires c == '"' || c == '\\'
    ensures ReadInside(['\\', c] + rest) == Before([c], ReadInside(rest))
  {
    var t := ['\\', c] + rest;
    assert t[2..] == rest;
  }

  lemma ReadDirect(c: char, rest: string)
    requires c != '"' && c != '\\' && rest != ""
    ensures ReadInside([c] + rest) ==
              if c == '`' || (c == '$' && StartsExpansion(rest[0])) then None else Before([c], ReadInside(rest))
  {
    var t := [c] + rest;
    assert t[1..] == rest;
  }

  /** One character written and read. */
  lemma ReadOne(s: string, wide: char -> bool)
    requires s != ""
    ensures var c, rest := s[0], QuoteChars(s[1..], wide) + "\"";
            ReadInside(QuoteChars(s, wide) + "\"") ==
              if c == '"' || c == '\\' then Before([c], ReadInside(rest))
              else if !IsPrint(c, wide) then Before(QuoteChar(c, wide), ReadInside(rest))
              else if c == '`' || (c == '$' && |s| > 1 && IsPrint(s[1], wide) && StartsExpansion(s[1])) then None
              else Before([c], ReadInside(rest))
  {
    var c, rest := s[0], QuoteChars(s[1..], wide) + "\"";
    assert QuoteChars(s, wide) + "\"" == QuoteChar(c, wide) + rest;
    NextWritten(s[1..], wide);
    hide ReadInside, StartsExpansion, QuoteChars;
    if c == '"' || c == '\\' {
      ReadEscaped(c, rest);
    } else if !IsPrint(c, wide) {
      ReadEscape(c, rest, wide);
    } else {
      ReadDirect(c, rest);
    }
  }

  /** Reading back gives the text exactly when the text survives; anything else is read longer or expanded. */
  lemma {:induction false} ReadsChars(s: string, wide: char -> bool)
    ensures var r := ReadInside(QuoteChars(s, wide) + "\"");
            && (r.Some? ==> |r.value| >= |s|)
            && (r == Some(s) <==> Kept(s, wide))
  {
    if s == "" {
      assert QuoteChars(s, wide) + "\"" == "\"";
    } else {
      var rest := QuoteChars(s[1..], wide) + "\"";
      var r' := ReadInside(rest);
      ReadOne(s, wide);
      ReadsChars(s[1..], wide);
      KeptSplits(s, wide);
      if s[0] != '"' && s[0] != '\\' && !IsPrint(s[0], wide) {
        EscapeShape(s[0], wide);
      }
      FrontTells(s, r');
      hide ReadInside, QuoteChars, QuoteChar, Kept, StartsExpansion;
      if |s| > 1 && s[0] == '$' && !IsPrint(s[1], wide) {
        KeptSplits(s[1..], wide);
      }
    }
  }

  lemma FrontTells(s: string, rest: Option<string>)
    requires s != ""
    ensures Before([s[0]], rest) == Some(s) <==> rest == Some(s[1..])
  {
    assert s == [s[0]] + s[1..];
    if rest.Some? && Before([s[0]], rest) == Some(s) {
      assert ([s[0]] + rest.value)[1..] == rest.value;
    }
  }

  lemma KeptSplits(s: string, wide: char -> bool)
    requires s != ""
    ensures Kept(s, wide) <==> KeptAt(s, 0, wide) && Kept(s[1..], wide)
  {
    if Kept(s, wide) {
      forall i | 0 <= i < |s[1..]| ensures KeptAt(s[1..], i, wide) {
        assert KeptAt(s, i + 1, wide);
      }
    }
    if KeptAt(s, 0, wide) && Kept(s[1..], wide) {
      forall i | 0 <= i < |s| ensures KeptAt(s, i, wide) {
        if i > 0 {
          assert KeptAt(s[1..], i - 1, wide);
        }
      }
    }
  }

  /** A text written with %q is read back as itself exactly when it is printable, has no backquote, and no
      '$' in front of the start of an expansion. */
  lemma QuoteExact(s: string, wide: char -> bool)
    ensures ReadBack(GoQuote(s, wide)) == Some(s) <==> Kept(s, wide)
  {
    ReadsChars(s, wide);
    var q := GoQuote(s, wide);
    assert q[1..] == QuoteChars(s, wide) + "\"";
  }

  /** A piece of a text that survives survives. */
  lemma KeptInside(s: string, t: string, wide: char -> bool)
    requires Kept(s, wide) && Contains(s, t)
    ensures Kept(t, wide)
  {
    var k :| 0 <= k <= |s| - |t| && OccursAt(s, t, k);
    forall i | 0 <= i < |t| ensures KeptAt(t, i, wide) {
      assert KeptAt(s, k + i, wide);
      assert t[i] == s[k..k + |t|][i];
      assert i + 1 < |t| ==> t[i + 1] == s[k..k + |t|][i + 1];
    }
  }

  // ---------------------------------------------------------------- lists of literals

  function Literals(texts: seq<string>, wide: char -> bool): seq<string> {
    if texts == [] then [] else [GoQuote(texts[0], wide)] + Literals(texts[1..], wide)
  }

  function ReadAll(literals: seq<string>): Option<seq<string>> {
    if literals == [] then Some([])
    else match (ReadBack(literals[0]), ReadAll(literals[1..]))
      case (Some(t), Some(ts)) => Some([t] + ts)
      case _ => None
  }

  /** An array of literals holds the texts exactly when each of them survives. */
  lemma {:induction false} LiteralsExact(texts: seq<string>, wide: char -> bool)
    ensures ReadAll(Literals(texts, wide)) == Some(texts) <==> forall t :: t in texts ==> Kept(t, wide)
  {
    hide ReadBack, GoQuote, Kept;
    if texts != [] {
      QuoteExact(texts[0], wide);
      LiteralsExact(texts[1..], wide);
      assert Literals(texts, wide)[1..] == Literals(texts[1..], wide);
      assert forall t :: t in texts <==> t == texts[0] || t in texts[1..];
      HeadTells(texts, ReadBack(GoQuote(texts[0], wide)), ReadAll(Literals(texts[1..], wide)));
    }
  }

  lemma HeadTells(texts: seq<string>, head: Option<string>, rest: Option<seq<string>>)
    requires texts != []
    ensures (head.Some? && rest.Some? && [head.value] + rest.value == texts) <==>
            head == Some(texts[0]) && rest == Some(texts[1..])
  {
    assert texts == [texts[0]] + texts[1..];
    if head.Some? && rest.Some? && [head.value] + rest.value == texts {
      assert texts[1..] == ([head.value] + rest.value)[1..] == rest.value;
    }
  }
}
