/** The scans of a rule's text, taken word by word, and what each rewriting step does to a written rule. */
module AuditRuleScan {
  import opened Common
  import opened Sorting
  import opened AuditRules

  // ---------------------------------------------------------------- scanning over words

  predicate AtGap(rest: string) {
    rest == "" || rest[0] == ' '
  }

  lemma {:induction false} RunAll(a: string, rest: string, inClass: char -> bool)
    requires (forall c :: c in a ==> inClass(c)) && (rest == "" || !inClass(rest[0]))
    ensures Run(a + rest, inClass) == |a|
  {
    if a == "" {
      assert a + rest == rest;
    } else {
      assert (a + rest)[1..] == a[1..] + rest;
      RunAll(a[1..], rest, inClass);
    }
  }

  lemma {:induction false} RunIs(s: string, inClass: char -> bool)
    ensures forall c :: c in s[..Run(s, inClass)] ==> inClass(c)
    ensures Run(s, inClass) < |s| ==> !inClass(s[Run(s, inClass)])
  {
    if s != "" && inClass(s[0]) {
      RunIs(s[1..], inClass);
      assert s[..Run(s, inClass)] == [s[0]] + s[1..][..Run(s[1..], inClass)];
    }
  }

  lemma Miss(s: string, p: Step)
    requires s != "" && !Hit(s, p)
    ensures ReplaceAll(s, p) == [s[0]] + ReplaceAll(s[1..], p)
  {
  }

  lemma Shapes(p: Step)
    ensures |Flag(p)| == 2 && Flag(p)[0] == '-' && Flag(p)[1] != ' ' && ' ' !in Stem(p)
  {
  }

  lemma StartsAtSpace(s: string, p: Step)
    requires s != "" && s[0] != ' '
    ensures !Hit(s, p)
  {
  }

  lemma OneMore(w: string, rest: string)
    requires w != ""
    ensures [w[0]] + (w[1..] + rest) == w + rest
  {
    assert w == [w[0]] + w[1..];
  }

  /** A word without a space is copied. */
  lemma {:induction false} SkipWord(w: string, rest: string, p: Step)
    requires ' ' !in w
    ensures ReplaceAll(w + rest, p) == w + ReplaceAll(rest, p)
  {
    if w == "" {
      assert w + rest == rest;
    } else {
      hide ReplaceAll, Hit;
      var s := w + rest;
      assert s[0] == w[0] && s[1..] == w[1..] + rest;
      StartsAtSpace(s, p);
      Miss(s, p);
      SkipWord(w[1..], rest, p);
      OneMore(w, ReplaceAll(rest, p));
    }
  }

  /** Text that starts with a flag and a space starts with the flag as its first word. */
  lemma FirstWord(w: string, rest: string, f: string)
    requires ' ' !in w && AtGap(rest) && |f| == 2 && f[0] != ' ' && f[1] != ' '
    requires StartsWith(w + rest, f + " ")
    ensures w == f
  {
    var t := w + rest;
    assert forall i :: 0 <= i < |w| ==> t[i] == w[i];
    assert |w| < |t| ==> t[|w|] == rest[0];
    assert t[..3][0] == t[0] == f[0] && t[..3][1] == t[1] == f[1] && t[..3][2] == t[2] == ' ';
  }

  lemma PrefixCancels(f: string, m: string, x: string)
    ensures StartsWith(f + x, f + m) <==> StartsWith(x, m)
    ensures StartsWith(x, m) ==> (f + x)[|f + m|..] == x[|m|..]
  {
    if |m| <= |x| {
      assert (f + x)[..|f + m|] == f + x[..|m|];
      assert (f + x[..|m|])[|f|..] == x[..|m|];
      assert (f + m)[|f|..] == m;
    }
  }

  /** A prefix without a space lies within the first word. */
  lemma PrefixInWord(a: string, rest: string, m: string)
    requires AtGap(rest) && ' ' !in m
    ensures StartsWith(a + rest, m) <==> StartsWith(a, m)
    ensures StartsWith(a, m) ==> (a + rest)[|m|..] == a[|m|..] + rest
  {
    var t := a + rest;
    if |m| <= |a| {
      assert t[..|m|] == a[..|m|];
    } else if |m| <= |t| {
      assert t[..|m|][|a|] == t[|a|] == rest[0];
    }
  }

  /** No match starts at a space that no flag follows. */
  lemma NotTheFlag(w: string, rest: string, p: Step)
    requires ' ' !in w && AtGap(rest) && w != Flag(p)
    ensures !StartsWith(" " + w + rest, Prefix(p))
  {
    var s := " " + w + rest;
    var f := Flag(p);
    Shapes(p);
    if StartsWith(s, Prefix(p)) {
      hide Flag, Stem;
      assert s == " " + (w + rest);
      assert Prefix(p) == " " + (f + " " + Stem(p));
      hide Prefix;
      PrefixCancels(" ", f + " " + Stem(p), w + rest);
      assert (f + " " + Stem(p))[..3] == f + " ";
      assert (w + rest)[..3] == (w + rest)[..|f + " " + Stem(p)|][..3];
      FirstWord(w, rest, f);
    }
  }

  lemma SkipOther(w: string, rest: string, p: Step)
    requires ' ' !in w && AtGap(rest) && w != Flag(p)
    ensures ReplaceAll(" " + w + rest, p) == " " + w + ReplaceAll(rest, p)
  {
    hide ReplaceAll, Prefix, Flag, BodyLength, Put;
    var s := " " + w + rest;
    NotTheFlag(w, rest, p);
    Miss(s, p);
    assert s[1..] == w + rest;
    SkipWord(w, rest, p);
  }

  /** What follows the flag decides whether the pattern starts here. */
  lemma PairStart(a: string, rest: string, p: Step)
    requires ' ' !in a && AtGap(rest)
    ensures var s := " " + Flag(p) + " " + a + rest;
            && (StartsWith(s, Prefix(p)) <==> StartsWith(a, Stem(p)))
            && (StartsWith(a, Stem(p)) ==> s[|Prefix(p)|..] == a[|Stem(p)|..] + rest)
  {
    var front := " " + Flag(p) + " ";
    Shapes(p);
    hide Flag, Stem;
    assert front + a + rest == front + (a + rest);
    PrefixCancels(front, Stem(p), a + rest);
    PrefixInWord(a, rest, Stem(p));
  }

  /** A flag whose argument does not match is copied, with its argument. */
  lemma SkipPair(a: string, rest: string, p: Step)
    requires ' ' !in a && AtGap(rest) && a != Flag(p)
    requires !StartsWith(a, Stem(p)) || BodyLength(p, a[|Stem(p)|..] + rest) == 0
    ensures ReplaceAll(" " + Flag(p) + " " + a + rest, p) == " " + Flag(p) + " " + a + ReplaceAll(rest, p)
  {
    Shapes(p);
    PairStart(a, rest, p);
    hide ReplaceAll, Prefix, Flag, BodyLength, Put, Stem, StartsWith;
    SkipFlag(Flag(p), a, rest, p);
  }

  lemma SkipFlag(f: string, a: string, rest: string, p: Step)
    requires ' ' !in a && ' ' !in f && AtGap(rest) && a != Flag(p)
    requires !Hit(" " + f + " " + a + rest, p)
    ensures ReplaceAll(" " + f + " " + a + rest, p) == " " + f + " " + a + ReplaceAll(rest, p)
  {
    hide ReplaceAll, Flag, Hit;
    var s := " " + f + " " + a + rest;
    var tail := " " + a + rest;
    Miss(s, p);
    assert s[1..] == f + tail;
    SkipWord(f, tail, p);
    SkipOther(a, rest, p);
  }

  /** A flag whose whole argument matches is rewritten, and the scan goes on behind it. */
  lemma HitPair(body: string, rest: string, p: Step)
    requires body != "" && BodyLength(p, body + rest) == |body|
    ensures var s := " " + Flag(p) + " " + (Stem(p) + body) + rest;
            && Hit(s, p) && HitBody(s, p) == body && AfterHit(s, p) == rest
            && ReplaceAll(s, p) == Put(p, body) + ReplaceAll(rest, p)
  {
    var s := " " + Flag(p) + " " + (Stem(p) + body) + rest;
    hide BodyLength, Flag, Stem, Put;
    assert s == Prefix(p) + (body + rest);
    assert s[|Prefix(p)|..] == body + rest;
    assert (body + rest)[..|body|] == body;
    assert (body + rest)[|body|..] == rest;
  }

  /** Two words that are not the step's flag are copied. */
  lemma SkipTwo(a: string, b: string, rest: string, p: Step)
    requires ' ' !in a && ' ' !in b && AtGap(rest) && a != Flag(p) && b != Flag(p)
    ensures ReplaceAll(" " + a + " " + b + rest, p) == " " + a + " " + b + ReplaceAll(rest, p)
  {
    hide ReplaceAll, Flag;
    var tail := " " + b + rest;
    assert " " + a + " " + b + rest == " " + a + tail;
    SkipOther(a, tail, p);
    SkipOther(b, rest, p);
  }

  lemma SpacedTwo(a: string, b: string)
    ensures Spaced([a, b]) == " " + a + " " + b
  {
    assert Spaced([b]) == " " + b;
  }

  // ---------------------------------------------------------------- bodies of matches

  lemma {:induction false} ListText(names: seq<string>)
    requires names != [] && forall n :: n in names ==> NameOk(n)
    ensures var list := Join(names, ",");
            && list != "" && Letter(list[0]) && (forall c :: c in list ==> ListChar(c))
            && Split(list, ',') == names
  {
    assert names[0] in names;
    SplitJoin(names, ',');
    if |names| > 1 {
      ListText(names[1..]);
    }
  }

  lemma ListBody(names: seq<string>, rest: string, p: Step)
    requires names != [] && (forall n :: n in names ==> NameOk(n)) && AtGap(rest)
    requires p.SortLists? || p.PutList?
    ensures var list := Join(names, ","); list != "" && BodyLength(p, list + rest) == |list|
  {
    ListText(names);
    var list := Join(names, ",");
    assert (list + rest)[1..] == list[1..] + rest;
    RunAll(list[1..], rest, ListChar);
  }

  lemma NumberBody(value: string, rest: string)
    requires IsNumber(value) && AtGap(rest)
    ensures BodyLength(AuidUnset, value + rest) == |value|
  {
    if value[0] == '-' {
      assert (value + rest)[1..] == value[1..] + rest;
      RunIs(value[1..], Digit);
      assert value[1..][..Run(value[1..], Digit)] == value[1..];
      RunAll(value[1..], rest, Digit);
    } else {
      RunIs(value, Digit);
      assert value[..Run(value, Digit)] == value;
      RunAll(value, rest, Digit);
    }
  }

  // ---------------------------------------------------------------- one item

  lemma ListScan(names: seq<string>, rest: string, p: Step)
    requires ItemOk(Syscalls(names)) && AtGap(rest) && !p.PutList?
    ensures ReplaceAll(Spaced(Words(Syscalls(names))) + rest, p)
            == Spaced(Words(StepItem(Syscalls(names), p))) + ReplaceAll(rest, p)
  {
    hide ReplaceAll, BodyLength, Join, Split, Spaced, Hit, Sort;
    var list := Join(names, ",");
    ListText(names);
    SpacedTwo("-S", list);
    if p.SortLists? {
      ListBody(names, rest, p);
      SpacedTwo("-S", Join(Sort(names, TextLe), ","));
      HitPair(list, rest, p);
      assert Stem(p) + list == list;
    } else {
      SkipTwo("-S", list, rest, p);
    }
  }

  lemma KeyScan(short: bool, name: string, rest: string, p: Step)
    requires ItemOk(Key(short, name)) && AtGap(rest) && !p.PutList?
    ensures ReplaceAll(Spaced(Words(Key(short, name))) + rest, p)
            == Spaced(Words(StepItem(Key(short, name), p))) + ReplaceAll(rest, p)
  {
    hide ReplaceAll, Spaced, Hit, BodyLength, Put;
    var long := "key=" + name;
    SpacedTwo("-F", long);
    if short {
      SpacedTwo("-k", name);
      if p.KeyForm? {
        KeyBody(name, rest);
        HitPair(name, rest, KeyForm);
        assert Stem(KeyForm) + name == name;
        PutKey(name);
      } else {
        SkipTwo("-k", name, rest, p);
      }
    } else {
      assert long[0] == 'k';
      SkipArgument(long, rest, p);
    }
  }

  lemma KeyBody(name: string, rest: string)
    requires (forall c :: c in name ==> KeyChar(c)) && AtGap(rest)
    ensures BodyLength(KeyForm, name + rest) == |name|
  {
    RunAll(name, rest, KeyChar);
  }

  lemma PutKey(name: string)
    ensures Put(KeyForm, name) == " " + "-F" + " " + ("key=" + name)
  {
  }

  lemma PutUnset(body: string)
    ensures Put(AuidUnset, body) == Spaced(Words(AuidNot("unset")))
  {
    SpacedTwo("-F", "auid!=" + "unset");
    hide Spaced;
  }

  lemma PutMin(body: string)
    ensures Put(UidPlaceholder, body) == Spaced(Words(AuidMin(PLACEHOLDER)))
  {
    SpacedTwo("-F", "auid>=" + PLACEHOLDER);
    hide Spaced;
  }

  /** A -F word that is neither auid field is copied by every step. */
  lemma SkipArgument(text: string, rest: string, p: Step)
    requires ' ' !in text && !IsFlag(text) && AtGap(rest)
    requires !StartsWith(text, "auid!=") && !StartsWith(text, "auid>=")
    ensures ReplaceAll(" " + "-F" + " " + text + rest, p) == " " + "-F" + " " + text + ReplaceAll(rest, p)
  {
    hide ReplaceAll, Hit, BodyLength, StartsWith;
    if Flag(p) == "-F" {
      SkipPair(text, rest, p);
    } else {
      SkipTwo("-F", text, rest, p);
    }
  }

  lemma AuidNotScan(value: string, rest: string, p: Step)
    requires ItemOk(AuidNot(value)) && AtGap(rest) && !p.PutList?
    ensures ReplaceAll(Spaced(Words(AuidNot(value))) + rest, p)
            == Spaced(Words(StepItem(AuidNot(value), p))) + ReplaceAll(rest, p)
  {
    hide ReplaceAll, Spaced, Hit, Run, Put;
    var a := "auid!=" + value;
    SpacedTwo("-F", a);
    NumberWord(value);
    if p.AuidUnset? {
      if value == "unset" {
        assert a[|Stem(p)|..] == "unset";
        UnsetBody(rest);
        SkipPair(a, rest, p);
      } else {
        NumberBody(value, rest);
        HitPair(value, rest, AuidUnset);
        PutUnset(value);
      }
    } else {
      SkipAuid(a, rest, p);
    }
  }

  lemma SkipAuid(a: string, rest: string, p: Step)
    requires ' ' !in a && |a| >= 6 && a[0] == 'a' && AtGap(rest)
    requires Flag(p) == "-F" ==> a[4] != Stem(p)[4]
    ensures ReplaceAll(" " + "-F" + " " + a + rest, p) == " " + "-F" + " " + a + ReplaceAll(rest, p)
  {
    hide ReplaceAll, Hit, BodyLength;
    if Flag(p) == "-F" {
      assert a[..6][4] == a[4];
      SkipPair(a, rest, p);
    } else {
      SkipTwo("-F", a, rest, p);
    }
  }

  lemma AuidMinScan(value: string, rest: string, p: Step)
    requires ItemOk(AuidMin(value)) && AtGap(rest) && !p.PutList?
    ensures ReplaceAll(Spaced(Words(AuidMin(value))) + rest, p)
            == Spaced(Words(StepItem(AuidMin(value), p))) + ReplaceAll(rest, p)
  {
    hide ReplaceAll, Spaced, Hit, BodyLength, Put;
    var a := "auid>=" + value;
    SpacedTwo("-F", a);
    if p.UidPlaceholder? {
      DigitsBody(value, rest);
      if value == PLACEHOLDER {
        assert a[|Stem(p)|..] == value;
        SkipPair(a, rest, p);
      } else {
        HitPair(value, rest, UidPlaceholder);
        PutMin(value);
      }
    } else {
      SkipAuid(a, rest, p);
    }
  }

  lemma DigitsBody(value: string, rest: string)
    requires (value == PLACEHOLDER || IsDigits(value)) && AtGap(rest)
    ensures BodyLength(UidPlaceholder, value + rest) == if value == PLACEHOLDER then 0 else |value|
  {
    if value == PLACEHOLDER {
      assert (value + rest)[0] == '_';
    } else {
      RunAll(value, rest, Digit);
    }
  }

  /** A number has no space. */
  lemma NumberWord(value: string)
    requires value == "unset" || IsNumber(value)
    ensures ' ' !in value
  {
    if value != "unset" {
      if value[0] == '-' {
        RunIs(value[1..], Digit);
        assert value[1..][..Run(value[1..], Digit)] == value[1..];
        assert value == ['-'] + value[1..];
      } else {
        RunIs(value, Digit);
        assert value[..Run(value, Digit)] == value;
      }
    }
  }

  lemma UnsetBody(rest: string)
    ensures BodyLength(AuidUnset, "unset" + rest) == 0
  {
    assert ("unset" + rest)[0] == 'u';
  }

  lemma WordScan(item: Item, rest: string, p: Step)
    requires item.Field? || item.Other?
    requires ItemOk(item) && AtGap(rest) && !p.PutList?
    ensures ReplaceAll(Spaced(Words(item)) + rest, p) == Spaced(Words(StepItem(item, p))) + ReplaceAll(rest, p)
  {
    hide ReplaceAll, Hit, BodyLength;
    if item.Other? {
      assert Spaced([item.word]) == " " + item.word;
      SkipOther(item.word, rest, p);
    } else {
      SpacedTwo("-F", item.text);
      SkipArgument(item.text, rest, p);
    }
  }

  /** One step on one written item, whatever follows it. */
  lemma ItemScan(item: Item, rest: string, p: Step)
    requires ItemOk(item) && AtGap(rest) && !p.PutList?
    ensures ReplaceAll(Spaced(Words(item)) + rest, p) == Spaced(Words(StepItem(item, p))) + ReplaceAll(rest, p)
  {
    hide ReplaceAll, Spaced, Words, ItemOk, StepItem;
    match item
    case Syscalls(names) => ListScan(names, rest, p);
    case Key(short, name) => KeyScan(short, name, rest, p);
    case AuidNot(value) => AuidNotScan(value, rest, p);
    case AuidMin(value) => AuidMinScan(value, rest, p);
    case Field(_) => WordScan(item, rest, p);
    case Other(_) => WordScan(item, rest, p);
  }

  // ---------------------------------------------------------------- whole rules

  lemma ItemsGap(items: seq<Item>)
    ensures AtGap(ItemsText(items))
  {
  }

  lemma {:induction false} ItemsScan(items: seq<Item>, p: Step)
    requires (forall i :: i in items ==> ItemOk(i)) && !p.PutList?
    ensures ReplaceAll(ItemsText(items), p) == ItemsText(StepItems(items, p))
  {
    hide ReplaceAll, ItemOk, StepItem, Words;
    if items == [] {
      assert ReplaceAll("", p) == "" by { Nothing(p); }
    } else {
      var rest := items[1..];
      assert items[0] in items;
      ItemsGap(rest);
      ItemScan(items[0], ItemsText(rest), p);
      ItemsScan(rest, p);
      assert StepItems(items, p)[1..] == StepItems(rest, p);
    }
  }

  lemma Nothing(p: Step)
    ensures ReplaceAll("", p) == ""
  {
  }

  lemma StepKeepsOk(item: Item, p: Step)
    requires ItemOk(item)
    ensures ItemOk(StepItem(item, p))
  {
    if item.Syscalls? && p.SortLists? {
      var names := item.names;
      MultisetMember(Sort(names, TextLe), names);
      forall n | n in Sort(names, TextLe) ensures NameOk(n) {
        assert n in Elements(names);
      }
    }
  }

  /** A step of the converter on a written rule is the same step on its items. */
  lemma RuleScan(r: Rule, p: Step) returns (r': Rule)
    requires RuleOk(r) && !p.PutList?
    ensures r' == Rule(r.head, StepItems(r.items, p))
    ensures RuleOk(r') && ReplaceAll(Text(r), p) == Text(r')
  {
    hide ReplaceAll, ItemOk, StepItem;
    r' := Rule(r.head, StepItems(r.items, p));
    SkipWord(r.head, ItemsText(r.items), p);
    ItemsScan(r.items, p);
    forall i | i in r'.items ensures ItemOk(i) {
      var k :| 0 <= k < |r'.items| && r'.items[k] == i;
      assert r.items[k] in r.items;
      StepKeepsOk(r.items[k], p);
    }
  }
}
