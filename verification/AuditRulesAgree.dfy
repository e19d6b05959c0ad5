/** Go and the emitted script bring audit rules to one form: what that form keeps of a rule, and exactly
    which host rules satisfy a rule of the baseline. */
module AuditRulesAgree {
  import opened Common
  import opened Sorting
  import opened AuditRules
  import opened AuditRuleScan

  // ---------------------------------------------------------------- the converter's form

  function NormItem(item: Item): Item {
    match item
    case Syscalls(names) => Syscalls(Sort(names, TextLe))
    case Key(_, name) => Key(false, name)
    case AuidNot(_) => AuidNot("unset")
    case AuidMin(_) => AuidMin(PLACEHOLDER)
    case _ => item
  }

  function Norm(r: Rule): (n: Rule)
    ensures |n.items| == |r.items|
  {
    Rule(r.head, seq(|r.items|, i requires 0 <= i < |r.items| => NormItem(r.items[i])))
  }

  /** What the normal form of an item is: a list with the same names in the order of the dictionary, the long
      form of a key, and fixed values of the two auid fields; anything else is kept. */
  ghost predicate InNormalForm(item: Item, n: Item) {
    match item
    case Syscalls(names) =>
      && n.Syscalls? && multiset(n.names) == multiset(names)
      && forall k :: 0 <= k < |n.names| - 1 ==> Before(n.names[k], n.names[k + 1])
    case Key(_, name) => Words(n) == ["-F", "key=" + name]
    case AuidNot(_) => Words(n) == ["-F", "auid!=unset"]
    case AuidMin(_) => Words(n) == ["-F", "auid>=__UID_MIN__"]
    case _ => n == item
  }

  /** The converter's text of a rule is that of the rule with every item in its normal form. */
  lemma NormalForm(r: Rule) returns (n: Rule)
    requires RuleOk(r)
    ensures NormalizeAuditctlRule(Text(r)) == Text(n) && RuleOk(n)
    ensures n.head == r.head && |n.items| == |r.items|
    ensures forall i :: 0 <= i < |r.items| ==> InNormalForm(r.items[i], n.items[i])
  {
    n := Norm(r);
    GoNormalizes(r);
    hide NormalizeAuditctlRule, Text, RuleOk, InNormalForm;
    forall i | 0 <= i < |r.items| ensures InNormalForm(r.items[i], n.items[i]) {
      ItemForm(r.items[i]);
    }
  }

  lemma ItemForm(item: Item)
    ensures InNormalForm(item, NormItem(item))
  {
    if item.Syscalls? {
      TextOrder();
      SortSorted(item.names, TextLe);
      SortedMeans(Sort(item.names, TextLe));
    }
    hide Sort, Before;
    assert "auid!=" + "unset" == "auid!=unset" && "auid>=" + PLACEHOLDER == "auid>=__UID_MIN__";
  }

  lemma FourSteps(item: Item)
    ensures StepItem(StepItem(StepItem(StepItem(item, SortLists), KeyForm), AuidUnset), UidPlaceholder)
            == NormItem(item)
  {
    hide Sort;
  }

  /** The four passes over the text make one pass over the items: no pass touches what another wrote. */
  lemma GoNormalizes(r: Rule)
    requires RuleOk(r)
    ensures NormalizeAuditctlRule(Text(r)) == Text(Norm(r)) && RuleOk(Norm(r))
  {
    hide ReplaceAll, RuleOk, Text, StepItem, NormItem, StepItems;
    var r1 := RuleScan(r, SortLists);
    var r2 := RuleScan(r1, KeyForm);
    var r3 := RuleScan(r2, AuidUnset);
    var r4 := RuleScan(r3, UidPlaceholder);
    forall i | 0 <= i < |r.items| ensures r4.items[i] == Norm(r).items[i] {
      FourSteps(r.items[i]);
    }
    assert r4.items == Norm(r).items;
  }

  /** Normalising again changes nothing. */
  lemma NormalizeTwice(r: Rule)
    requires RuleOk(r)
    ensures NormalizeAuditctlRule(NormalizeAuditctlRule(Text(r))) == NormalizeAuditctlRule(Text(r))
  {
    hide ReplaceAll, NormalizeAuditctlRule, RuleOk, Text;
    GoNormalizes(r);
    GoNormalizes(Norm(r));
    TextOrder();
    forall i | 0 <= i < |r.items| ensures NormItem(NormItem(r.items[i])) == NormItem(r.items[i]) {
      if r.items[i].Syscalls? {
        SortSorted(r.items[i].names, TextLe);
        SortFixed(Sort(r.items[i].names, TextLe), TextLe);
      }
    }
    assert Norm(Norm(r)).items == Norm(r).items;
  }

  // ---------------------------------------------------------------- written rules are told apart

  function AllWords(items: seq<Item>): seq<string> {
    if items == [] then [] else Words(items[0]) + AllWords(items[1..])
  }

  lemma {:induction false} SpacedConcat(a: seq<string>, b: seq<string>)
    ensures Spaced(a + b) == Spaced(a) + Spaced(b)
  {
    if a == [] {
      assert a + b == b;
    } else {
      assert (a + b)[1..] == a[1..] + b;
      SpacedConcat(a[1..], b);
    }
  }

  lemma {:induction false} ItemsSpaced(items: seq<Item>)
    ensures ItemsText(items) == Spaced(AllWords(items))
  {
    if items != [] {
      ItemsSpaced(items[1..]);
      SpacedConcat(Words(items[0]), AllWords(items[1..]));
    }
  }

  lemma {:induction false} SplitSpaced(head: string, words: seq<string>)
    requires ' ' !in head && forall w :: w in words ==> ' ' !in w
    ensures Split(head + Spaced(words), ' ') == [head] + words
    decreases |words|
  {
    if words == [] {
      assert head + "" == head;
      SplitAtom(head, ' ');
    } else {
      SplitSpaced(words[0], words[1..]);
      SplitConcat(head, ' ', words[0] + Spaced(words[1..]));
      assert head + [' '] + (words[0] + Spaced(words[1..])) == head + Spaced(words);
    }
  }

  lemma {:induction false} WordsFree(items: seq<Item>)
    requires forall i :: i in items ==> ItemOk(i)
    ensures forall w :: w in AllWords(items) ==> ' ' !in w
  {
    hide ItemOk, Words;
    if items != [] {
      assert items[0] in items;
      WordsFree(items[1..]);
      ItemWordsFree(items[0]);
    }
  }

  lemma ItemWordsFree(item: Item)
    requires ItemOk(item)
    ensures forall w :: w in Words(item) ==> ' ' !in w
  {
    match item
    case Syscalls(names) => ListText(names);
    case AuidNot(value) => NumberWord(value);
    case _ =>
  }

  /** The first words tell the first item. */
  lemma FirstItem(a: Item, b: Item, ra: seq<string>, rb: seq<string>)
    requires ItemOk(a) && ItemOk(b) && Words(a) + ra == Words(b) + rb
    ensures a == b && ra == rb
  {
    hide BodyLength;
    var wa, wb := Words(a) + ra, Words(b) + rb;
    assert wa[0] == Words(a)[0] && wb[0] == Words(b)[0];
    assert |Words(a)| == |Words(b)| by {
      assert a.Other? <==> !IsFlag(wa[0]);
      assert b.Other? <==> !IsFlag(wb[0]);
    }
    assert wa[..|Words(a)|] == Words(a) && wb[..|Words(b)|] == Words(b);
    assert wa[|Words(a)|..] == ra && wb[|Words(b)|..] == rb;
    if !a.Other? {
      SecondWord(a, b);
    }
  }

  lemma SecondWord(a: Item, b: Item)
    requires ItemOk(a) && ItemOk(b) && !a.Other? && !b.Other? && Words(a) == Words(b)
    ensures a == b
  {
    hide BodyLength, Join;
    assert Words(a)[0] == Words(b)[0] && Words(a)[1] == Words(b)[1];
    if a.Syscalls? {
      ListText(a.names);
      ListText(b.names);
    } else if Words(a)[0] == "-F" {
      var w := Words(a)[1];
      FieldKind(a);
      FieldKind(b);
      var v := if a.Field? then w else w[|FieldStem(a)|..];
    }
  }

  function FieldStem(item: Item): string {
    match item
    case Key(_, _) => "key="
    case AuidNot(_) => "auid!="
    case AuidMin(_) => "auid>="
    case _ => ""
  }

  /** A -F word starts with its own stem and no other. */
  lemma FieldKind(item: Item)
    requires ItemOk(item) && !item.Other? && Words(item)[0] == "-F"
    ensures var w := Words(item)[1];
            && (item.Key? <==> StartsWith(w, "key="))
            && (item.AuidNot? <==> StartsWith(w, "auid!="))
            && (item.AuidMin? <==> StartsWith(w, "auid>="))
            && (item.Key? ==> !item.short && w[4..] == item.name)
            && (item.AuidNot? ==> w[6..] == item.value)
            && (item.AuidMin? ==> w[6..] == item.value)
  {
    hide BodyLength;
    var w := Words(item)[1];
    if item.Key? {
      assert w[0] == 'k';
    } else if item.AuidNot? {
      assert w[..4][0] == 'a' && w[..6][4] == '!';
    } else if item.AuidMin? {
      assert w[..4][0] == 'a' && w[..6][4] == '>';
    }
  }

  lemma {:induction false} WordsOnce(a: seq<Item>, b: seq<Item>)
    requires forall i :: i in a ==> ItemOk(i)
    requires forall i :: i in b ==> ItemOk(i)
    requires AllWords(a) == AllWords(b)
    ensures a == b
  {
    hide ItemOk;
    if a != [] && b != [] {
      assert a[0] in a && b[0] in b;
      FirstItem(a[0], b[0], AllWords(a[1..]), AllWords(b[1..]));
      WordsOnce(a[1..], b[1..]);
      assert a == [a[0]] + a[1..] && b == [b[0]] + b[1..];
    }
  }

  /** Two written rules are the same text only when they are the same rule. */
  lemma TextOnce(a: Rule, b: Rule)
    requires RuleOk(a) && RuleOk(b)
    ensures Text(a) == Text(b) <==> a == b
  {
    hide ItemOk, Split;
    if Text(a) == Text(b) {
      ItemsSpaced(a.items);
      ItemsSpaced(b.items);
      WordsFree(a.items);
      WordsFree(b.items);
      SplitSpaced(a.head, AllWords(a.items));
      SplitSpaced(b.head, AllWords(b.items));
      var wa, wb := [a.head] + AllWords(a.items), [b.head] + AllWords(b.items);
      assert wa == wb;
      assert wa[0] == a.head && wa[1..] == AllWords(a.items);
      assert wb[0] == b.head && wb[1..] == AllWords(b.items);
      WordsOnce(a.items, b.items);
    }
  }

  // ---------------------------------------------------------------- the form is canonical

  /** The same field in another spelling. */
  ghost predicate AlikeItem(a: Item, b: Item) {
    match (a, b)
    case (Syscalls(s), Syscalls(t)) => multiset(s) == multiset(t)
    case (Key(_, n), Key(_, m)) => n == m
    case (AuidNot(_), AuidNot(_)) => true
    case (AuidMin(_), AuidMin(_)) => true
    case _ => a == b
  }

  ghost predicate Alike(a: Rule, b: Rule) {
    && a.head == b.head && |a.items| == |b.items|
    && forall i :: 0 <= i < |a.items| ==> AlikeItem(a.items[i], b.items[i])
  }

  lemma NormTells(a: Item, b: Item)
    ensures NormItem(a) == NormItem(b) <==> AlikeItem(a, b)
  {
    if a.Syscalls? && b.Syscalls? {
      TextOrder();
      SortsAlike(a.names, b.names, TextLe);
    }
  }

  /** Two rules normalise to one text exactly when they differ at most in the order inside a syscall list,
      the form of the key, and the numbers of the two auid fields. */
  lemma NormalizesAlike(a: Rule, b: Rule)
    requires RuleOk(a) && RuleOk(b)
    ensures NormalizeAuditctlRule(Text(a)) == NormalizeAuditctlRule(Text(b)) <==> Alike(a, b)
  {
    hide RuleOk, NormalizeAuditctlRule, Text, NormItem, AlikeItem;
    GoNormalizes(a);
    GoNormalizes(b);
    TextOnce(Norm(a), Norm(b));
    if Norm(a) == Norm(b) {
      forall i | 0 <= i < |a.items| ensures AlikeItem(a.items[i], b.items[i]) {
        assert Norm(a).items[i] == Norm(b).items[i];
        NormTells(a.items[i], b.items[i]);
      }
    }
    if Alike(a, b) {
      forall i | 0 <= i < |a.items| ensures Norm(a).items[i] == Norm(b).items[i] {
        NormTells(a.items[i], b.items[i]);
      }
      assert Norm(a).items == Norm(b).items;
    }
  }
}
