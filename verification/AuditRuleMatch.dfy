/** Which host rules a baseline rule is found in, and when the emitted audit-rule script passes. */
module AuditRuleMatch {
  import opened Common
  import opened Sorting
  import opened AuditRules
  import opened AuditRuleScan
  import opened AuditRulesAgree
  import opened AuditHostRules
  import opened DoubleQuotes

  // ---------------------------------------------------------------- filling in the user number

  /** The placeholder occurs in the rule at most as an auid minimum. */
  ghost predicate Clear(r: Rule) {
    !Contains(r.head, PLACEHOLDER) && forall i :: i in r.items ==> ClearItem(i)
  }

  ghost predicate ClearItem(item: Item) {
    match item
    case Syscalls(names) => forall n :: n in names ==> !Contains(n, PLACEHOLDER)
    case Key(_, name) => !Contains(name, PLACEHOLDER)
    case Field(text) => !Contains(text, PLACEHOLDER)
    case Other(word) => !Contains(word, PLACEHOLDER)
    case _ => true
  }

  function FillItem(item: Item, uid: string): Item {
    if item.AuidMin? && item.value == PLACEHOLDER then AuidMin(uid) else item
  }

  function FilledItems(items: seq<Item>, uid: string): (f: seq<Item>)
    ensures |f| == |items|
    ensures forall i :: 0 <= i < |items| ==> f[i] == FillItem(items[i], uid)
  {
    seq(|items|, i requires 0 <= i < |items| => FillItem(items[i], uid))
  }

  function Filled(r: Rule, uid: string): Rule {
    Rule(r.head, FilledItems(r.items, uid))
  }

  predicate AtBreak(rest: string) {
    rest == "" || rest[0] == ' ' || rest[0] == ','
  }

  lemma FillMiss(s: string, uid: string)
    requires s != "" && !StartsWith(s, PLACEHOLDER)
    ensures FillUid(s, uid) == [s[0]] + FillUid(s[1..], uid)
  {
  }

  /** No occurrence runs over a space or a comma. */
  lemma NoStart(w: string, rest: string)
    requires !Contains(w, PLACEHOLDER) && AtBreak(rest)
    ensures w + rest != "" ==> !StartsWith(w + rest, PLACEHOLDER)
  {
    var t := w + rest;
    var p := PLACEHOLDER;
    assert |w| < |p| <= |t| ==> t[..|p|][|w|] == t[|w|] == rest[0];
    assert forall i :: 0 <= i < |p| ==> p[i] != ' ' && p[i] != ',';
    assert |p| <= |w| ==> w[0..0 + |p|] == t[..|p|] && !OccursAt(w, p, 0);
  }

  lemma NotInTail(w: string, pat: string)
    requires w != "" && !Contains(w, pat)
    ensures !Contains(w[1..], pat)
  {
    if Contains(w[1..], pat) {
      var i :| 0 <= i <= |w[1..]| - |pat| && OccursAt(w[1..], pat, i);
      assert OccursAt(w, pat, i + 1);
    }
  }

  lemma {:induction false} FillCopies(w: string, rest: string, uid: string)
    requires !Contains(w, PLACEHOLDER) && AtBreak(rest)
    ensures FillUid(w + rest, uid) == w + FillUid(rest, uid)
  {
    if w == "" {
      assert w + rest == rest;
    } else {
      hide FillUid, StartsWith;
      var s := w + rest;
      NoStart(w, rest);
      FillMiss(s, uid);
      assert s[1..] == w[1..] + rest;
      NotInTail(w, PLACEHOLDER);
      FillCopies(w[1..], rest, uid);
      assert w == [w[0]] + w[1..];
    }
  }

  lemma FillHere(rest: string, uid: string)
    ensures FillUid(PLACEHOLDER + rest, uid) == uid + FillUid(rest, uid)
  {
    var s := PLACEHOLDER + rest;
    assert s[..|PLACEHOLDER|] == PLACEHOLDER && s[|PLACEHOLDER|..] == rest;
  }

  /** Short text, or text of other characters, does not hold the placeholder. */
  lemma NoUnderscores(w: string)
    requires '_' !in w
    ensures !Contains(w, PLACEHOLDER)
  {
    forall i | 0 <= i <= |w| - |PLACEHOLDER| ensures !OccursAt(w, PLACEHOLDER, i) {
      assert w[i..i + |PLACEHOLDER|][0] == w[i];
      assert w[i] in w;
    }
  }

  lemma FillSpaced(w: string, rest: string, uid: string)
    requires !Contains(w, PLACEHOLDER) && AtBreak(rest)
    ensures FillUid(" " + w + rest, uid) == " " + w + FillUid(rest, uid)
  {
    hide FillUid, Contains, StartsWith;
    var s := " " + w + rest;
    assert s[0] == ' ' && s[1..] == w + rest;
    SpaceNoStart(s);
    FillMiss(s, uid);
    FillCopies(w, rest, uid);
  }

  lemma SpaceNoStart(s: string)
    requires s != "" && s[0] != '_'
    ensures !StartsWith(s, PLACEHOLDER)
  {
  }

  lemma {:induction false} FillList(names: seq<string>, rest: string, uid: string)
    requires names != [] && (forall n :: n in names ==> !Contains(n, PLACEHOLDER)) && AtBreak(rest)
    ensures FillUid(Join(names, ",") + rest, uid) == Join(names, ",") + FillUid(rest, uid)
  {
    hide FillUid, Contains;
    assert names[0] in names;
    if |names| == 1 {
      FillCopies(names[0], rest, uid);
    } else {
      var tail := Join(names[1..], ",") + rest;
      FillList(names[1..], rest, uid);
      assert Join(names, ",") + rest == names[0] + ("," + tail);
      FillCopies(names[0], "," + tail, uid);
      assert ("," + tail)[1..] == tail;
      SpaceNoStart("," + tail);
      FillMiss("," + tail, uid);
    }
  }

  /** Filling one normalised item, whatever follows it. */
  lemma FillScan(item: Item, rest: string, uid: string)
    requires ItemOk(item) && ClearItem(item) && NormItem(item) == item && AtGap(rest)
    ensures FillUid(Spaced(Words(item)) + rest, uid) == Spaced(Words(FillItem(item, uid))) + FillUid(rest, uid)
  {
    hide FillUid, Contains, Spaced, ItemOk, Sort;
    match item
    case Syscalls(names) =>
      hide Join;
      FillSyscalls(names, rest, uid);
    case Key(short, name) =>
      SpacedTwo("-F", "key=" + name);
      NoUnderscores("-F");
      NoUnderscores("key=");
      FillTwo("key=", name, rest, uid);
    case AuidNot(value) =>
      SpacedTwo("-F", "auid!=" + value);
      NoUnderscores("auid!=");
      NoUnderscores("unset");
      FillTwo("auid!=", value, rest, uid);
    case AuidMin(value) =>
      FillMin(rest, uid);
    case Field(text) =>
      SpacedTwo("-F", text);
      assert "" + text == text;
      FillTwo("", text, rest, uid);
    case Other(word) =>
      FillSpaced(word, rest, uid);
      OneSpaced(word);
  }

  lemma OneSpaced(word: string)
    ensures Spaced([word]) == " " + word
  {
  }

  lemma FillSyscalls(names: seq<string>, rest: string, uid: string)
    requires ItemOk(Syscalls(names)) && ClearItem(Syscalls(names)) && AtGap(rest)
    ensures FillUid(Spaced(Words(Syscalls(names))) + rest, uid) == Spaced(Words(Syscalls(names))) + FillUid(rest, uid)
  {
    hide FillUid, Contains, Spaced, Join;
    var list := Join(names, ",");
    SpacedTwo("-S", list);
    var tail := " " + list + rest;
    assert " " + "-S" + " " + list + rest == " " + "-S" + tail;
    NoUnderscores("-S");
    FillSpaced("-S", tail, uid);
    FillList(names, rest, uid);
    assert tail[1..] == list + rest;
    SpaceNoStart(tail);
    FillMiss(tail, uid);
  }

  lemma FillTwo(stem: string, value: string, rest: string, uid: string)
    requires '_' !in stem && AtGap(rest)
    requires !Contains(value, PLACEHOLDER)
    ensures var s := " " + "-F" + " " + (stem + value);
            FillUid(s + rest, uid) == s + FillUid(rest, uid)
  {
    hide FillUid, Contains;
    var tail := " " + (stem + value) + rest;
    assert " " + "-F" + " " + (stem + value) + rest == " " + "-F" + tail;
    NoUnderscores("-F");
    FillSpaced("-F", tail, uid);
    StemThenValue(stem, value);
    FillSpaced(stem + value, rest, uid);
  }

  /** A stem without underscores adds no occurrence. */
  lemma {:induction false} StemThenValue(stem: string, value: string)
    requires '_' !in stem && !Contains(value, PLACEHOLDER)
    ensures !Contains(stem + value, PLACEHOLDER)
  {
    var t := stem + value;
    if Contains(t, PLACEHOLDER) {
      var i :| 0 <= i <= |t| - |PLACEHOLDER| && OccursAt(t, PLACEHOLDER, i);
      assert t[i] == t[i..i + |PLACEHOLDER|][0] == '_';
      if i >= |stem| {
        var k := i - |stem|;
        assert value[k..k + |PLACEHOLDER|] == t[i..i + |PLACEHOLDER|];
        assert OccursAt(value, PLACEHOLDER, k);
      }
    }
  }

  lemma FillMin(rest: string, uid: string)
    requires AtGap(rest)
    ensures FillUid(Spaced(Words(AuidMin(PLACEHOLDER))) + rest, uid)
            == Spaced(Words(AuidMin(uid))) + FillUid(rest, uid)
  {
    hide FillUid, Contains, Spaced;
    var a := "auid>=";
    SpacedTwo("-F", a + PLACEHOLDER);
    SpacedTwo("-F", a + uid);
    var inner := PLACEHOLDER + rest;
    var tail := " " + a + inner;
    assert " " + "-F" + " " + (a + PLACEHOLDER) + rest == " " + "-F" + tail;
    NoUnderscores("-F");
    FillSpaced("-F", tail, uid);
    SpaceNoStart(tail);
    FillMiss(tail, uid);
    assert tail[1..] == a + inner;
    FillStem(a, inner, uid);
    FillHere(rest, uid);
  }

  lemma {:induction false} FillStem(a: string, inner: string, uid: string)
    requires '_' !in a
    ensures FillUid(a + inner, uid) == a + FillUid(inner, uid)
  {
    if a == "" {
      assert a + inner == inner;
    } else {
      hide FillUid;
      assert (a + inner)[0] == a[0] && (a + inner)[1..] == a[1..] + inner;
      SpaceNoStart(a + inner);
      FillMiss(a + inner, uid);
      FillStem(a[1..], inner, uid);
      assert a == [a[0]] + a[1..];
    }
  }

  lemma {:induction false} FillItems(items: seq<Item>, uid: string)
    requires forall i :: i in items ==> ItemOk(i) && ClearItem(i) && NormItem(i) == i
    ensures FillUid(ItemsText(items), uid) == ItemsText(FilledItems(items, uid))
  {
    hide ItemOk, ClearItem, NormItem, FillItem, Words;
    var f := FilledItems(items, uid);
    if items == [] {
      assert FillUid("", uid) == "";
    } else {
      hide FillUid;
      var rest := items[1..];
      assert items[0] in items;
      ItemsGap(rest);
      FillScan(items[0], ItemsText(rest), uid);
      FillItems(rest, uid);
      assert f[1..] == FilledItems(rest, uid);
    }
  }

  lemma NormKeepsClear(r: Rule)
    requires RuleOk(r) && Clear(r)
    ensures Clear(Norm(r)) && forall i :: i in Norm(r).items ==> NormItem(i) == i
  {
    hide Contains, ItemOk;
    TextOrder();
    forall i | i in Norm(r).items ensures ClearItem(i) && NormItem(i) == i {
      var k :| 0 <= k < |r.items| && NormItem(r.items[k]) == i;
      var item := r.items[k];
      assert item in r.items && ClearItem(item);
      if item.Syscalls? {
        SortSorted(item.names, TextLe);
        SortFixed(Sort(item.names, TextLe), TextLe);
        MultisetMember(Sort(item.names, TextLe), item.names);
        assert forall n :: n in i.names ==> n in Elements(item.names);
      }
    }
  }

  lemma FilledOk(n: Rule, uid: string)
    requires RuleOk(n) && IsDigits(uid)
    ensures RuleOk(Filled(n, uid))
  {
    hide ItemOk, IsDigits, FillItem;
    forall i | i in Filled(n, uid).items ensures ItemOk(i) {
      var k :| 0 <= k < |n.items| && FillItem(n.items[k], uid) == i;
      assert n.items[k] in n.items;
      FillOk(n.items[k], uid);
    }
  }

  /** The needed text, as the script looks for it. */
  lemma NeededText(need: Rule, uid: string)
    requires RuleOk(need) && Clear(need) && IsDigits(uid)
    ensures FillUid(NormalizeAuditctlRule(Text(need)), uid) == Text(Filled(Norm(need), uid))
    ensures RuleOk(Filled(Norm(need), uid))
  {
    hide ItemOk, ClearItem, NormItem, FillUid, NormalizeAuditctlRule, Contains, ItemsText, FillItem, IsDigits;
    GoNormalizes(need);
    NormKeepsClear(need);
    var n := Norm(need);
    ItemsGap(n.items);
    FillCopies(n.head, ItemsText(n.items), uid);
    FillItems(n.items, uid);
    FilledOk(n, uid);
  }

  lemma FillOk(item: Item, uid: string)
    requires ItemOk(item) && IsDigits(uid)
    ensures ItemOk(FillItem(item, uid))
  {
  }

  // ---------------------------------------------------------------- which host rules match

  /** Item i of the baseline rule is met by item i of the host's. The first list is compared with the
      host's last one, and must stand the host's order; a further list must be sorted on the host. */
  ghost predicate MeetsItem(need: Rule, rule: Rule, i: nat, uid: string, host: Order)
    requires i < |need.items| && i < |rule.items|
  {
    match (need.items[i], rule.items[i])
    case (Syscalls(s), Syscalls(t)) =>
      if i == FirstList(rule.items) && LastNames(rule.items).Some? then
        && Distinct(s) && Elements(s) == Elements(LastNames(rule.items).value)
        && Sorted(Sort(s, TextLe), host)
      else multiset(s) == multiset(t) && Sorted(t, TextLe)
    case (Key(_, n), Key(_, m)) => n == m
    case (AuidNot(_), AuidNot(_)) => true
    case (AuidMin(_), AuidMin(v)) => v == uid
    case (Field(s), Field(t)) => s == t
    case (Other(s), Other(t)) => s == t
    case _ => false
  }

  ghost predicate Meets(need: Rule, rule: Rule, uid: string, host: Order) {
    && need.head == rule.head && |need.items| == |rule.items|
    && forall i :: 0 <= i < |need.items| ==> MeetsItem(need, rule, i, uid, host)
  }

  lemma HostItem(rule: Rule, host: Order, i: nat)
    requires i < |rule.items|
    ensures |HostNorm(rule, host).items| == |rule.items|
    ensures HostNorm(rule, host).items[i] ==
            match rule.items[i]
            case Syscalls(t) =>
              (if i == FirstList(rule.items) && LastNames(rule.items).Some?
               then Syscalls(SortUnique(LastNames(rule.items).value, host)) else Syscalls(t))
            case Key(_, m) => Key(false, m)
            case AuidNot(_) => AuidNot("unset")
            case AuidMin(v) => AuidMin(v)
            case Field(t) => Field(t)
            case Other(w) => Other(w)
  {
    hide SortUnique;
    NamesFound(rule.items);
  }

  lemma ItemsMeet(need: Rule, rule: Rule, i: nat, uid: string, host: Order)
    requires i < |need.items| && i < |rule.items| && TotalOrder(host)
    ensures Filled(Norm(need), uid).items[i] == HostNorm(rule, host).items[i] <==>
            MeetsItem(need, rule, i, uid, host)
  {
    hide TotalOrder, Sort, SortUnique, Sorted, Distinct, Elements, HostNorm;
    HostItem(rule, host, i);
    if need.items[i].Syscalls? && rule.items[i].Syscalls? {
      var s, t := need.items[i].names, rule.items[i].names;
      TextOrder();
      if i == FirstList(rule.items) && LastNames(rule.items).Some? {
        SortsAgree(s, LastNames(rule.items).value, TextLe, host);
      } else {
        SortSorted(s, TextLe);
        if multiset(s) == multiset(t) && Sorted(t, TextLe) {
          SortedOnce(Sort(s, TextLe), t, TextLe);
        }
      }
    }
  }

  /** The converter's form of a baseline rule, with the user number filled in, is the script's form of a
      host rule exactly when the host rule meets it. */
  lemma RulesAgree(need: Rule, rule: Rule, uid: string, host: Order)
    requires RuleOk(need) && Clear(need) && RuleOk(rule) && IsDigits(uid) && TotalOrder(host)
    ensures FillUid(NormalizeAuditctlRule(Text(need)), uid) == NormalizeFn(Text(rule), host) <==>
            Meets(need, rule, uid, host)
  {
    hide RuleOk, Clear, FillUid, NormalizeAuditctlRule, NormalizeFn, Text, IsDigits, TotalOrder, MeetsItem,
      NormItem, FillItem, Relisted, StepItems;
    NeededText(need, uid);
    HostNormalizes(rule, host);
    var a, b := Filled(Norm(need), uid), HostNorm(rule, host);
    TextOnce(a, b);
    SameLength(rule, host);
    if a == b {
      forall i | 0 <= i < |need.items| ensures MeetsItem(need, rule, i, uid, host) {
        ItemsMeet(need, rule, i, uid, host);
      }
    }
    if Meets(need, rule, uid, host) {
      forall i | 0 <= i < |need.items| ensures a.items[i] == b.items[i] {
        ItemsMeet(need, rule, i, uid, host);
      }
      assert a.items == b.items;
    }
  }

  lemma SameLength(rule: Rule, host: Order)
    ensures |HostNorm(rule, host).items| == |rule.items|
  {
  }

  // ---------------------------------------------------------------- ordinary rules

  /** Not more than one syscall list. */
  predicate OneList(items: seq<Item>) {
    forall i, j :: 0 <= i < j < |items| ==> !(items[i].Syscalls? && items[j].Syscalls?)
  }

  /** Sorting in the host's locale puts names in the order of their bytes. */
  ghost predicate PlainLocale(host: Order) {
    forall a, b :: NameOk(a) && NameOk(b) ==> (host(a, b) <==> TextLe(a, b))
  }

  /** The two rules differ at most in the order inside the list, the form of the key, the spelling of the
      unset user, and the host has its own number where the baseline has any. */
  ghost predicate SameRule(need: Rule, rule: Rule, uid: string) {
    && Alike(need, rule)
    && forall i :: 0 <= i < |rule.items| && rule.items[i].AuidMin? ==> rule.items[i].value == uid
  }

  predicate NoRepeats(r: Rule) {
    forall i :: 0 <= i < |r.items| && r.items[i].Syscalls? ==> Distinct(r.items[i].names)
  }

  /** The first list and the last one. */
  lemma {:induction false} ListsAt(items: seq<Item>, i: nat, j: nat)
    requires i <= j < |items| && items[i].Syscalls? && items[j].Syscalls?
    requires forall k :: 0 <= k < |items| && items[k].Syscalls? ==> i <= k <= j
    ensures FirstList(items) == i && LastNames(items) == Some(items[j].names)
    decreases |items|
  {
    var rest := items[1..];
    assert forall k :: 0 <= k < |rest| ==> rest[k] == items[k + 1];
    NamesFound(rest);
    if i > 0 {
      ListsAt(rest, i - 1, j - 1);
    } else if j > 0 {
      LastAt(rest, j - 1);
    }
  }

  lemma {:induction false} LastAt(items: seq<Item>, j: nat)
    requires j < |items| && items[j].Syscalls?
    requires forall k :: j < k < |items| ==> !items[k].Syscalls?
    ensures LastNames(items) == Some(items[j].names)
  {
    var rest := items[1..];
    assert forall k :: 0 <= k < |rest| ==> rest[k] == items[k + 1];
    NamesFound(rest);
    if j > 0 {
      LastAt(rest, j - 1);
    }
  }

  lemma OnlyList(items: seq<Item>, i: nat)
    requires OneList(items) && i < |items| && items[i].Syscalls?
    ensures FirstList(items) == i && LastNames(items) == Some(items[i].names)
  {
    ListsAt(items, i, i);
  }

  lemma SortedHere(names: seq<string>, host: Order)
    requires PlainLocale(host) && forall n :: n in names ==> NameOk(n)
    ensures Sorted(Sort(names, TextLe), host)
  {
    TextOrder();
    SortSorted(names, TextLe);
    var s := Sort(names, TextLe);
    MultisetMember(s, names);
    forall i, j | 0 <= i < j < |s| ensures host(s[i], s[j]) {
      assert s[i] in Elements(s) && s[j] in Elements(s);
      assert s[i] in Elements(names) && s[j] in Elements(names);
    }
  }

  lemma SameElements(s: seq<string>, t: seq<string>)
    requires Distinct(t)
    ensures Distinct(s) && Elements(s) == Elements(t) <==> multiset(s) == multiset(t)
  {
    DistinctIsOnce(s);
    DistinctIsOnce(t);
    if multiset(s) == multiset(t) {
      MultisetMember(s, t);
    } else if Distinct(s) && Elements(s) == Elements(t) {
      DistinctSame(s, t);
    }
  }

  /** For rules with at most one list and no repeated syscall, in a locale that sorts bytes, a host rule
      is found exactly when it is the same rule in another spelling. */
  lemma OrdinaryRulesAgree(need: Rule, rule: Rule, uid: string, host: Order)
    requires RuleOk(need) && Clear(need) && RuleOk(rule) && IsDigits(uid) && TotalOrder(host)
    requires PlainLocale(host) && OneList(rule.items) && NoRepeats(rule)
    ensures FillUid(NormalizeAuditctlRule(Text(need)), uid) == NormalizeFn(Text(rule), host) <==>
            SameRule(need, rule, uid)
  {
    hide FillUid, NormalizeAuditctlRule, NormalizeFn, Text, IsDigits, TotalOrder, PlainLocale, Clear, Sort,
      Sorted, Elements, Distinct, OneList, LastNames, FirstList;
    RulesAgree(need, rule, uid, host);
    if |need.items| == |rule.items| {
      forall i | 0 <= i < |need.items|
        ensures MeetsItem(need, rule, i, uid, host) <==>
                AlikeItem(need.items[i], rule.items[i])
                && (rule.items[i].AuidMin? ==> rule.items[i].value == uid)
      {
        assert need.items[i] in need.items;
        if need.items[i].Syscalls? && rule.items[i].Syscalls? {
          OnlyList(rule.items, i);
          SortedHere(need.items[i].names, host);
          SameElements(need.items[i].names, rule.items[i].names);
        }
      }
    }
  }

  /** A baseline list that repeats a syscall is found in no rule with one list, whatever the host has. */
  lemma RepeatsNeverFound(need: Rule, rule: Rule, k: nat, uid: string, host: Order)
    requires RuleOk(need) && Clear(need) && RuleOk(rule) && IsDigits(uid) && TotalOrder(host)
    requires OneList(rule.items) && k < |need.items| && need.items[k].Syscalls? && !Distinct(need.items[k].names)
    ensures FillUid(NormalizeAuditctlRule(Text(need)), uid) != NormalizeFn(Text(rule), host)
  {
    hide FillUid, NormalizeAuditctlRule, NormalizeFn, Text, IsDigits, TotalOrder, Clear, Sort, RuleOk,
      Sorted, Elements, Distinct, OneList, LastNames, FirstList;
    RulesAgree(need, rule, uid, host);
    if Meets(need, rule, uid, host) {
      assert MeetsItem(need, rule, k, uid, host);
      OnlyList(rule.items, k);
    }
  }

  /** The rule has more than one list, and the last does not name the syscalls of the first. */
  predicate ListsDiffer(rule: Rule) {
    var k := FirstList(rule.items);
    && k < |rule.items| && LastNames(rule.items).Some?
    && Elements(rule.items[k].names) != Elements(LastNames(rule.items).value)
  }

  /** Such a rule is not found even where it is installed, word for word or in another spelling. */
  lemma SplitListsNeverFound(need: Rule, rule: Rule, uid: string, host: Order)
    requires RuleOk(need) && Clear(need) && RuleOk(rule) && IsDigits(uid) && TotalOrder(host)
    requires Alike(need, rule) && ListsDiffer(rule)
    ensures FillUid(NormalizeAuditctlRule(Text(need)), uid) != NormalizeFn(Text(rule), host)
  {
    hide FillUid, NormalizeAuditctlRule, NormalizeFn, Text, IsDigits, TotalOrder, Clear, Sort, RuleOk, Sorted,
      Elements, LastNames, FirstList;
    RulesAgree(need, rule, uid, host);
    var k := FirstList(rule.items);
    assert AlikeItem(need.items[k], rule.items[k]);
    var s, t := need.items[k].names, rule.items[k].names;
    MultisetMember(s, t);
    assert Elements(s) == Elements(t);
    assert !MeetsItem(need, rule, k, uid, host);
  }

  /** The shortest case, whatever else the rule has: two lists of one syscall each. */
  lemma TwoListsDiffer(rule: Rule, i: nat, j: nat, a: string, b: string)
    requires i < j < |rule.items| && a != b
    requires rule.items[i] == Syscalls([a]) && rule.items[j] == Syscalls([b])
    requires forall k :: 0 <= k < |rule.items| && rule.items[k].Syscalls? ==> k == i || k == j
    ensures ListsDiffer(rule)
  {
    ListsAt(rule.items, i, j);
    assert a in Elements([a]) && Elements([b]) == {b};
  }

  // ---------------------------------------------------------------- the script

  /** How many needed rules are in none of the host's lines (grep -qxF over the normalised lines). */
  function Missing(need: seq<string>, lines: seq<string>, uid: string, host: Order): nat {
    if need == [] then 0
    else
      (if exists l :: l in lines && NormalizeFn(l, host) == FillUid(need[0], uid) then 0 else 1)
      + Missing(need[1..], lines, uid, host)
  }

  predicate ScriptPasses(needDisk: seq<string>, needRun: seq<string>, disk: seq<string>, run: seq<string>,
                         uid: string, host: Order) {
    Missing(needDisk, disk, uid, host) + Missing(needRun, run, uid, host) == 0
  }

  /** The emitted script, whose arrays hold the needed rules as literals. */
  predicate EmittedPasses(needDisk: seq<string>, needRun: seq<string>, disk: seq<string>, run: seq<string>,
                          uid: string, host: Order) {
    && ReadAll(needDisk).Some? && ReadAll(needRun).Some?
    && ScriptPasses(ReadAll(needDisk).value, ReadAll(needRun).value, disk, run, uid, host)
  }

  function NormalTexts(rules: seq<Rule>): (r: seq<string>)
    ensures |r| == |rules|
  {
    seq(|rules|, i requires 0 <= i < |rules| => NormalizeAuditctlRule(Text(rules[i])))
  }

  function Texts(rules: seq<Rule>): (r: seq<string>)
    ensures |r| == |rules|
    ensures forall i :: 0 <= i < |rules| ==> r[i] == Text(rules[i])
  {
    seq(|rules|, i requires 0 <= i < |rules| => Text(rules[i]))
  }

  ghost predicate AllFound(need: seq<Rule>, rules: seq<Rule>, uid: string, host: Order) {
    forall n :: n in need ==> exists r :: r in rules && Meets(n, r, uid, host)
  }

  lemma {:induction false} NoneMissing(need: seq<Rule>, rules: seq<Rule>, uid: string, host: Order)
    requires forall n :: n in need ==> RuleOk(n) && Clear(n)
    requires (forall r :: r in rules ==> RuleOk(r)) && IsDigits(uid) && TotalOrder(host)
    ensures Missing(NormalTexts(need), Texts(rules), uid, host) == 0 <==> AllFound(need, rules, uid, host)
  {
    hide FillUid, NormalizeAuditctlRule, NormalizeFn, Text, IsDigits, TotalOrder, Clear, RuleOk, Meets;
    if need != [] {
      NoneMissing(need[1..], rules, uid, host);
      assert NormalTexts(need)[1..] == NormalTexts(need[1..]);
      var n := need[0];
      assert n in need;
      var wanted := FillUid(NormalizeAuditctlRule(Text(n)), uid);
      assert NormalTexts(need)[0] == NormalizeAuditctlRule(Text(n));
      OneFound(n, rules, uid, host);
      assert forall m :: m in need <==> m == n || m in need[1..];
    }
  }

  lemma OneFound(n: Rule, rules: seq<Rule>, uid: string, host: Order)
    requires RuleOk(n) && Clear(n)
    requires (forall r :: r in rules ==> RuleOk(r)) && IsDigits(uid) && TotalOrder(host)
    ensures (exists l :: l in Texts(rules) && NormalizeFn(l, host) == FillUid(NormalizeAuditctlRule(Text(n)), uid))
            <==> exists r :: r in rules && Meets(n, r, uid, host)
  {
    hide FillUid, NormalizeAuditctlRule, NormalizeFn, Text, IsDigits, TotalOrder, Clear, RuleOk, Meets;
    var wanted := FillUid(NormalizeAuditctlRule(Text(n)), uid);
    if l :| l in Texts(rules) && NormalizeFn(l, host) == wanted {
      var k :| 0 <= k < |rules| && Texts(rules)[k] == l;
      RulesAgree(n, rules[k], uid, host);
      assert rules[k] in rules;
    }
    if r :| r in rules && Meets(n, r, uid, host) {
      var k :| 0 <= k < |rules| && rules[k] == r;
      RulesAgree(n, r, uid, host);
      assert Texts(rules)[k] in Texts(rules);
    }
  }

  /** The script passes exactly when every needed rule is met by a rule on disk, or in the kernel, as its
      block asks; the needed texts must survive their double quotes. */
  lemma ScriptExact(needDisk: seq<Rule>, needRun: seq<Rule>, disk: seq<Rule>, run: seq<Rule>, uid: string, host: Order,
                    wide: char -> bool)
    requires forall n :: n in needDisk + needRun ==> RuleOk(n) && Clear(n)
    requires forall t :: t in NormalTexts(needDisk) + NormalTexts(needRun) ==> Kept(t, wide)
    requires forall r :: r in disk + run ==> RuleOk(r)
    requires IsDigits(uid) && TotalOrder(host)
    ensures EmittedPasses(Literals(NormalTexts(needDisk), wide), Literals(NormalTexts(needRun), wide),
                          Texts(disk), Texts(run), uid, host) <==>
            AllFound(needDisk, disk, uid, host) && AllFound(needRun, run, uid, host)
  {
    hide RuleOk, Clear, IsDigits, TotalOrder, Missing, AllFound, NormalTexts, Texts, Kept, Literals, ReadAll;
    assert forall n :: n in needDisk || n in needRun ==> n in needDisk + needRun;
    assert forall r :: r in disk || r in run ==> r in disk + run;
    assert forall t :: t in NormalTexts(needDisk) || t in NormalTexts(needRun) ==>
        t in NormalTexts(needDisk) + NormalTexts(needRun);
    LiteralsExact(NormalTexts(needDisk), wide);
    LiteralsExact(NormalTexts(needRun), wide);
    NoneMissing(needDisk, disk, uid, host);
    NoneMissing(needRun, run, uid, host);
  }
}
