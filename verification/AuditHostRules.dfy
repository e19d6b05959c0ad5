/** The host's side of the comparison: what normalize_fn makes of a rule on disk or in the kernel, and
    exactly which host rules a rule of the baseline is found in. */
module AuditHostRules {
  import opened Common
  import opened Sorting
  import opened AuditRules
  import opened AuditRuleScan
  import opened AuditRulesAgree

  type Order = (string, string) -> bool

  const LIST := PutList("")

  // ---------------------------------------------------------------- the host's form

  /** The names of the last syscall list, and the position of the first. */
  function LastNames(items: seq<Item>): Option<seq<string>> {
    if items == [] then None
    else match LastNames(items[1..])
      case Some(names) => Some(names)
      case None => if items[0].Syscalls? then Some(items[0].names) else None
  }

  function FirstList(items: seq<Item>): (k: nat)
    ensures k <= |items|
    ensures forall i :: 0 <= i < k ==> !items[i].Syscalls?
    ensures k < |items| ==> items[k].Syscalls?
  {
    if items == [] || items[0].Syscalls? then 0 else 1 + FirstList(items[1..])
  }

  /** The last list, sorted, overwrites the first; other lists stay as they are. */
  function Relisted(items: seq<Item>, host: Order): (r: seq<Item>)
    ensures |r| == |items|
  {
    var k := FirstList(items);
    if k == |items| || LastNames(items).None? then items
    else items[k := Syscalls(SortUnique(LastNames(items).value, host))]
  }

  function HostNorm(r: Rule, host: Order): Rule {
    Rule(r.head, StepItems(StepItems(Relisted(r.items, host), KeyForm), AuidUnset))
  }

  // ---------------------------------------------------------------- its scans

  lemma {:induction false} LastSkip(w: string, rest: string)
    requires ' ' !in w
    ensures LastBody(w + rest, LIST) == LastBody(rest, LIST)
  {
    if w == "" {
      assert w + rest == rest;
    } else {
      hide Hit;
      assert (w + rest)[1..] == w[1..] + rest;
      StartsAtSpace(w + rest, LIST);
      LastSkip(w[1..], rest);
    }
  }

  lemma {:induction false} FirstSkip(w: string, rest: string, p: Step)
    requires ' ' !in w
    ensures ReplaceFirst(w + rest, p) == w + ReplaceFirst(rest, p)
  {
    if w == "" {
      assert w + rest == rest;
    } else {
      hide Hit, ReplaceFirst;
      var s := w + rest;
      assert s[0] == w[0] && s[1..] == w[1..] + rest;
      StartsAtSpace(s, p);
      FirstMiss(s, p);
      FirstSkip(w[1..], rest, p);
      OneMore(w, ReplaceFirst(rest, p));
    }
  }

  lemma SkipSpaced(w: string, rest: string, p: Step)
    requires ' ' !in w && AtGap(rest) && w != "-S" && p.PutList?
    ensures LastBody(" " + w + rest, LIST) == LastBody(rest, LIST)
    ensures ReplaceFirst(" " + w + rest, p) == " " + w + ReplaceFirst(rest, p)
  {
    hide LastBody, ReplaceFirst, Prefix, StartsWith;
    var s := " " + w + rest;
    NotTheFlag(w, rest, LIST);
    NotTheFlag(w, rest, p);
    assert s[1..] == w + rest && s[0] == ' ';
    LastMiss(s);
    FirstMiss(s, p);
    LastSkip(w, rest);
    FirstSkip(w, rest, p);
  }

  lemma LastMiss(s: string)
    requires s != "" && !Hit(s, LIST)
    ensures LastBody(s, LIST) == LastBody(s[1..], LIST)
  {
  }

  lemma FirstMiss(s: string, p: Step)
    requires s != "" && !Hit(s, p)
    ensures ReplaceFirst(s, p) == [s[0]] + ReplaceFirst(s[1..], p)
  {
  }

  /** An item that is no list is passed over. */
  lemma PassItem(item: Item, rest: string, p: Step)
    requires ItemOk(item) && !item.Syscalls? && AtGap(rest) && p.PutList?
    ensures LastBody(Spaced(Words(item)) + rest, LIST) == LastBody(rest, LIST)
    ensures ReplaceFirst(Spaced(Words(item)) + rest, p) == Spaced(Words(item)) + ReplaceFirst(rest, p)
  {
    ItemWordsFree(item);
    assert forall w :: w in Words(item) ==> w != "-S" by {
      if item.AuidNot? || item.AuidMin? || (item.Key? && !item.short) {
        assert Words(item)[1][0] == 'a' || Words(item)[1][0] == 'k';
      }
    }
    PassWords(Words(item), rest, p);
  }

  lemma {:induction false} PassWords(words: seq<string>, rest: string, p: Step)
    requires (forall w :: w in words ==> ' ' !in w && w != "-S") && AtGap(rest) && p.PutList?
    ensures LastBody(Spaced(words) + rest, LIST) == LastBody(rest, LIST)
    ensures ReplaceFirst(Spaced(words) + rest, p) == Spaced(words) + ReplaceFirst(rest, p)
  {
    hide LastBody, ReplaceFirst;
    if words == [] {
      assert Spaced(words) + rest == rest;
    } else {
      var tail := Spaced(words[1..]) + rest;
      PassWords(words[1..], rest, p);
      assert words[0] in words;
      SkipSpaced(words[0], tail, p);
      assert Spaced(words) + rest == " " + words[0] + tail;
    }
  }

  /** A list is found, and replaced whole. */
  lemma FindItem(names: seq<string>, rest: string, list: string)
    requires ItemOk(Syscalls(names)) && AtGap(rest)
    ensures var s := Spaced(Words(Syscalls(names))) + rest;
            && LastBody(s, LIST) ==
               (if LastBody(rest, LIST).Some? then LastBody(rest, LIST) else Some(Join(names, ",")))
            && ReplaceFirst(s, PutList(list)) == " " + "-S" + " " + list + rest
  {
    hide Join, LastBody, ReplaceFirst, BodyLength, Hit, HitBody, AfterHit, Spaced, ItemOk;
    var body := Join(names, ",");
    SpacedTwo("-S", body);
    var s := " " + "-S" + " " + body + rest;
    ListHit(names, rest, "");
    ListHit(names, rest, list);
    FoundBody(s, LIST);
    FoundFirst(s, PutList(list));
    var tail := " " + body + rest;
    assert s[1..] == "-S" + tail;
    LastSkip("-S", tail);
    ListWord(names);
    SkipSpaced(body, rest, LIST);
  }

  lemma ListWord(names: seq<string>)
    requires ItemOk(Syscalls(names))
    ensures var body := Join(names, ","); ' ' !in body && body != "-S"
  {
    ListText(names);
  }

  lemma ListHit(names: seq<string>, rest: string, list: string)
    requires ItemOk(Syscalls(names)) && AtGap(rest)
    ensures var body := Join(names, ",");
            var s := " " + "-S" + " " + body + rest;
            Hit(s, PutList(list)) && HitBody(s, PutList(list)) == body && AfterHit(s, PutList(list)) == rest
  {
    hide Join, BodyLength, Hit, HitBody, AfterHit, ReplaceAll;
    var body := Join(names, ",");
    ListBody(names, rest, PutList(list));
    HitPair(body, rest, PutList(list));
    assert Stem(PutList(list)) + body == body;
  }

  lemma FoundBody(s: string, p: Step)
    requires Hit(s, p)
    ensures LastBody(s, p) == if LastBody(s[1..], p).Some? then LastBody(s[1..], p) else Some(HitBody(s, p))
  {
  }

  lemma FoundFirst(s: string, p: Step)
    requires Hit(s, p)
    ensures ReplaceFirst(s, p) == Put(p, HitBody(s, p)) + AfterHit(s, p)
  {
  }

  function JoinSome(names: Option<seq<string>>): Option<string> {
    match names
    case None => None
    case Some(n) => Some(Join(n, ","))
  }

  lemma {:induction false} LastScan(items: seq<Item>)
    requires forall i :: i in items ==> ItemOk(i)
    ensures LastBody(ItemsText(items), LIST) == JoinSome(LastNames(items))
  {
    hide ItemOk, Words, Join;
    if items == [] {
      assert LastBody("", LIST) == None;
    } else {
      var rest := items[1..];
      hide LastBody;
      assert items[0] in items;
      ItemsGap(rest);
      LastScan(rest);
      if items[0].Syscalls? {
        FindItem(items[0].names, ItemsText(rest), "");
      } else {
        PassItem(items[0], ItemsText(rest), LIST);
      }
    }
  }

  lemma {:induction false} FirstScan(items: seq<Item>, names: seq<string>)
    requires forall i :: i in items ==> ItemOk(i)
    ensures var k := FirstList(items);
            ReplaceFirst(ItemsText(items), PutList(Join(names, ",")))
            == ItemsText(if k == |items| then items else items[k := Syscalls(names)])
  {
    var k := FirstList(items);
    var list := Join(names, ",");
    hide ItemOk, Words, Join, Spaced;
    if items == [] {
      assert ReplaceFirst("", PutList(list)) == "";
    } else {
      hide ReplaceFirst, LastBody;
      var rest := items[1..];
      assert items[0] in items;
      ItemsGap(rest);
      if items[0].Syscalls? {
        FindItem(items[0].names, ItemsText(rest), list);
        SpacedTwo("-S", list);
        assert items[0 := Syscalls(names)][1..] == rest;
        WordsOfList(names);
      } else {
        PassItem(items[0], ItemsText(rest), PutList(list));
        FirstScan(rest, names);
        if k < |items| {
          assert items[k := Syscalls(names)][1..] == rest[k - 1 := Syscalls(names)];
        }
      }
    }
  }

  lemma WordsOfList(names: seq<string>)
    ensures Words(Syscalls(names)) == ["-S", Join(names, ",")]
  {
  }

  lemma {:induction false} LastInside(s: string)
    requires LastBody(s, LIST).Some?
    ensures Contains(s, " -S ")
  {
    if LastBody(s[1..], LIST).Some? {
      LastInside(s[1..]);
      var i :| 0 <= i <= |s[1..]| - 4 && OccursAt(s[1..], " -S ", i);
      assert OccursAt(s, " -S ", i + 1);
    } else {
      assert Prefix(LIST) == " -S ";
      assert OccursAt(s, " -S ", 0);
    }
  }

  lemma {:induction false} NamesFound(items: seq<Item>)
    ensures LastNames(items).Some? <==> FirstList(items) < |items|
    ensures LastNames(items).Some? ==> Syscalls(LastNames(items).value) in items
  {
    if items != [] {
      NamesFound(items[1..]);
    }
  }

  /** normalize_fn on a written rule does what HostNorm does to its items. */
  lemma HostNormalizes(r: Rule, host: Order)
    requires RuleOk(r) && TotalOrder(host)
    ensures NormalizeFn(Text(r), host) == Text(HostNorm(r, host)) && RuleOk(HostNorm(r, host))
  {
    hide ReplaceAll, ReplaceFirst, LastBody, ItemOk, Join, Split, SortUnique;
    var line := Text(r);
    var items' := Relisted(r.items, host);
    LastSkip(r.head, ItemsText(r.items));
    LastScan(r.items);
    NamesFound(r.items);
    var listed := Rule(r.head, items');
    if LastNames(r.items).Some? {
      var names := LastNames(r.items).value;
      LastInside(line);
      NamesSplit(names);
      FirstSkip(r.head, ItemsText(r.items), PutList(Join(SortUnique(names, host), ",")));
      FirstScan(r.items, SortUnique(names, host));
      NewNamesOk(names, host);
    } else {
      FirstSkip(r.head, ItemsText(r.items), LIST);
      FirstScan(r.items, []);
      NoNames();
    }
    assert RuleOk(listed);
    var r1 := RuleScan(listed, KeyForm);
    var r2 := RuleScan(r1, AuidUnset);
  }

  lemma NoNames()
    ensures PutList(Join([], ",")) == LIST
  {
  }

  lemma NamesSplit(names: seq<string>)
    requires ItemOk(Syscalls(names))
    ensures Split(Join(names, ","), ',') == names
  {
    ListText(names);
  }

  lemma NewNamesOk(names: seq<string>, host: Order)
    requires ItemOk(Syscalls(names)) && TotalOrder(host)
    ensures ItemOk(Syscalls(SortUnique(names, host)))
  {
    SortUniqueSorted(names, host);
    var r := SortUnique(names, host);
    assert names[0] in Elements(names);
    assert forall n :: n in r ==> n in Elements(r);
  }
}
