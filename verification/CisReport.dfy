/**
 cmd/pack-tools/converter/cis.go and selftest.go: a benchmark document becomes checks, and three
 reports that must agree on which of them were degraded.
 */
module CisReport {
  import opened Common
  import opened Sorting
  import Ros2

  datatype Item = Item(id: string, status: string, audit: string)

  /** A rule that looks for one text in the output, or any other JSON. */
  datatype EvalRule = ContainsRule(value: string) | OtherRule

  datatype Check = Check(id: string, auditCommand: string, rule: EvalRule)

  const PASS_MARKER := Ros2.PASS_MARKER
  const DEGRADED_MARKER := Ros2.DEGRADED_MARKER
  const MANUAL := "Manual"
  const MANUAL_REASON := "assessment_status=" + MANUAL + " (manual review required)"
  const NO_HASHBANG_REASON := "audit lacks bash hashbang"
  const NO_MARKER_REASON := "audit lacks ** PASS ** marker (natural-language manual)"

  /** The recognisers of audit texts: which manual items are still converted, the script body, and the
      patterns in the order in which they are tried, each giving a script or nothing. */
  datatype Patterns = Patterns(
    convertible: string -> bool,
    body: string -> Option<string>,
    tries: seq<string -> Option<string>>)

  // ---------------------------------------------------------------- one item

  /** The first pattern that gives a script. */
  function FirstScript(audit: string, tries: seq<string -> Option<string>>): (s: Option<string>)
    ensures s.None? ==> forall i :: 0 <= i < |tries| ==> tries[i](audit).None?
    ensures s.Some? ==> exists i :: 0 <= i < |tries| && tries[i](audit) == s
                                    && forall j :: 0 <= j < i ==> tries[j](audit).None?
  {
    if tries == [] then None
    else match tries[0](audit)
      case Some(script) => Some(script)
      case None =>
        assert forall i :: 1 <= i < |tries| ==> tries[i] == tries[1..][i - 1];
        assert forall i :: 0 <= i < |tries[1..]| ==> tries[1..][i] == tries[i + 1];
        FirstScript(audit, tries[1..])
  }

  /** The check, and why it is degraded ("" when it is not). */
  function ConvertCISItem(it: Item, ps: Patterns): (Check, string) {
    var degraded := Check(it.id, "true", ContainsRule(DEGRADED_MARKER));
    if it.status == "Manual" && !ps.convertible(it.audit) then (degraded, MANUAL_REASON)
    else if Contains(it.audit, PASS_MARKER) then
      match ps.body(it.audit)
      case None => (degraded, NO_HASHBANG_REASON)
      case Some(body) => (Check(it.id, Ros2.WrapBash(body), ContainsRule(PASS_MARKER)), "")
    else
      match FirstScript(it.audit, ps.tries)
      case None => (degraded, NO_MARKER_REASON)
      case Some(script) => (Check(it.id, Ros2.WrapBash(script), ContainsRule(PASS_MARKER)), "")
  }

  predicate IsManual(it: Item, ps: Patterns) {
    it.status == "Manual" && !ps.convertible(it.audit)
  }

  /** Why an item is degraded, in terms of the item; only the first reason says Manual. */
  lemma ItemReasons(it: Item, ps: Patterns)
    ensures var (check, reason) := ConvertCISItem(it, ps);
            && check.id == it.id
            && check.rule == ContainsRule(if reason == "" then PASS_MARKER else DEGRADED_MARKER)
            && (reason != "" ==> check.auditCommand == "true")
            && (reason == "" && Contains(it.audit, PASS_MARKER) ==>
                  check.auditCommand == Ros2.WrapBash(ps.body(it.audit).value))
            && (reason == "" && !Contains(it.audit, PASS_MARKER) ==>
                  check.auditCommand == Ros2.WrapBash(FirstScript(it.audit, ps.tries).value))
            && (reason == "" <==>
                (!IsManual(it, ps) && if Contains(it.audit, PASS_MARKER) then ps.body(it.audit).Some?
                                      else exists i :: 0 <= i < |ps.tries| && ps.tries[i](it.audit).Some?))
            && (Contains(reason, MANUAL) <==> IsManual(it, ps))
  {
    hide Contains;
    ReasonWords();
  }

  lemma ReasonWords()
    ensures Contains(MANUAL_REASON, MANUAL) && !Contains("", MANUAL)
    ensures !Contains(NO_HASHBANG_REASON, MANUAL) && !Contains(NO_MARKER_REASON, MANUAL)
  {
    InTheMiddle("assessment_status=", MANUAL, " (manual review required)");
    assert 'M' !in NO_HASHBANG_REASON && 'M' !in NO_MARKER_REASON;
    NoLetter(NO_HASHBANG_REASON, MANUAL);
    NoLetter(NO_MARKER_REASON, MANUAL);
  }

  lemma InTheMiddle(a: string, m: string, b: string)
    ensures Contains(a + m + b, m)
  {
    assert (a + m + b)[|a|..|a| + |m|] == m;
    assert OccursAt(a + m + b, m, |a|);
  }

  lemma NoLetter(text: string, pat: string)
    requires pat != "" && pat[0] !in text
    ensures !Contains(text, pat)
  {
    forall i | 0 <= i <= |text| - |pat| ensures !OccursAt(text, pat, i) {
      assert text[i..i + |pat|][0] == text[i];
    }
  }

  // ---------------------------------------------------------------- whole documents

  datatype ConvertError = NoItems | DuplicateCheckID(id: string)

  datatype Report = Report(total: nat, converted: nat, manual: nat, noMarker: nat, degraded: seq<(string, string)>)

  /** The items that count: those with an ID. */
  function Named(items: seq<Item>): seq<Item> {
    if items == [] then [] else (if items[0].id == "" then [] else [items[0]]) + Named(items[1..])
  }

  /** These places are, in order, all those of items with an ID and no others. */
  predicate PlacesNamed(items: seq<Item>, places: seq<nat>) {
    && Picks(items, places, Named(items))
    && forall k :: 0 <= k < |items| ==> (items[k].id != "" <==> k in places)
  }

  lemma {:induction false} NamedPlaces(items: seq<Item>) returns (places: seq<nat>)
    ensures PlacesNamed(items, places)
  {
    if items == [] {
      places := [];
    } else {
      var front, it := items[..|items| - 1], items[|items| - 1];
      assert items == front + [it];
      places := NamedPlaces(front);
      hide PlacesNamed;
      PlacesOn(front, it, places);
      if it.id != "" {
        places := places + [|front|];
      }
    }
  }

  lemma PlacesOn(front: seq<Item>, it: Item, places: seq<nat>)
    requires PlacesNamed(front, places)
    ensures PlacesNamed(front + [it], if it.id == "" then places else places + [|front|])
  {
    var items := front + [it];
    PicksOn(front, it, places, Named(front));
    PlaceAdded(places, |front|);
    NamedMore(front, it);
    PlacesBelow(front, places);
    hide Named, Picks;
    assert forall k :: 0 <= k < |items| ==> items[k] == if k < |front| then front[k] else it;
  }

  lemma NamedMore(front: seq<Item>, it: Item)
    ensures Named(front + [it]) == if it.id == "" then Named(front) else Named(front) + [it]
  {
    var items := front + [it];
    assert items[..|front|] == front && items[..|front| + 1] == items;
    NamedStep(items, |front|);
    hide Named;
  }

  lemma PlacesBelow(front: seq<Item>, places: seq<nat>)
    requires PlacesNamed(front, places)
    ensures forall k :: k in places ==> k < |front|
  {
    hide Named;
  }

  function Checks(items: seq<Item>, ps: Patterns): (cs: seq<Check>)
    ensures |cs| == |items|
    ensures forall i :: 0 <= i < |cs| ==> cs[i] == ConvertCISItem(items[i], ps).0
  {
    seq(|items|, i requires 0 <= i < |items| => ConvertCISItem(items[i], ps).0)
  }

  /** The degraded items with their reasons, in order. */
  function DegradedOf(items: seq<Item>, ps: Patterns): seq<(string, string)> {
    if items == [] then []
    else
      var n := |items| - 1;
      var reason := ConvertCISItem(items[n], ps).1;
      DegradedOf(items[..n], ps) + if reason == "" then [] else [(items[n].id, reason)]
  }

  function Ids(items: seq<Item>): (ids: seq<string>)
    ensures |ids| == |items|
    ensures forall i :: 0 <= i < |ids| ==> ids[i] == items[i].id
  {
    seq(|items|, i requires 0 <= i < |items| => items[i].id)
  }

  function ManualCount(items: seq<Item>, ps: Patterns): nat {
    if items == [] then 0
    else ManualCount(items[..|items| - 1], ps) + if IsManual(items[|items| - 1], ps) then 1 else 0
  }

  /** The report on these items: the counts follow from the list of the degraded. */
  ghost predicate Reports(r: Report, items: seq<Item>, ps: Patterns) {
    && r.degraded == DegradedOf(items, ps)
    && r.converted + |r.degraded| == |items|
    && r.manual == ManualCount(items, ps)
    && r.manual + r.noMarker == |r.degraded|
  }

  lemma NamedStep(items: seq<Item>, i: nat)
    requires i < |items|
    ensures items[i].id == "" ==> Named(items[..i + 1]) == Named(items[..i])
    ensures items[i].id != "" ==> Named(items[..i + 1]) == Named(items[..i]) + [items[i]]
  {
    assert items[..i + 1] == items[..i] + [items[i]];
    NamedConcat(items[..i], [items[i]]);
    assert Named([items[i]][1..]) == [];
  }

  lemma {:induction false} NamedConcat(a: seq<Item>, b: seq<Item>)
    ensures Named(a + b) == Named(a) + Named(b)
  {
    if a == [] {
      assert a + b == b;
    } else {
      assert (a + b)[1..] == a[1..] + b;
      NamedConcat(a[1..], b);
    }
  }

  lemma DegradedStep(items: seq<Item>, it: Item, ps: Patterns)
    ensures var reason := ConvertCISItem(it, ps).1;
            DegradedOf(items + [it], ps) == DegradedOf(items, ps) + if reason == "" then [] else [(it.id, reason)]
    ensures ManualCount(items + [it], ps) == ManualCount(items, ps) + if IsManual(it, ps) then 1 else 0
    ensures Checks(items + [it], ps) == Checks(items, ps) + [ConvertCISItem(it, ps).0]
  {
    hide ConvertCISItem, IsManual;
    assert (items + [it])[..|items|] == items;
  }

  lemma Nothing(items: seq<Item>, r: Report, ps: Patterns)
    requires r == Report(|items|, 0, 0, 0, [])
    ensures Named(items[..0]) == [] && Reports(r, [], ps) && Checks([], ps) == []
    ensures Distinct(Ids([])) && Elements(Ids([])) == {}
  {
  }

  lemma ReasonTells(it: Item, ps: Patterns)
    ensures IsManual(it, ps) <==> Contains(ConvertCISItem(it, ps).1, MANUAL)
    ensures IsManual(it, ps) ==> ConvertCISItem(it, ps).1 != ""
  {
    hide Contains, ConvertCISItem;
    ItemReasons(it, ps);
  }

  /** One more item in the counters and the list. */
  method CountItem(r: Report, ghost items: seq<Item>, it: Item, reason: string, ps: Patterns) returns (r': Report)
    requires Reports(r, items, ps) && reason == ConvertCISItem(it, ps).1
    ensures Reports(r', items + [it], ps) && r'.total == r.total
  {
    DegradedStep(items, it, ps);
    ReasonTells(it, ps);
    hide ConvertCISItem, Contains, DegradedOf, ManualCount, IsManual, Checks, MANUAL;
    r' := r;
    if reason == "" {
      r' := r'.(converted := r'.converted + 1);
    } else if Contains(reason, MANUAL) {
      r' := r'.(manual := r'.manual + 1);
    } else {
      r' := r'.(noMarker := r'.noMarker + 1);
    }
    if reason != "" {
      r' := r'.(degraded := r'.degraded + [(it.id, reason)]);
    }
  }

  method ConvertCIS(items: seq<Item>, ps: Patterns) returns (r: Result<(seq<Check>, Report), ConvertError>)
    ensures r.Ok? <==> items != [] && Distinct(Ids(Named(items)))
    ensures r.Ok? ==> r.value.0 == Checks(Named(items), ps) && Reports(r.value.1, Named(items), ps)
    ensures r.Ok? ==> r.value.1.total == |items|
  {
    hide ConvertCISItem, Contains, Reports, Named, Distinct, Elements, Checks, Ids, DegradedOf;
    if items == [] {
      return Err(NoItems);
    }
    var checks: seq<Check> := [];
    var report := Report(|items|, 0, 0, 0, []);
    var seen: set<string> := {};
    Nothing(items, report, ps);
    for i := 0 to |items|
      invariant checks == Checks(Named(items[..i]), ps) && Reports(report, Named(items[..i]), ps)
      invariant report.total == |items|
      invariant Distinct(Ids(Named(items[..i]))) && seen == Elements(Ids(Named(items[..i])))
    {
      var it := items[i];
      ghost var named := Named(items[..i]);
      NamedStep(items, i);
      if it.id == "" {
        continue;
      }
      AddId(named, it);
      if it.id in seen {
        NamedPrefix(items, i + 1);
        return Err(DuplicateCheckID(it.id));
      }
      seen := seen + {it.id};
      var (check, reason) := ConvertCISItem(it, ps);
      DegradedStep(named, it, ps);
      checks := checks + [check];
      report := CountItem(report, named, it, reason, ps);
    }
    assert items[..|items|] == items;
    r := Ok((checks, report));
  }

  lemma AddId(items: seq<Item>, it: Item)
    ensures Ids(items + [it]) == Ids(items) + [it.id]
    ensures Elements(Ids(items) + [it.id]) == Elements(Ids(items)) + {it.id}
    ensures Distinct(Ids(items)) ==> (Distinct(Ids(items) + [it.id]) <==> it.id !in Elements(Ids(items)))
  {
    var a := Ids(items);
    var b := a + [it.id];
    if it.id in a {
      var k :| 0 <= k < |a| && a[k] == it.id;
      assert b[k] == b[|a|];
    }
  }

  /** A repeated ID stays repeated. */
  lemma NamedPrefix(items: seq<Item>, i: nat)
    requires i <= |items|
    ensures Distinct(Ids(Named(items))) ==> Distinct(Ids(Named(items[..i])))
  {
    assert items == items[..i] + items[i..];
    NamedConcat(items[..i], items[i..]);
    hide Named, Ids, Distinct;
    IdsConcat(Named(items[..i]), Named(items[i..]));
    if Distinct(Ids(Named(items))) {
      DistinctFront(Ids(Named(items[..i])), Ids(Named(items[i..])));
    }
  }

  lemma IdsConcat(a: seq<Item>, b: seq<Item>)
    ensures Ids(a + b) == Ids(a) + Ids(b)
  {
  }

  lemma DistinctFront(a: seq<string>, b: seq<string>)
    requires Distinct(a + b)
    ensures Distinct(a)
  {
    assert forall i :: 0 <= i < |a| ==> (a + b)[i] == a[i];
  }

  method ListCISDegraded(items: seq<Item>, ps: Patterns) returns (r: Result<seq<(string, string)>, ConvertError>)
    ensures r == if items == [] then Err(NoItems) else Ok(DegradedOf(Named(items), ps))
  {
    hide ConvertCISItem;
    if items == [] {
      return Err(NoItems);
    }
    var out: seq<(string, string)> := [];
    assert Named(items[..0]) == [];
    for i := 0 to |items|
      invariant out == DegradedOf(Named(items[..i]), ps)
    {
      NamedStep(items, i);
      if items[i].id == "" {
        continue;
      }
      DegradedStep(Named(items[..i]), items[i], ps);
      var reason := ConvertCISItem(items[i], ps).1;
      if reason == "" {
        continue;
      }
      out := out + [(items[i].id, reason)];
    }
    assert items[..|items|] == items;
    r := Ok(out);
  }

  // ---------------------------------------------------------------- skeletons

  datatype RuleClass = PassMarkerClass | DegradedClass | CustomClass

  function ClassifyEvalRule(rule: EvalRule): RuleClass {
    match rule
    case OtherRule => CustomClass
    case ContainsRule(v) =>
      if v == PASS_MARKER then PassMarkerClass else if v == DEGRADED_MARKER then DegradedClass else CustomClass
  }

  /** One class for each of the two marker rules, and one for every other rule. */
  lemma ClassMeans(rule: EvalRule)
    ensures ClassifyEvalRule(rule) ==
            if rule == ContainsRule("** PASS **") then PassMarkerClass
            else if rule == ContainsRule("<degraded — Phase 2 fixture required>") then DegradedClass
            else CustomClass
  {
  }

  datatype SelfTestReport = SelfTestReport(skeletons: seq<string>, degraded: seq<string>, custom: seq<string>)

  function OfClass(checks: seq<Check>, c: RuleClass): seq<string> {
    if checks == [] then []
    else
      var n := |checks| - 1;
      OfClass(checks[..n], c) + if ClassifyEvalRule(checks[n].rule) == c then [checks[n].id] else []
  }

  /** The IDs of each class, sorted. */
  method GenerateSelfTestSkeletons(checks: seq<Check>) returns (r: SelfTestReport)
    ensures r.skeletons == Sort(OfClass(checks, PassMarkerClass), TextLe)
    ensures r.degraded == Sort(OfClass(checks, DegradedClass), TextLe)
    ensures r.custom == Sort(OfClass(checks, CustomClass), TextLe)
  {
    r := SelfTestReport([], [], []);
    for i := 0 to |checks|
      invariant r.skeletons == OfClass(checks[..i], PassMarkerClass)
      invariant r.degraded == OfClass(checks[..i], DegradedClass)
      invariant r.custom == OfClass(checks[..i], CustomClass)
    {
      var c := checks[i];
      assert checks[..i + 1][..i] == checks[..i];
      match ClassifyEvalRule(c.rule)
      case PassMarkerClass => r := r.(skeletons := r.skeletons + [c.id]);
      case DegradedClass => r := r.(degraded := r.degraded + [c.id]);
      case CustomClass => r := r.(custom := r.custom + [c.id]);
    }
    assert checks[..|checks|] == checks;
    r := r.(skeletons := Sort(r.skeletons, TextLe), degraded := Sort(r.degraded, TextLe),
            custom := Sort(r.custom, TextLe));
  }

  function FirstOf(pairs: seq<(string, string)>): (ids: seq<string>)
    ensures |ids| == |pairs|
    ensures forall i :: 0 <= i < |ids| ==> ids[i] == pairs[i].0
  {
    seq(|pairs|, i requires 0 <= i < |pairs| => pairs[i].0)
  }

  /** Of converted checks none is custom, and the degraded ones are those of the report, in its order. */
  lemma {:induction false} ClassesAgree(items: seq<Item>, ps: Patterns)
    ensures var cs := Checks(items, ps);
            && OfClass(cs, CustomClass) == []
            && OfClass(cs, DegradedClass) == FirstOf(DegradedOf(items, ps))
            && |OfClass(cs, PassMarkerClass)| + |DegradedOf(items, ps)| == |items|
  {
    if items == [] {
      assert Checks(items, ps) == [];
    } else {
      hide ConvertCISItem, ClassifyEvalRule, Checks, OfClass, DegradedOf, FirstOf;
      var before, it := items[..|items| - 1], items[|items| - 1];
      assert items == before + [it];
      ClassesAgree(before, ps);
      var (check, reason) := ConvertCISItem(it, ps);
      OneClass(it, ps);
      DegradedStep(before, it, ps);
      OfClassStep(Checks(before, ps), check);
      FirstOfStep(DegradedOf(before, ps), (it.id, reason));
    }
  }

  /** Every check is in one class: an ID is listed under it as often as checks of this class have it. */
  lemma {:induction false} ClassesCover(checks: seq<Check>)
    ensures |OfClass(checks, PassMarkerClass)| + |OfClass(checks, DegradedClass)| + |OfClass(checks, CustomClass)|
         == |checks|
  {
    hide ClassifyEvalRule;
    if checks != [] {
      var n := |checks| - 1;
      ClassesCover(checks[..n]);
      match ClassifyEvalRule(checks[n].rule)
      case PassMarkerClass =>
      case DegradedClass =>
      case CustomClass =>
    }
  }

  lemma OfClassStep(cs: seq<Check>, c: Check)
    ensures forall k :: OfClass(cs + [c], k) == OfClass(cs, k) + if ClassifyEvalRule(c.rule) == k then [c.id] else []
  {
    hide ClassifyEvalRule;
    assert (cs + [c])[..|cs|] == cs;
  }

  lemma FirstOfStep(pairs: seq<(string, string)>, x: (string, string))
    ensures FirstOf(pairs + [x]) == FirstOf(pairs) + [x.0] && FirstOf(pairs + []) == FirstOf(pairs)
  {
    assert pairs + [] == pairs;
  }

  lemma OneClass(it: Item, ps: Patterns)
    ensures var (check, reason) := ConvertCISItem(it, ps);
            check.id == it.id
            && ClassifyEvalRule(check.rule) == if reason == "" then PassMarkerClass else DegradedClass
  {
    hide Contains, ConvertCISItem;
    ItemReasons(it, ps);
    assert PASS_MARKER[0] != DEGRADED_MARKER[0];
  }

  /** The three reports agree: the counters add up to the checks, the skeletons number exactly the
      converted ones, the rest are the degraded ones of the report, and none is left over. */
  lemma ReportsAgree(items: seq<Item>, ps: Patterns, r: Report)
    requires Reports(r, items, ps)
    ensures var cs := Checks(items, ps);
            && r.converted + r.manual + r.noMarker == |cs|
            && |Sort(OfClass(cs, PassMarkerClass), TextLe)| == r.converted
            && multiset(Sort(OfClass(cs, DegradedClass), TextLe)) == multiset(FirstOf(r.degraded))
            && Sort(OfClass(cs, CustomClass), TextLe) == []
  {
    ClassesAgree(items, ps);
    var cs := Checks(items, ps);
    var s := OfClass(cs, PassMarkerClass);
    MultisetMember(Sort(s, TextLe), s);
  }
}
