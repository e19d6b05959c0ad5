/**
 cmd/pack-tools/converter/ros2.go: the conditions of one item and its pass_logic become one bash
 script, and the items of a document become checks.
 */
module Ros2 {
  import opened Common
  import opened Conditions
  import opened PassLogic

  const PASS_MARKER := "** PASS **"
  const FAIL_MARKER := "** FAIL **"
  const DEGRADED_MARKER := "<degraded — Phase 2 fixture required>"

  /** The script around the setup lines and the condition of its if. */
  function Script(setup: string, logic: string): string {
    setup + "if " + logic + SCRIPT_END
  }

  const SCRIPT_END := "; then echo '" + PASS_MARKER + "'; else echo '" + FAIL_MARKER + "'; fi"

  // ---------------------------------------------------------------- one script

  /** The map from IDs to conditions: of several conditions with one ID, the last stays. */
  function CondMap(conds: seq<Condition>, n: nat): map<string, Condition>
    requires n <= |conds|
  {
    if n == 0 then map[] else CondMap(conds, n - 1)[conds[n - 1].id := conds[n - 1]]
  }

  function LeafOf(m: map<string, Condition>): Leaf {
    id => if id in m then ConditionToBashTest(m[id]) else Err(UnknownCondition(id))
  }

  function LogicText(conds: seq<Condition>, raw: RawLogic): Result<string, ConvError> {
    var leaf := LeafOf(CondMap(conds, |conds|));
    match raw
    case Absent => if |conds| != 1 then Err(NoPassLogic(|conds|)) else leaf(conds[0].id)
    case Malformed => Err(InvalidShape)
    case Decoded(node) => NodeToBash(node, leaf)
  }

  function SetupText(conds: seq<Condition>, n: nat): string
    requires n <= |conds|
  {
    if n == 0 then "set -o pipefail; "
    else SetupText(conds, n - 1) + ConditionSetupLine(conds[n - 1]) + "; "
  }

  function CombineText(conds: seq<Condition>, raw: RawLogic): Result<string, ConvError> {
    match LogicText(conds, raw)
    case Err(e) => Err(e)
    case Ok(logic) => Ok(Script(SetupText(conds, |conds|), logic))
  }

  /** The tree that decides a script: pass_logic, or the only condition when there is none. */
  function TreeOf(conds: seq<Condition>, raw: RawLogic): Option<Tree> {
    match raw
    case Absent => if |conds| == 1 then Some(Cond(conds[0].id)) else None
    case Malformed => None
    case Decoded(node) => ReadTree(node)
  }

  /** A script exists exactly for a proper tree over the conditions at hand, each translatable. */
  lemma AcceptedScripts(conds: seq<Condition>, raw: RawLogic)
    ensures var leaf := LeafOf(CondMap(conds, |conds|));
            && (CombineText(conds, raw).Ok? <==>
                TreeOf(conds, raw).Some? && EveryLeaf(TreeOf(conds, raw).value, LeafOk(leaf)))
            && (CombineText(conds, raw).Ok? ==>
                && Proper(TreeOf(conds, raw).value)
                && LogicText(conds, raw).value == Render(TreeOf(conds, raw).value, LeafText(leaf)))
  {
    if raw.Decoded? {
      AcceptedTrees(raw.node, LeafOf(CondMap(conds, |conds|)));
    }
  }

  /** The condition that an ID stands for, the last one that has it, looks at the whole output as a text. */
  predicate GoodLeaf(conds: seq<Condition>, id: string) {
    exists k :: 0 <= k < |conds| && LastWithId(conds, k, id) && OnWholeText(conds[k])
  }

  predicate LastWithId(conds: seq<Condition>, k: nat, id: string)
    requires k < |conds|
  {
    conds[k].id == id && forall j :: k < j < |conds| ==> conds[j].id != id
  }

  function GoodLeaves(conds: seq<Condition>): string -> bool {
    id => GoodLeaf(conds, id)
  }

  lemma {:induction false} MapHasLast(conds: seq<Condition>, n: nat, id: string)
    requires n <= |conds|
    ensures id in CondMap(conds, n) <==> exists k :: 0 <= k < n && conds[k].id == id
    ensures forall k :: 0 <= k < n && LastWithId(conds[..n], k, id) ==>
              id in CondMap(conds, n) && CondMap(conds, n)[id] == conds[k]
    decreases n
  {
    if n > 0 {
      MapHasLast(conds, n - 1, id);
      forall k | 0 <= k < n && LastWithId(conds[..n], k, id)
        ensures id in CondMap(conds, n) && CondMap(conds, n)[id] == conds[k]
      {
        if k < n - 1 {
          assert conds[..n][n - 1].id != id;
          assert forall j :: 0 <= j < n - 1 ==> conds[..n - 1][j] == conds[..n][j];
          assert LastWithId(conds[..n - 1], k, id);
        } else {
          assert conds[..n][k] == conds[k];
        }
      }
    }
  }

  lemma {:induction false} SomeLast(conds: seq<Condition>, n: nat, id: string) returns (k: nat)
    requires n <= |conds| && exists i :: 0 <= i < n && conds[i].id == id
    requires forall j :: n <= j < |conds| ==> conds[j].id != id
    ensures k < |conds| && LastWithId(conds, k, id)
    decreases n
  {
    if conds[n - 1].id == id {
      k := n - 1;
    } else {
      k := SomeLast(conds, n - 1, id);
    }
  }

  lemma LeafGood(conds: seq<Condition>, id: string)
    ensures LeafOk(LeafOf(CondMap(conds, |conds|)))(id) <==> GoodLeaf(conds, id)
  {
    hide ConditionToBashTest, OnWholeText, LastWithId;
    MapHasLast(conds, |conds|, id);
    assert conds[..|conds|] == conds;
    if id in CondMap(conds, |conds|) {
      var k := SomeLast(conds, |conds|, id);
      TranslatedExact(conds[k]);
      assert forall j :: 0 <= j < |conds| && LastWithId(conds, j, id) ==> conds[j] == conds[k];
    } else {
      NoLast(conds, id);
    }
  }

  lemma NoLast(conds: seq<Condition>, id: string)
    requires forall k :: 0 <= k < |conds| ==> conds[k].id != id
    ensures forall k :: 0 <= k < |conds| ==> !LastWithId(conds, k, id)
  {
  }

  lemma {:induction false} SameLeaves(t: Tree, p: string -> bool, q: string -> bool)
    requires forall id :: p(id) <==> q(id)
    ensures EveryLeaf(t, p) <==> EveryLeaf(t, q)
  {
    match t
    case Cond(id) =>
    case All(kids) => forall k | k in kids ensures EveryLeaf(k, p) <==> EveryLeaf(k, q) { SameLeaves(k, p, q); }
    case Any(kids) => forall k | k in kids ensures EveryLeaf(k, p) <==> EveryLeaf(k, q) { SameLeaves(k, p, q); }
    case Neg(kid) => SameLeaves(kid, p, q);
  }

  /** A script exists exactly for a tree all of whose IDs stand for conditions on the whole output as a text. */
  lemma ScriptExists(conds: seq<Condition>, raw: RawLogic)
    ensures CombineText(conds, raw).Ok? <==>
            TreeOf(conds, raw).Some? && EveryLeaf(TreeOf(conds, raw).value, GoodLeaves(conds))
  {
    AcceptedScripts(conds, raw);
    hide GoodLeaf, CombineText, CondMap, LeafOf;
    if TreeOf(conds, raw).Some? {
      forall id ensures LeafOk(LeafOf(CondMap(conds, |conds|)))(id) <==> GoodLeaves(conds)(id) {
        LeafGood(conds, id);
      }
      SameLeaves(TreeOf(conds, raw).value, LeafOk(LeafOf(CondMap(conds, |conds|))), GoodLeaves(conds));
    }
  }

  lemma SetupGrows(conds: seq<Condition>)
    ensures SetupText(conds, 0) == "set -o pipefail; "
    ensures forall i :: 0 <= i < |conds| ==>
              SetupText(conds, i + 1) == SetupText(conds, i) + ConditionSetupLine(conds[i]) + "; "
  {
    hide ConditionSetupLine;
  }

  method BuildBashCombine(conds: seq<Condition>, raw: RawLogic)
    returns (r: Result<string, ConvError>)
    ensures r == CombineText(conds, raw)
  {
    hide ConditionSetupLine, ConditionToBashTest, NodeToBash, Render, ReadTree, EveryLeaf, Script;
    var condMap: map<string, Condition> := map[];
    for i := 0 to |conds|
      invariant condMap == CondMap(conds, i)
    {
      condMap := condMap[conds[i].id := conds[i]];
    }
    hide CondMap, LeafOf, SetupText;
    var leaf := LeafOf(condMap);
    var logic: Result<string, ConvError>;
    if raw.Absent? {
      if |conds| != 1 {
        return Err(NoPassLogic(|conds|));
      }
      logic := leaf(conds[0].id);
    } else {
      logic := PassLogicToBash(raw, leaf);
    }
    if logic.Err? {
      return logic;
    }
    var sb := "set -o pipefail; ";
    SetupGrows(conds);
    for i := 0 to |conds|
      invariant sb == SetupText(conds, i)
    {
      sb := sb + ConditionSetupLine(conds[i]);
      sb := sb + "; ";
    }
    r := Ok(Script(sb, logic.value));
  }

  function WrapBash(script: string): string {
    "bash -c " + ShellSingleQuote(script)
  }

  // ---------------------------------------------------------------- one item

  /** audit is absent when the item has no audit_command object. */
  datatype Item = Item(id: string, audit: Option<Audit>)

  datatype Audit = Audit(conditions: seq<Condition>, passLogic: RawLogic)

  /** The part of a check that decides its verdict: what runs, and which text its output must
      contain. */
  datatype Check = Check(id: string, auditCommand: string, contains: string)

  datatype Degraded = NotDegraded | NoAuditCommand | TranslationFailed(e: ConvError)

  function ConvertItem(it: Item): (Check, Degraded) {
    if it.audit.None? || it.audit.value.conditions == [] then
      (Check(it.id, "true", DEGRADED_MARKER), NoAuditCommand)
    else match CombineText(it.audit.value.conditions, it.audit.value.passLogic)
      case Err(e) => (Check(it.id, "true", DEGRADED_MARKER), TranslationFailed(e))
      case Ok(script) => (Check(it.id, WrapBash(script), PASS_MARKER), NotDegraded)
  }

  /** An item with conditions is translated exactly when its tree is one over conditions on the whole output as
      a text; its command then wraps the script around the tree's text. Any other check looks for a text
      that no output has. */
  method ConvertROS2Item(it: Item) returns (check: Check, degraded: Degraded)
    ensures degraded.NoAuditCommand? <==> it.audit.None? || it.audit.value.conditions == []
    ensures degraded.NotDegraded? <==>
            && it.audit.Some? && it.audit.value.conditions != []
            && var conds := it.audit.value.conditions;
               var tree := TreeOf(conds, it.audit.value.passLogic);
               tree.Some? && EveryLeaf(tree.value, GoodLeaves(conds))
    ensures degraded.NotDegraded? ==>
              var conds := it.audit.value.conditions;
              var tree := TreeOf(conds, it.audit.value.passLogic).value;
              var logic := Render(tree, LeafText(LeafOf(CondMap(conds, |conds|))));
              check == Check(it.id, WrapBash(Script(SetupText(conds, |conds|), logic)), PASS_MARKER)
    ensures !degraded.NotDegraded? ==> check == Check(it.id, "true", DEGRADED_MARKER)
    ensures (check, degraded) == ConvertItem(it)
  {
    if it.audit.Some? {
      AcceptedScripts(it.audit.value.conditions, it.audit.value.passLogic);
      ScriptExists(it.audit.value.conditions, it.audit.value.passLogic);
    }
    hide GoodLeaf, EveryLeaf, Render, SetupText, WrapBash, TreeOf;
    if it.audit.None? || it.audit.value.conditions == [] {
      return Check(it.id, "true", DEGRADED_MARKER), NoAuditCommand;
    }
    var script := BuildBashCombine(it.audit.value.conditions, it.audit.value.passLogic);
    if script.Err? {
      return Check(it.id, "true", DEGRADED_MARKER), TranslationFailed(script.error);
    }
    return Check(it.id, WrapBash(script.value), PASS_MARKER), NotDegraded;
  }

  // ---------------------------------------------------------------- a document

  datatype Report = Report(total: nat, converted: nat, degraded: seq<(string, Degraded)>)

  datatype Ros2Error = NoItems | DuplicateCheckId(id: string)

  /** The items that become checks, in order: those with an ID. */
  function Kept(items: seq<Item>, n: nat): seq<Item>
    requires n <= |items|
  {
    if n == 0 then []
    else if items[n - 1].id == "" then Kept(items, n - 1)
    else Kept(items, n - 1) + [items[n - 1]]
  }

  /** The places of the items that become checks: in order, all those of items with an ID and no others. */
  lemma {:induction false} KeptPlaces(items: seq<Item>, n: nat) returns (places: seq<nat>)
    requires n <= |items|
    ensures Picks(items[..n], places, Kept(items, n))
    ensures forall k :: 0 <= k < n ==> (items[k].id != "" <==> k in places)
  {
    if n == 0 {
      places := [];
    } else {
      hide Picks;
      places := KeptPlaces(items, n - 1);
      PicksOn(items[..n - 1], items[n - 1], places, Kept(items, n - 1));
      PlaceAdded(places, n - 1);
      assert items[..n] == items[..n - 1] + [items[n - 1]];
      NotYet(items[..n - 1], places, Kept(items, n - 1));
      if items[n - 1].id != "" {
        places := places + [n - 1];
      }
    }
  }

  lemma NotYet(items: seq<Item>, places: seq<nat>, kept: seq<Item>)
    requires Picks(items, places, kept)
    ensures forall k :: k in places ==> k < |items|
  {
  }

  predicate DistinctIds(items: seq<Item>) {
    forall i, j :: 0 <= i < j < |items| ==> items[i].id != items[j].id
  }

  function ChecksOf(kept: seq<Item>): (checks: seq<Check>)
    ensures |checks| == |kept|
  {
    seq(|kept|, i requires 0 <= i < |kept| => ConvertItem(kept[i]).0)
  }

  /** The items that could not be translated, with their reasons, in order. */
  function DegradedOf(kept: seq<Item>): (d: seq<(string, Degraded)>)
    ensures |d| <= |kept|
  {
    if kept == [] then []
    else
      var it := kept[|kept| - 1];
      var reason := ConvertItem(it).1;
      DegradedOf(kept[..|kept| - 1]) + (if reason.NotDegraded? then [] else [(it.id, reason)])
  }

  /** The report counts every check once: translated or degraded. A document is refused exactly when it
      has no items or two kept items share an ID. */
  method ConvertROS2(items: seq<Item>)
    returns (r: Result<(seq<Check>, Report), Ros2Error>)
    ensures r == Err(NoItems) <==> items == []
    ensures r.Ok? <==> items != [] && DistinctIds(Kept(items, |items|))
    ensures r.Ok? ==>
              var kept := Kept(items, |items|);
              && r.value.0 == ChecksOf(kept)
              && r.value.1 == Report(|items|, |kept| - |DegradedOf(kept)|, DegradedOf(kept))
  {
    if items == [] {
      return Err(NoItems);
    }
    hide ConvertItem, DistinctIds, IdsOf;
    var checks: seq<Check> := [];
    var converted: nat := 0;
    var degraded: seq<(string, Degraded)> := [];
    var seen: set<string> := {};
    NoIds();
    for i := 0 to |items|
      invariant checks == ChecksOf(Kept(items, i))
      invariant converted == |checks| - |degraded| && degraded == DegradedOf(Kept(items, i))
      invariant seen == IdsOf(Kept(items, i)) && DistinctIds(Kept(items, i))
    {
      var it := items[i];
      if it.id == "" {
        continue;
      }
      ghost var kept := Kept(items, i);
      AddId(kept, it);
      if it.id in seen {
        DuplicateStays(items, i + 1, |items|);
        return Err(DuplicateCheckId(it.id));
      }
      seen := seen + {it.id};
      var check, reason := ConvertROS2Item(it);
      KeptGrows(kept, it);
      checks := checks + [check];
      if reason.NotDegraded? {
        converted := converted + 1;
      } else {
        degraded := degraded + [(it.id, reason)];
      }
    }
    r := Ok((checks, Report(|items|, converted, degraded)));
  }

  function IdsOf(kept: seq<Item>): set<string> {
    set it <- kept :: it.id
  }

  lemma NoIds()
    ensures IdsOf([]) == {} && DistinctIds([])
  {
  }

  lemma AddId(kept: seq<Item>, it: Item)
    requires DistinctIds(kept)
    ensures IdsOf(kept + [it]) == IdsOf(kept) + {it.id}
    ensures DistinctIds(kept + [it]) <==> it.id !in IdsOf(kept)
  {
    var more := kept + [it];
    assert forall x :: x in more <==> x in kept || x == it;
    if it.id in IdsOf(kept) {
      var k :| 0 <= k < |kept| && kept[k].id == it.id;
      assert more[k].id == more[|kept|].id;
    }
    if i, j :| 0 <= i < j < |more| && more[i].id == more[j].id {
      assert kept[i] in kept;
      assert j == |kept|;
    }
  }

  lemma {:induction false} DuplicateStays(items: seq<Item>, i: nat, n: nat)
    requires i <= n <= |items| && !DistinctIds(Kept(items, i))
    ensures !DistinctIds(Kept(items, n))
  {
    KeptPrefix(items, i, n);
    var j, k :| 0 <= j < k < |Kept(items, i)| && Kept(items, i)[j].id == Kept(items, i)[k].id;
    assert Kept(items, n)[j].id == Kept(items, n)[k].id;
  }

  lemma KeptGrows(kept: seq<Item>, it: Item)
    ensures ChecksOf(kept + [it]) == ChecksOf(kept) + [ConvertItem(it).0]
    ensures DegradedOf(kept + [it])
            == DegradedOf(kept) + (if ConvertItem(it).1.NotDegraded? then [] else [(it.id, ConvertItem(it).1)])
  {
    assert (kept + [it])[..|kept|] == kept;
  }

  lemma {:induction false} KeptPrefix(items: seq<Item>, i: nat, n: nat)
    requires i <= n <= |items|
    ensures Kept(items, i) <= Kept(items, n)
    decreases n
  {
    if i < n {
      KeptPrefix(items, i, n - 1);
    }
  }
}
