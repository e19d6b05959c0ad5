/**
 cmd/pack-tools/converter/condition.go: one ROS2 condition becomes one shell test, and the line
 that runs its command beforehand.
 */
module Conditions {
  import opened Common

  /** The expected value is the text that %v prints for it, and "" for null. */
  datatype Condition = Condition(
    id: string,
    command: string,
    extractPattern: string,
    valueType: string,
    operator: string,
    expected: string)

  datatype Reason = ExtractPattern | NumericOp | NumberValue | UnknownOperator(operator: string)

  datatype ConvError =
    | InvalidShape
    | UnknownOp(op: string)
    | EmptyArgs
    | InvalidNotArgs
    | UnknownCondition(id: string)
    | Untranslatable(id: string, reason: Reason)
    | NoPassLogic(conditions: nat)

  /** unicode.ToLower as far as it can reach the letters of the operator names: besides A to Z, only
      U+0130 and U+212A have a lower case among them. */
  function LowerChar(c: char): char {
    if 'A' <= c <= 'Z' then c - 'A' + 'a'
    else if c == '\U{0130}' then 'i'
    else if c == '\U{212A}' then 'k'
    else c
  }

  function ToLower(s: string): (r: string)
    ensures |r| == |s|
  {
    seq(|s|, i requires 0 <= i < |s| => LowerChar(s[i]))
  }

  /** Capital letters and small ones are alike. */
  lemma OperatorCase(s: string, t: string)
    requires |s| == |t| && forall i :: 0 <= i < |s| ==> FoldChar(s[i]) == FoldChar(t[i])
    ensures ToLower(s) == ToLower(t)
  {
  }

  function OutVar(id: string): string {
    id + "_OUT"
  }

  function VarRef(id: string): string {
    "\"$" + OutVar(id) + "\""
  }

  /** strings.ReplaceAll(s, "'", `'\''`). */
  function EscapeQuotes(s: string): string {
    if s == "" then ""
    else (if s[0] == '\'' then "'\\''" else [s[0]]) + EscapeQuotes(s[1..])
  }

  function ShellSingleQuote(s: string): string {
    "'" + EscapeQuotes(s) + "'"
  }

  function ConditionToBashTest(c: Condition): Result<string, ConvError> {
    if c.extractPattern != "" then Err(Untranslatable(c.id, ExtractPattern))
    else if c.valueType == "number" then Err(Untranslatable(c.id, NumberValue))
    else
      var op := ToLower(c.operator);
      if op == "empty" then Ok("[ -z " + VarRef(c.id) + " ]")
      else if op == "not_empty" then Ok("[ -n " + VarRef(c.id) + " ]")
      else if op == "equals" then
        Ok("[ " + VarRef(c.id) + " = " + ShellSingleQuote(c.expected) + " ]")
      else if op == "not_equals" then
        Ok("[ " + VarRef(c.id) + " != " + ShellSingleQuote(c.expected) + " ]")
      else if op == "contains" then
        Ok("printf '%s' " + VarRef(c.id) + " | grep -qF " + ShellSingleQuote(c.expected))
      else if op == "regex" then
        Ok("printf '%s' " + VarRef(c.id) + " | grep -qE " + ShellSingleQuote(c.expected))
      else if op == "gt" || op == "gte" || op == "lt" || op == "lte" then
        Err(Untranslatable(c.id, NumericOp))
      else Err(Untranslatable(c.id, UnknownOperator(c.operator)))
  }

  /** The operators that a test on the whole output can express, and those that compare numbers. */
  const TEXT_OPERATORS := {"empty", "not_empty", "equals", "not_equals", "contains", "regex"}
  const NUMBER_OPERATORS := {"gt", "gte", "lt", "lte"}

  /** A condition on the whole output as a text. */
  predicate OnWholeText(c: Condition) {
    c.extractPattern == "" && c.valueType != "number" && ToLower(c.operator) in TEXT_OPERATORS
  }

  /** These conditions, and no others, have a test; the reason given for any other one is the first that
      applies. */
  lemma TranslatedExact(c: Condition)
    ensures ConditionToBashTest(c).Ok? <==> OnWholeText(c)
    ensures !OnWholeText(c) ==>
              ConditionToBashTest(c) == Err(Untranslatable(c.id,
                if c.extractPattern != "" then ExtractPattern
                else if c.valueType == "number" then NumberValue
                else if ToLower(c.operator) in NUMBER_OPERATORS then NumericOp
                else UnknownOperator(c.operator)))
  {
    hide ToLower;
  }

  function ConditionSetupLine(c: Condition): string {
    OutVar(c.id) + "=\"$(" + c.command + " 2>&1)\""
  }
}
