/** Searching a text line by line, as grep does, and searching it whole. */
module TextSearch {
  import opened Common
  import opened Shell

  lemma ContainsWithin(a: string, t: string, b: string, pat: string)
    requires Contains(t, pat)
    ensures Contains(a + t + b, pat)
  {
    var i :| 0 <= i <= |t| - |pat| && OccursAt(t, pat, i);
    var s := a + t + b;
    assert s[|a|..|a| + |t|] == t;
    assert s[|a| + i..|a| + i + |pat|] == s[|a|..|a| + |t|][i..i + |pat|];
    assert OccursAt(s, pat, |a| + i);
  }

  lemma Straddles(s: string, pat: string, i: nat, m: nat)
    requires i <= |s| - |pat| && OccursAt(s, pat, i)
    ensures i <= m < i + |pat| ==> s[m] in pat
  {
    if i <= m < i + |pat| {
      assert s[i..i + |pat|][m - i] == s[m];
    }
  }

  /** An occurrence that does not run over a place lies on one side of it. */
  lemma OneSide(a: string, c: char, b: string, pat: string, i: nat)
    requires i <= |a| + 1 + |b| - |pat| && OccursAt(a + [c] + b, pat, i) && !(i <= |a| < i + |pat|)
    ensures Contains(a, pat) || Contains(b, pat)
  {
    var s := a + [c] + b;
    assert s[..|a|] == a && s[|a| + 1..] == b;
    if i + |pat| <= |a| {
      assert s[..|a|][i..i + |pat|] == s[i..i + |pat|];
      assert OccursAt(a, pat, i);
    } else {
      var j := i - |a| - 1;
      assert s[|a| + 1..][j..j + |pat|] == s[i..i + |pat|];
      assert OccursAt(b, pat, j);
    }
  }

  lemma ContainsAcross(a: string, sep: char, b: string, pat: string)
    requires pat != "" && sep !in pat
    ensures Contains(a + [sep] + b, pat) <==> Contains(a, pat) || Contains(b, pat)
  {
    var s := a + [sep] + b;
    if Contains(a, pat) {
      ContainsWithin("", a, [sep] + b, pat);
      assert "" + a + ([sep] + b) == s;
    }
    if Contains(b, pat) {
      ContainsWithin(a + [sep], b, "", pat);
      assert a + [sep] + b + "" == s;
    }
    if i :| 0 <= i <= |s| - |pat| && OccursAt(s, pat, i) {
      assert s[|a|] == sep;
      Straddles(s, pat, i, |a|);
      OneSide(a, sep, b, pat, i);
    }
  }

  /** Searching line by line finds what searching the whole text finds, when the pattern is a non-empty
      piece of one line. */
  lemma {:induction false} LineSearch(s: string, sep: char, pat: string)
    requires pat != "" && sep !in pat
    ensures Contains(s, pat) <==> exists p :: p in Split(s, sep) && Contains(p, pat)
    decreases |s|
  {
    if sep !in s {
      SplitAtom(s, sep);
      assert s in Split(s, sep);
    } else {
      var k := FirstIndex(s, sep);
      var a, b := s[..k], s[k + 1..];
      assert s == a + [sep] + b;
      SplitConcat(a, sep, b);
      ContainsAcross(a, sep, b, pat);
      LineSearch(b, sep, pat);
      var ps := [a] + Split(b, sep);
      assert ps[0] == a;
      assert forall p :: p in ps <==> p == a || p in Split(b, sep);
    }
  }

  function FirstIndex(s: string, c: char): (k: nat)
    requires c in s
    ensures k < |s| && s[k] == c && c !in s[..k]
  {
    if s[0] == c then 0 else 1 + FirstIndex(s[1..], c)
  }

  predicate Stripped(out: string) {
    out == "" || out[|out| - 1] != '\n'
  }

  lemma {:induction false} StripStrips(s: string)
    ensures Stripped(StripNewlines(s))
    decreases |s|
  {
    if s != "" && s[|s| - 1] == '\n' {
      StripStrips(s[..|s| - 1]);
    }
  }

  lemma FixedSearchMeaning(pat: string, out: string)
    requires pat != "" && '\n' !in pat && Stripped(out)
    ensures FixedMatch(pat, out) <==> Contains(out, pat)
  {
    SplitAtom(pat, '\n');
    if out != "" {
      LineSearch(out, '\n', pat);
      assert pat in Split(pat, '\n');
    }
  }

  /** An output on which they differ: no output at all for an empty pattern, and for a pattern of
      several lines an output that matches its first line. */
  lemma SearchWitness(pat: string) returns (out: string)
    requires pat == "" || '\n' in pat
    ensures Stripped(out) && !(FixedMatch(pat, out) <==> Contains(out, pat))
  {
    if pat == "" {
      out := "";
      assert OccursAt("", "", 0);
    } else {
      var k := FirstIndex(pat, '\n');
      assert pat == pat[..k] + ['\n'] + pat[k + 1..];
      SplitConcat(pat[..k], '\n', pat[k + 1..]);
      assert Split(pat, '\n')[0] == pat[..k];
      assert pat[..k] in Split(pat, '\n');
      out := if k == 0 then "x" else pat[..k];
      SplitAtom(out, '\n');
      assert out in Lines(out);
      assert OccursAt(out, pat[..k], 0);
      forall i | 0 <= i <= |out| - |pat| ensures !OccursAt(out, pat, i) {
        assert out[i..i + |pat|] == out;
        assert '\n' !in out;
      }
    }
  }

  // ---------------------------------------------------------------- lines

  /** Cutting at a separator cuts the list of pieces, whatever stands before it. */
  lemma {:induction false} SplitAcross(a: string, sep: char, b: string)
    ensures Split(a + [sep] + b, sep) == Split(a, sep) + Split(b, sep)
    decreases |a|
  {
    hide Split;
    if sep !in a {
      SplitAtom(a, sep);
      SplitConcat(a, sep, b);
    } else {
      var k := FirstIndex(a, sep);
      var front, rest := a[..k], a[k + 1..];
      assert a == front + [sep] + rest;
      SplitAcross(rest, sep, b);
      SplitConcat(front, sep, rest);
      SplitConcat(front, sep, rest + [sep] + b);
      assert a + [sep] + b == front + [sep] + (rest + [sep] + b);
    }
  }

  /** The lines but the last, which no newline ends. */
  function EarlierLines(text: string): (ls: seq<string>)
    ensures |ls| == |Split(text, '\n')| - 1
  {
    Split(text, '\n')[..|Split(text, '\n')| - 1]
  }

  /** The whole lines of a proper front of a text are among its earlier lines. */
  lemma FrontLines(text: string, k: nat)
    requires k <= |text|
    ensures forall line :: line in Lines(WholeLines(text[..k])) ==> line in EarlierLines(text)
  {
    var front := WholeLines(text[..k]);
    if front != "" {
      var q, rest := front[..|front| - 1], text[|front|..];
      assert text[..|front|] == front;
      assert text == q + ['\n'] + rest;
      SplitAcross(q, '\n', rest);
      var qs, rs := Split(q, '\n'), Split(rest, '\n');
      assert forall i :: 0 <= i < |qs| ==> EarlierLines(text)[i] == qs[i];
    }
  }

  /** In front of its last character a text that does not end in a newline has all its earlier lines. */
  lemma AllEarlierLines(text: string)
    requires Stripped(text) && text != ""
    ensures forall line :: line in EarlierLines(text) ==> line in Lines(WholeLines(text[..|text| - 1]))
  {
    var most := text[..|text| - 1];
    var front := WholeLines(most);
    var rest := text[|front|..];
    assert rest == most[|front|..] + [text[|text| - 1]];
    SplitAtom(rest, '\n');
    if front == "" {
      assert rest == text;
    } else {
      var q := front[..|front| - 1];
      assert text == q + ['\n'] + rest;
      SplitAcross(q, '\n', rest);
      assert Split(text, '\n') == Split(q, '\n') + [rest];
      assert EarlierLines(text) == Split(q, '\n');
    }
  }
}
