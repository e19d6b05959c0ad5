/** Small types and text functions shared by the models of the converter, the verifier and the server. */
module Common {

  datatype Option<+T> = None | Some(value: T)

  datatype Result<+T, +E> = Ok(value: T) | Err(error: E)

  /** The text contains pat as a contiguous piece (strings.Contains, and fixed-string search). */
  predicate Contains(text: string, pat: string) {
    exists i | 0 <= i <= |text| - |pat| :: OccursAt(text, pat, i)
  }

  predicate OccursAt(text: string, pat: string, i: nat)
    requires i <= |text| - |pat|
  {
    text[i..i + |pat|] == pat
  }

  predicate StartsWith<T(==)>(s: seq<T>, prefix: seq<T>) {
    |prefix| <= |s| && s[..|prefix|] == prefix
  }

  predicate EndsWith<T(==)>(s: seq<T>, suffix: seq<T>) {
    |suffix| <= |s| && s[|s| - |suffix|..] == suffix
  }

  function FoldChar(c: char): char {
    if 'A' <= c <= 'Z' then c - 'A' + 'a' else c
  }

  /** strings.Join. */
  function Join(parts: seq<string>, sep: string): string {
    if parts == [] then ""
    else if |parts| == 1 then parts[0]
    else parts[0] + sep + Join(parts[1..], sep)
  }

  /** strings.Split on a one-character separator: always at least one piece. */
  function Split(s: string, sep: char): (pieces: seq<string>)
    ensures |pieces| >= 1
  {
    if s == "" then [""]
    else
      var rest := Split(s[1..], sep);
      if s[0] == sep then [""] + rest
      else [[s[0]] + rest[0]] + rest[1..]
  }

  lemma {:induction false} SplitPiecesFree(s: string, sep: char)
    ensures forall p :: p in Split(s, sep) ==> sep !in p
  {
    if s != "" {
      SplitPiecesFree(s[1..], sep);
      var rest := Split(s[1..], sep);
      assert forall p :: p in rest[1..] ==> p in rest;
      assert rest[0] in rest;
    }
  }

  /** Text without the separator is its own only piece. */
  lemma {:induction false} SplitAtom(s: string, sep: char)
    requires sep !in s
    ensures Split(s, sep) == [s]
  {
    if s != "" {
      SplitAtom(s[1..], sep);
      assert [s[0]] + s[1..] == s;
    }
  }

  /** Cutting at one separator cuts the list of pieces. */
  lemma {:induction false} SplitConcat(a: string, sep: char, b: string)
    requires sep !in a
    ensures Split(a + [sep] + b, sep) == [a] + Split(b, sep)
  {
    var s := a + [sep] + b;
    if a == "" {
      assert s[1..] == b;
    } else {
      SplitConcat(a[1..], sep, b);
      assert s[1..] == a[1..] + [sep] + b;
      assert [a[0]] + a[1..] == a;
    }
  }

  /** Joining at a character that no piece has, and cutting there, gives the pieces back. */
  lemma {:induction false} SplitJoin(pieces: seq<string>, sep: char)
    requires pieces != [] && forall p :: p in pieces ==> sep !in p
    ensures Split(Join(pieces, [sep]), sep) == pieces
  {
    assert pieces[0] in pieces;
    if |pieces| == 1 {
      SplitAtom(pieces[0], sep);
    } else {
      SplitJoin(pieces[1..], sep);
      SplitConcat(pieces[0], sep, Join(pieces[1..], [sep]));
    }
  }

  // ---------------------------------------------------------------- places

  /** The values at these places, in order. */
  predicate Picks<T(==)>(all: seq<T>, places: seq<nat>, picked: seq<T>) {
    && |places| == |picked|
    && (forall i, j :: 0 <= i < j < |places| ==> places[i] < places[j])
    && forall i :: 0 <= i < |places| ==> places[i] < |all| && picked[i] == all[places[i]]
  }

  /** One more value at the end may be left out or picked. */
  lemma PicksOn<T>(all: seq<T>, x: T, places: seq<nat>, picked: seq<T>)
    requires Picks(all, places, picked)
    ensures Picks(all + [x], places, picked) && Picks(all + [x], places + [|all|], picked + [x])
  {
  }

  lemma PlaceAdded(places: seq<nat>, n: nat)
    ensures forall k :: k in places + [n] <==> k in places || k == n
  {
  }
}
