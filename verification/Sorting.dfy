/** Sorted lists over an order given as a function: what a library sort leaves when it is correct, with
    and without removing repeats, and why there is only one such list. */
module Sorting {

  ghost predicate Preorder<T(!new)>(le: (T, T) -> bool) {
    && (forall a, b :: le(a, b) || le(b, a))
    && (forall a, b, c :: le(a, b) && le(b, c) ==> le(a, c))
  }

  /** Any two different values stand one way round only. */
  ghost predicate TotalOrder<T(!new)>(le: (T, T) -> bool) {
    Preorder(le) && forall a, b :: le(a, b) && le(b, a) ==> a == b
  }

  predicate Sorted<T>(s: seq<T>, le: (T, T) -> bool) {
    forall i, j :: 0 <= i < j < |s| ==> le(s[i], s[j])
  }

  predicate Distinct<T(==)>(s: seq<T>) {
    forall i, j :: 0 <= i < j < |s| ==> s[i] != s[j]
  }

  function Elements<T>(s: seq<T>): set<T> {
    set x | x in s
  }

  /** Sorting that keeps repeats (sort.Strings). */
  function Sort<T>(s: seq<T>, le: (T, T) -> bool): (r: seq<T>)
    ensures multiset(r) == multiset(s)
  {
    if s == [] then [] else
      assert s == [s[0]] + s[1..];
      Insert(s[0], Sort(s[1..], le), le)
  }

  function Insert<T>(x: T, s: seq<T>, le: (T, T) -> bool): (r: seq<T>)
    ensures multiset(r) == multiset{x} + multiset(s)
  {
    if s == [] || le(x, s[0]) then [x] + s
    else
      assert s == [s[0]] + s[1..];
      [s[0]] + Insert(x, s[1..], le)
  }

  /** Sorting that keeps one of each (sort -u). */
  function SortUnique<T(==)>(s: seq<T>, le: (T, T) -> bool): seq<T> {
    if s == [] then []
    else
      var rest := SortUnique(s[1..], le);
      if s[0] in rest then rest else Insert(s[0], rest, le)
  }

  lemma MultisetMember<T>(s: seq<T>, t: seq<T>)
    requires multiset(s) == multiset(t)
    ensures |s| == |t| && Elements(s) == Elements(t)
  {
    forall x ensures x in s <==> x in t {
      assert x in multiset(s) <==> x in multiset(t);
    }
    assert |s| == |multiset(s)| && |t| == |multiset(t)|;
  }

  lemma {:induction false} InsertSorted<T(!new)>(x: T, s: seq<T>, le: (T, T) -> bool)
    requires Preorder(le) && Sorted(s, le)
    ensures Sorted(Insert(x, s, le), le)
  {
    if s != [] && !le(x, s[0]) {
      InsertSorted(x, s[1..], le);
      var rest := Insert(x, s[1..], le);
      forall j | 0 <= j < |rest| ensures le(s[0], rest[j]) {
        assert rest[j] in multiset(rest);
        assert rest[j] == x || rest[j] in s[1..];
      }
    }
  }

  lemma {:induction false} SortSorted<T(!new)>(s: seq<T>, le: (T, T) -> bool)
    requires Preorder(le)
    ensures Sorted(Sort(s, le), le)
  {
    if s != [] {
      SortSorted(s[1..], le);
      InsertSorted(s[0], Sort(s[1..], le), le);
    }
  }

  lemma InsertDistinct<T(!new)>(x: T, s: seq<T>, le: (T, T) -> bool)
    requires x !in s && Distinct(s)
    ensures Distinct(Insert(x, s, le))
  {
    DistinctIsOnce([x] + s);
    DistinctIsOnce(Insert(x, s, le));
    assert multiset([x] + s) == multiset{x} + multiset(s);
  }

  /** Without repeats every value counts once. */
  lemma {:induction false} DistinctIsOnce<T(!new)>(s: seq<T>)
    ensures Distinct(s) <==> forall x :: multiset(s)[x] <= 1
  {
    if s != [] {
      DistinctIsOnce(s[1..]);
      assert s == [s[0]] + s[1..];
      assert multiset(s) == multiset{s[0]} + multiset(s[1..]);
      if Distinct(s) {
        assert Distinct(s[1..]);
        assert s[0] !in s[1..];
        forall x ensures multiset(s)[x] <= 1 {
          assert multiset(s[1..])[x] <= 1;
        }
      }
      if forall x :: multiset(s)[x] <= 1 {
        forall x ensures multiset(s[1..])[x] <= 1 {
          assert multiset(s)[x] <= 1;
        }
        assert multiset(s)[s[0]] <= 1;
        assert s[0] !in s[1..];
        forall i, j | 0 <= i < j < |s| ensures s[i] != s[j] {
          assert s[j] == s[1..][j - 1];
          if i > 0 { assert s[i] == s[1..][i - 1]; }
        }
      }
    }
  }

  lemma {:induction false} SortUniqueSorted<T(!new)>(s: seq<T>, le: (T, T) -> bool)
    requires TotalOrder(le)
    ensures var r := SortUnique(s, le); Sorted(r, le) && Distinct(r) && Elements(r) == Elements(s)
  {
    if s != [] {
      var rest := SortUnique(s[1..], le);
      SortUniqueSorted(s[1..], le);
      assert Elements(s) == {s[0]} + Elements(s[1..]);
      if s[0] in rest {
        assert s[0] in Elements(rest);
      } else {
        InsertSorted(s[0], rest, le);
        InsertDistinct(s[0], rest, le);
        assert multiset([s[0]] + rest) == multiset{s[0]} + multiset(rest);
        MultisetMember(Insert(s[0], rest, le), [s[0]] + rest);
        assert Elements([s[0]] + rest) == {s[0]} + Elements(rest);
      }
    }
  }

  /** Without repeats there are as many values as places. */
  lemma {:induction false} DistinctCount<T(!new)>(s: seq<T>)
    requires Distinct(s)
    ensures |Elements(s)| == |s|
  {
    if s == [] {
      assert Elements(s) == {};
    } else {
      DistinctCount(s[1..]);
      assert Elements(s) == Elements(s[1..]) + {s[0]};
    }
  }

  /** There is one sorted list of given contents. */
  lemma {:induction false} SortedOnce<T(!new)>(s: seq<T>, t: seq<T>, le: (T, T) -> bool)
    requires TotalOrder(le) && Sorted(s, le) && Sorted(t, le) && multiset(s) == multiset(t)
    ensures s == t
  {
    MultisetMember(s, t);
    hide TotalOrder, Elements;
    if s != [] {
      SameHead(s, t, le);
      SameTail(s, t);
      SortedTail(s, le);
      SortedTail(t, le);
      SortedOnce(s[1..], t[1..], le);
      assert s == [s[0]] + s[1..] && t == [t[0]] + t[1..];
    }
  }

  /** The least value comes first. */
  lemma SameHead<T(!new)>(s: seq<T>, t: seq<T>, le: (T, T) -> bool)
    requires TotalOrder(le) && Sorted(s, le) && Sorted(t, le) && multiset(s) == multiset(t) && s != [] && t != []
    ensures s[0] == t[0]
  {
    assert s[0] in multiset(t) && t[0] in multiset(s);
    var i :| 0 <= i < |t| && t[i] == s[0];
    var j :| 0 <= j < |s| && s[j] == t[0];
    assert i == 0 || le(t[0], t[i]);
    assert j == 0 || le(s[0], s[j]);
  }

  lemma SameTail<T>(s: seq<T>, t: seq<T>)
    requires multiset(s) == multiset(t) && s != [] && t != [] && s[0] == t[0]
    ensures multiset(s[1..]) == multiset(t[1..])
  {
    assert s == [s[0]] + s[1..] && t == [t[0]] + t[1..];
    assert multiset(s[1..]) == multiset(s) - multiset{s[0]};
    assert multiset(t[1..]) == multiset(t) - multiset{t[0]};
  }

  lemma SortedTail<T(!new)>(s: seq<T>, le: (T, T) -> bool)
    requires Sorted(s, le) && s != []
    ensures Sorted(s[1..], le)
  {
  }

  lemma DistinctSame<T(!new)>(s: seq<T>, t: seq<T>)
    requires Distinct(s) && Distinct(t) && Elements(s) == Elements(t)
    ensures multiset(s) == multiset(t)
  {
    DistinctIsOnce(s);
    DistinctIsOnce(t);
    forall x ensures multiset(s)[x] == multiset(t)[x] {
      assert x in Elements(s) <==> x in multiset(s);
      assert x in Elements(t) <==> x in multiset(t);
    }
  }

  /** Two lists sort alike exactly when each is a rearrangement of the other. */
  lemma SortsAlike<T(!new)>(s: seq<T>, t: seq<T>, le: (T, T) -> bool)
    requires TotalOrder(le)
    ensures Sort(s, le) == Sort(t, le) <==> multiset(s) == multiset(t)
  {
    SortSorted(s, le);
    SortSorted(t, le);
    if multiset(s) == multiset(t) {
      SortedOnce(Sort(s, le), Sort(t, le), le);
    }
  }

  /** A list is its own sorted form exactly when it is sorted. */
  lemma SortFixed<T(!new)>(s: seq<T>, le: (T, T) -> bool)
    requires TotalOrder(le)
    ensures Sort(s, le) == s <==> Sorted(s, le)
  {
    SortSorted(s, le);
    if Sorted(s, le) {
      SortedOnce(s, Sort(s, le), le);
    }
  }

  /** Sorting with repeats under one order and without repeats under another agree exactly when the first
      list has no repeats, the contents are the same, and the first result is in the second order. */
  lemma SortsAgree<T(!new)>(s: seq<T>, t: seq<T>, le: (T, T) -> bool, host: (T, T) -> bool)
    requires TotalOrder(le) && TotalOrder(host)
    ensures Sort(s, le) == SortUnique(t, host) <==>
            Distinct(s) && Elements(s) == Elements(t) && Sorted(Sort(s, le), host)
  {
    var a, b := Sort(s, le), SortUnique(t, host);
    SortUniqueSorted(t, host);
    MultisetMember(a, s);
    DistinctIsOnce(a);
    DistinctIsOnce(s);
    if Distinct(s) && Elements(s) == Elements(t) && Sorted(a, host) {
      DistinctSame(a, b);
      SortedOnce(a, b, host);
    }
  }

  // ---------------------------------------------------------------- text

  /** Go's order on strings: byte by byte, a prefix first. */
  predicate TextLe(a: string, b: string) {
    a == "" || (b != "" && (a[0] < b[0] || (a[0] == b[0] && TextLe(a[1..], b[1..]))))
  }

  lemma {:induction false} TextLeTotal(a: string, b: string)
    ensures TextLe(a, b) || TextLe(b, a)
    ensures TextLe(a, b) && TextLe(b, a) ==> a == b
  {
    if a != "" && b != "" && a[0] == b[0] {
      TextLeTotal(a[1..], b[1..]);
      assert a == [a[0]] + a[1..] && b == [b[0]] + b[1..];
    }
  }

  lemma {:induction false} TextLeTrans(a: string, b: string, c: string)
    requires TextLe(a, b) && TextLe(b, c)
    ensures TextLe(a, c)
  {
    if a != "" && a[0] == b[0] && b[0] == c[0] {
      TextLeTrans(a[1..], b[1..], c[1..]);
    }
  }

  /** The order of a dictionary whose alphabet is the characters' numbers: b goes on where a ends, or the first
      character in which they differ is the smaller one in a. */
  ghost predicate Before(a: string, b: string) {
    || (|a| <= |b| && forall i :: 0 <= i < |a| ==> a[i] == b[i])
    || exists k :: DiffersFirst(a, b, k) && a[k] < b[k]
  }

  predicate DiffersFirst(a: string, b: string, k: int) {
    0 <= k < |a| && k < |b| && a[k] != b[k] && forall i :: 0 <= i < k ==> a[i] == b[i]
  }

  lemma {:induction false} TextLeMeans(a: string, b: string)
    ensures TextLe(a, b) <==> Before(a, b)
  {
    if a != "" && b != "" {
      if a[0] == b[0] {
        TextLeMeans(a[1..], b[1..]);
        BeforeTail(a, b);
      } else {
        assert DiffersFirst(a, b, 0);
        assert forall k :: DiffersFirst(a, b, k) ==> k == 0;
      }
    }
  }

  lemma BeforeTail(a: string, b: string)
    requires a != "" && b != "" && a[0] == b[0]
    ensures Before(a, b) <==> Before(a[1..], b[1..])
  {
    forall k | DiffersFirst(a, b, k) ensures DiffersFirst(a[1..], b[1..], k - 1) {
      assert forall i :: 0 <= i < k - 1 ==> a[1..][i] == a[i + 1] && b[1..][i] == b[i + 1];
    }
    forall k | DiffersFirst(a[1..], b[1..], k) ensures DiffersFirst(a, b, k + 1) {
      assert forall i :: 1 <= i < k + 1 ==> a[i] == a[1..][i - 1] && b[i] == b[1..][i - 1];
    }
    assert (forall i :: 0 <= i < |a| && |a| <= |b| ==> a[i] == b[i]) ==>
             forall i :: 0 <= i < |a[1..]| && |a| <= |b| ==> a[1..][i] == b[1..][i];
    assert (forall i :: 0 <= i < |a[1..]| && |a| <= |b| ==> a[1..][i] == b[1..][i]) ==>
             forall i :: 1 <= i < |a| && |a| <= |b| ==> a[i] == a[1..][i - 1] && b[i] == b[1..][i - 1];
  }

  /** A list sorted by TextLe, in the words of the dictionary: each value, and where the list has no repeats each
      other value, stands before the next one. */
  lemma SortedMeans(s: seq<string>)
    ensures Sorted(s, TextLe) <==> forall i :: 0 <= i < |s| - 1 ==> Before(s[i], s[i + 1])
  {
    forall i | 0 <= i < |s| - 1 ensures TextLe(s[i], s[i + 1]) <==> Before(s[i], s[i + 1]) {
      TextLeMeans(s[i], s[i + 1]);
    }
    TextOrder();
    hide TextLe, Before;
    if forall i :: 0 <= i < |s| - 1 ==> TextLe(s[i], s[i + 1]) {
      forall i, j | 0 <= i < j < |s| ensures TextLe(s[i], s[j]) {
        StepsReach(s, i, j);
      }
    }
  }

  lemma {:induction false} StepsReach(s: seq<string>, i: nat, j: nat)
    requires i < j < |s| && forall k :: 0 <= k < |s| - 1 ==> TextLe(s[k], s[k + 1])
    ensures TextLe(s[i], s[j])
    decreases j - i
  {
    assert TextLe(s[j - 1], s[j - 1 + 1]);
    if i + 1 < j {
      StepsReach(s, i, j - 1);
      TextLeTrans(s[i], s[j - 1], s[j]);
    }
  }

  lemma TextOrder()
    ensures TotalOrder(TextLe)
  {
    forall a, b ensures (TextLe(a, b) || TextLe(b, a)) && (TextLe(a, b) && TextLe(b, a) ==> a == b) {
      TextLeTotal(a, b);
    }
    forall a, b, c | TextLe(a, b) && TextLe(b, c) ensures TextLe(a, c) {
      TextLeTrans(a, b, c);
    }
  }
}
