/** A text for every document, no two alike. It stands in for JSON where a lemma shows that what is asked of the
    libraries can be had, all of it at once. */
module Library {
  import opened Common
  import opened Bytes
  import opened Audit

  // ---------------------------------------------------------------- a text for every document

  function NatText(n: nat): (t: Data)
    ensures NEWLINE !in t
  {
    if n == 0 then [0] else [1] + NatText(n - 1)
  }

  function StringText(s: string): (t: Data)
    ensures NEWLINE !in t
  {
    if s == "" then [0] else [1] + (NatText(s[0] as int) + StringText(s[1..]))
  }

  function Tag(v: Value): byte {
    match v
    case Text(_) => 0
    case Number(n) => if n >= 0 then 1 else 2
    case Object(_) => 3
  }

  function ValueText(v: Value): (t: Data)
    ensures NEWLINE !in t
    decreases v
  {
    [Tag(v)] + match v
      case Text(s) => StringText(s)
      case Number(n) => NatText(if n >= 0 then n else -n)
      case Object(fields) => DocText(fields)
  }

  function DocText(d: Doc): (t: Data)
    ensures t != [] && NEWLINE !in t
    decreases d
  {
    if d == [] then [0] else [1] + (StringText(d[0].key) + (ValueText(d[0].value) + DocText(d[1..])))
  }

  lemma {:induction false} NatTells(m: nat, n: nat, x: Data, y: Data)
    requires NatText(m) + x == NatText(n) + y
    ensures m == n && x == y
  {
    var a, b := NatText(m) + x, NatText(n) + y;
    assert a[0] == b[0];
    if m == 0 || n == 0 {
      assert m == 0 && n == 0;
      assert a[1..] == x && b[1..] == y;
    } else {
      assert a[1..] == NatText(m - 1) + x && b[1..] == NatText(n - 1) + y;
      NatTells(m - 1, n - 1, x, y);
    }
  }

  lemma StringTextIs(s: string, x: Data)
    ensures var a := StringText(s) + x;
            if s == "" then a[0] == 0 && a[1..] == x
            else a[0] == 1 && a[1..] == NatText(s[0] as int) + (StringText(s[1..]) + x)
  {
    if s != "" {
      var a, b := NatText(s[0] as int), StringText(s[1..]);
      assert StringText(s) == [1] + (a + b);
      hide NatText, StringText;
      OneInFront(a, b, x);
    }
  }

  lemma OneInFront(a: Data, b: Data, x: Data)
    ensures var t: Data := [1] + (a + b) + x; t[0] == 1 && t[1..] == a + (b + x)
  {
    var t: Data := [1] + (a + b) + x;
    assert t == [1] + (a + (b + x));
  }

  lemma {:induction false} StringTells(s: string, t: string, x: Data, y: Data)
    requires StringText(s) + x == StringText(t) + y
    ensures s == t && x == y
  {
    StringTextIs(s, x);
    StringTextIs(t, y);
    var a, b := StringText(s) + x, StringText(t) + y;
    assert a[0] == b[0];
    hide StringText, NatText;
    if s != "" {
      NatTells(s[0] as int, t[0] as int, StringText(s[1..]) + x, StringText(t[1..]) + y);
      StringTells(s[1..], t[1..], x, y);
      assert s == [s[0]] + s[1..] && t == [t[0]] + t[1..];
    }
  }

  lemma SameFront(h: byte, a: Data, x: Data, g: byte, b: Data, y: Data)
    requires [h] + a + x == [g] + b + y
    ensures h == g && a + x == b + y
  {
    assert ([h] + a + x)[0] == h && ([g] + b + y)[0] == g;
    assert ([h] + a + x)[1..] == a + x && ([g] + b + y)[1..] == b + y;
  }

  lemma {:induction false} ValueTells(v: Value, u: Value, x: Data, y: Data)
    requires ValueText(v) + x == ValueText(u) + y
    ensures v == u && x == y
    decreases v
  {
    hide NatText, StringText, DocText;
    SameFront(Tag(v), ValueText(v)[1..], x, Tag(u), ValueText(u)[1..], y);
    match v
    case Text(s) => StringTells(s, u.s, x, y);
    case Number(n) => NatTells(if n >= 0 then n else -n, if n >= 0 then u.n else -u.n, x, y);
    case Object(fields) => DocTells(fields, u.fields, x, y);
  }

  function DocTag(d: Doc): byte {
    if d == [] then 0 else 1
  }

  function FieldsText(d: Doc): Data {
    if d == [] then [] else StringText(d[0].key) + (ValueText(d[0].value) + DocText(d[1..]))
  }

  lemma DocTextIs(d: Doc)
    ensures DocText(d) == [DocTag(d)] + FieldsText(d)
  {
    hide StringText, ValueText;
    assert [0] + [] == [0];
  }

  lemma {:induction false} DocTells(d: Doc, e: Doc, x: Data, y: Data)
    requires DocText(d) + x == DocText(e) + y
    ensures d == e && x == y
    decreases d
  {
    hide NatText, StringText, ValueText, DocText;
    DocTextIs(d);
    DocTextIs(e);
    SameFront(DocTag(d), FieldsText(d), x, DocTag(e), FieldsText(e), y);
    if d != [] {
      var p, q := DocText(d[1..]) + x, DocText(e[1..]) + y;
      Grouped(StringText(d[0].key), ValueText(d[0].value), DocText(d[1..]), x);
      Grouped(StringText(e[0].key), ValueText(e[0].value), DocText(e[1..]), y);
      StringTells(d[0].key, e[0].key, ValueText(d[0].value) + p, ValueText(e[0].value) + q);
      ValueTells(d[0].value, e[0].value, p, q);
      DocTells(d[1..], e[1..], x, y);
      assert d == [d[0]] + d[1..] && e == [e[0]] + e[1..];
    } else {
      assert [] + x == x && [] + y == y;
    }
  }

  lemma Grouped(a: Data, b: Data, c: Data, x: Data)
    ensures a + (b + c) + x == a + (b + (c + x))
  {
  }

  /** Every document has a text of its own. */
  lemma DocsApart()
    ensures Injective(DocText)
  {
    forall d, e | DocText(d) == DocText(e) ensures d == e {
      assert DocText(d) + [] == DocText(e) + [];
      DocTells(d, e, [], []);
    }
  }

  // ---------------------------------------------------------------- reading back

  /** What a text stands for, when every value has its own. */
  ghost function Reading<T(!new)>(text: T -> Data, d: Data): Option<T> {
    if v: T :| text(v) == d then Some(v) else None
  }

  lemma ReadsBack<T(!new)>(text: T -> Data, v: T)
    requires forall a, b :: text(a) == text(b) ==> a == b
    ensures Reading(text, text(v)) == Some(v)
  {
  }

  function T(s: string): Field {
    Field("", Text(s))
  }

  function N(n: int): Field {
    Field("", Number(n))
  }
}
