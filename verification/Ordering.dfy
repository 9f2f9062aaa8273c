/** Three-way comparison of strings, and the lexicographic composition all of
    MiniEureka's orders are built from. A comparison is -1, 0 or 1. */
module Ordering {

  datatype Option<+T> = None | Some(value: T)

  /** Go's strings.Compare and bytes.Compare on valid text: byte order of UTF-8
      is code-point order. */
  function CompareStrings(a: string, b: string): (c: int)
    ensures -1 <= c <= 1
    ensures c == 0 <==> a == b
  {
    if a == [] then (if b == [] then 0 else -1)
    else if b == [] then 1
    else if a[0] < b[0] then -1
    else if b[0] < a[0] then 1
    else
      var c := CompareStrings(a[1..], b[1..]);
      assert c == 0 ==> a == [a[0]] + a[1..] && b == [b[0]] + b[1..];
      c
  }

  function CompareInts(a: int, b: int): int {
    if a < b then -1 else if a > b then 1 else 0
  }

  /** The first component decides; the second breaks its ties. */
  function Lex(first: int, second: int): int {
    if first != 0 then first else second
  }

  lemma {:induction false} StringsAntisymmetric(a: string, b: string)
    ensures CompareStrings(a, b) == -CompareStrings(b, a)
  {
    if a != [] && b != [] && a[0] == b[0] {
      StringsAntisymmetric(a[1..], b[1..]);
    }
  }

  lemma {:induction false} StringsTransitive(a: string, b: string, c: string)
    requires CompareStrings(a, b) <= 0 && CompareStrings(b, c) <= 0
    ensures CompareStrings(a, c) <= 0
  {
    if a != [] && b != [] && c != [] && a[0] == b[0] == c[0] {
      StringsTransitive(a[1..], b[1..], c[1..]);
    }
  }

  // ---- What the comparison is, in characters -----------------------------

  /** Dictionary order: a proper prefix comes first; otherwise the first difference decides. */
  ghost predicate Precedes(a: string, b: string) {
    || (|a| < |b| && a == b[..|a|])
    || exists i :: 0 <= i < |a| && i < |b| && a[..i] == b[..i] && a[i] < b[i]
  }

  lemma PrecedesWithHead(a: string, b: string)
    requires a != [] && b != [] && a[0] == b[0] && Precedes(a[1..], b[1..])
    ensures Precedes(a, b)
  {
    var s, t := a[1..], b[1..];
    assert a == [a[0]] + s && b == [b[0]] + t;
    if |s| < |t| && s == t[..|s|] {
      assert b[..|a|] == [b[0]] + t[..|s|];
    } else {
      var i :| 0 <= i < |s| && i < |t| && s[..i] == t[..i] && s[i] < t[i];
      assert a[..i + 1] == [a[0]] + s[..i] && b[..i + 1] == [b[0]] + t[..i];
      assert a[i + 1] < b[i + 1];
    }
  }

  lemma PrecedesWithoutHead(a: string, b: string)
    requires a != [] && b != [] && a[0] == b[0] && Precedes(a, b)
    ensures Precedes(a[1..], b[1..])
  {
    var s, t := a[1..], b[1..];
    if |a| < |b| && a == b[..|a|] {
      assert s == b[..|a|][1..] == t[..|s|];
    } else {
      var i :| 0 <= i < |a| && i < |b| && a[..i] == b[..i] && a[i] < b[i];
      assert s[..i - 1] == a[..i][1..] && t[..i - 1] == b[..i][1..];
      assert s[i - 1] < t[i - 1];
    }
  }

  /** strings.Compare is dictionary order, by code point. */
  lemma {:induction false} StringsInDictionaryOrder(a: string, b: string)
    ensures CompareStrings(a, b) < 0 <==> Precedes(a, b)
    ensures CompareStrings(a, b) > 0 <==> Precedes(b, a)
  {
    if a != [] && b != [] && a[0] == b[0] {
      StringsInDictionaryOrder(a[1..], b[1..]);
      if Precedes(a[1..], b[1..]) { PrecedesWithHead(a, b); }
      if Precedes(b[1..], a[1..]) { PrecedesWithHead(b, a); }
      if Precedes(a, b) { PrecedesWithoutHead(a, b); }
      if Precedes(b, a) { PrecedesWithoutHead(b, a); }
    } else if a != [] && b != [] {
      assert a[..0] == b[..0];
    }
  }
}
