// ORDER BY: the rows of a result in the order of a comparison, and SQLite's order on text.
module Ordering {

  ghost predicate TotalOrder<T(!new)>(le: (T, T) -> bool) {
    && (forall a, b :: le(a, b) || le(b, a))
    && (forall a, b, c :: le(a, b) && le(b, c) ==> le(a, c))
  }

  lemma LeastExists<T(!new)>(s: set<T>, le: (T, T) -> bool) returns (m: T)
    requires s != {} && TotalOrder(le)
    ensures m in s && forall x :: x in s ==> le(m, x)
    decreases |s|
  {
    var x :| x in s;
    var rest := s - {x};
    assert s == rest + {x};
    assert le(x, x);
    if rest == {} {
      m := x;
    } else {
      m := LeastExists(rest, le);
      if le(x, m) {
        forall y | y in s ensures le(x, y) { if y != x { assert le(m, y); } }
        m := x;
      } else {
        assert le(m, x);
      }
    }
  }

  ghost predicate Ordered<T>(rows: set<T>, le: (T, T) -> bool, out: seq<T>) {
    && (forall i :: 0 <= i < |out| ==> out[i] in rows)
    && (forall x :: x in rows ==> x in out)
    && (forall i, j :: 0 <= i < j < |out| ==> out[i] != out[j] && le(out[i], out[j]))
  }

  method OrderBy<T(==, !new)>(rows: set<T>, le: (T, T) -> bool) returns (out: seq<T>)
    requires TotalOrder(le)
    ensures Ordered(rows, le, out)
  {
    out := [];
    var left := rows;
    while left != {}
      invariant left <= rows
      invariant forall x :: x in rows <==> x in left || x in out
      invariant forall i :: 0 <= i < |out| ==> out[i] in rows && out[i] !in left
      invariant forall i, x :: 0 <= i < |out| && x in left ==> le(out[i], x)
      invariant forall i, j :: 0 <= i < j < |out| ==> out[i] != out[j] && le(out[i], out[j])
      decreases |left|
    {
      ghost var least := LeastExists(left, le);
      var x :| x in left && forall y :: y in left ==> le(x, y);
      out := out + [x];
      left := left - {x};
    }
  }

  // SQLite's order on text: by code point, a prefix first.
  predicate TextLe(a: string, b: string) {
    if a == [] then true
    else if b == [] then false
    else if a[0] != b[0] then a[0] < b[0]
    else TextLe(a[1..], b[1..])
  }

  lemma {:induction false} TextLeTotal(a: string, b: string)
    ensures TextLe(a, b) || TextLe(b, a)
  {
    if a != [] && b != [] && a[0] == b[0] {
      TextLeTotal(a[1..], b[1..]);
    }
  }

  lemma {:induction false} TextLeTransitive(a: string, b: string, c: string)
    requires TextLe(a, b) && TextLe(b, c)
    ensures TextLe(a, c)
  {
    if a != [] && b != [] && c != [] && a[0] == b[0] && b[0] == c[0] {
      TextLeTransitive(a[1..], b[1..], c[1..]);
    }
  }

  lemma {:induction false} TextLeAntisymmetric(a: string, b: string)
    requires TextLe(a, b) && TextLe(b, a)
    ensures a == b
  {
    if a != [] && b != [] {
      TextLeAntisymmetric(a[1..], b[1..]);
    }
  }

  // Up to i they are alike, and there a comes first.
  predicate BelowAt(a: string, b: string, i: int) {
    0 <= i < |a| && i < |b| && a[..i] == b[..i] && a[i] < b[i]
  }

  lemma BelowTail(a: string, b: string, i: int)
    requires a != [] && b != [] && a[0] == b[0]
    ensures 0 < i ==> (BelowAt(a, b, i) <==> BelowAt(a[1..], b[1..], i - 1))
    ensures !BelowAt(a, b, 0)
  {
    if 0 < i <= |a| && i <= |b| {
      assert a[..i] == [a[0]] + a[1..][..i - 1] && b[..i] == [b[0]] + b[1..][..i - 1];
      assert a[..i][1..] == a[1..][..i - 1] && b[..i][1..] == b[1..][..i - 1];
    }
  }

  // The first place where they differ decides; without one, the shorter comes first.
  lemma {:induction false} TextLeMeans(a: string, b: string)
    ensures TextLe(a, b) <==> a <= b || exists i :: BelowAt(a, b, i)
  {
    if a == [] || b == [] {
    } else if a[0] != b[0] {
      assert BelowAt(a, b, 0) <==> a[0] < b[0];
    } else {
      TextLeMeans(a[1..], b[1..]);
      assert a <= b <==> a[1..] <= b[1..] by {
        assert a == [a[0]] + a[1..] && b == [b[0]] + b[1..];
      }
      if i :| BelowAt(a[1..], b[1..], i) { BelowTail(a, b, i + 1); }
      if i :| BelowAt(a, b, i) { BelowTail(a, b, i); }
    }
  }
}
