/**
 * The orders the two appointment lists are sorted by: the agenda compares
 * times as strings, the client history compares (date, time). Strings are
 * compared character by character (code-point order), which is how a
 * zero-padded "HH:MM" or "YYYY-MM-DD" string orders.
 */
module Ordering {
  import opened Types

  /** Lexicographic order on strings: a is a prefix of b or differs first by a smaller character. */
  predicate StrLe(a: string, b: string)
    decreases |a|
  {
    |a| == 0 || (|b| != 0 && (a[0] < b[0] || (a[0] == b[0] && StrLe(a[1..], b[1..]))))
  }

  predicate StrLt(a: string, b: string) {
    StrLe(a, b) && a != b
  }

  lemma {:induction false} StrLeReflexive(a: string)
    ensures StrLe(a, a)
    decreases |a|
  {
    if |a| != 0 {
      StrLeReflexive(a[1..]);
    }
  }

  lemma {:induction false} StrLeTotal(a: string, b: string)
    ensures StrLe(a, b) || StrLe(b, a)
    decreases |a|
  {
    if |a| != 0 && |b| != 0 && a[0] == b[0] {
      StrLeTotal(a[1..], b[1..]);
    }
  }

  lemma {:induction false} StrLeAntisymmetric(a: string, b: string)
    requires StrLe(a, b) && StrLe(b, a)
    ensures a == b
    decreases |a|
  {
    if |a| != 0 {
      StrLeAntisymmetric(a[1..], b[1..]);
      assert a == [a[0]] + a[1..] && b == [b[0]] + b[1..];
    }
  }

  lemma {:induction false} StrLeTransitive(a: string, b: string, c: string)
    requires StrLe(a, b) && StrLe(b, c)
    ensures StrLe(a, c)
    decreases |a|
  {
    if |a| != 0 && a[0] == b[0] && b[0] == c[0] {
      StrLeTransitive(a[1..], b[1..], c[1..]);
    }
  }

  /**
   * Two equal-length strings that agree before position k and differ there
   * are ordered by their characters at k.
   */
  lemma {:induction false} StrLtAt(a: string, b: string, k: nat)
    requires k < |a| == |b|
    requires a[..k] == b[..k] && a[k] < b[k]
    ensures StrLt(a, b)
    decreases k
  {
    if k > 0 {
      assert a[0] == a[..k][0] == b[..k][0] == b[0];
      assert a[1..][..k - 1] == a[..k][1..] == b[..k][1..] == b[1..][..k - 1];
      StrLtAt(a[1..], b[1..], k - 1);
    }
    assert a[k] != b[k];
  }

  /** The two sort orders of the views. */
  datatype Order = ByTime | ByDateTime

  /** x may come before y: never "x strictly after y". */
  predicate Before(o: Order, x: Appointment, y: Appointment) {
    match o
    case ByTime => StrLe(x.time, y.time)
    case ByDateTime => if x.date == y.date then StrLe(x.time, y.time) else StrLe(x.date, y.date)
  }

  lemma BeforeTotal(o: Order, x: Appointment, y: Appointment)
    ensures Before(o, x, y) || Before(o, y, x)
  {
    StrLeTotal(x.time, y.time);
    StrLeTotal(x.date, y.date);
  }

  lemma BeforeTransitive(o: Order, x: Appointment, y: Appointment, z: Appointment)
    requires Before(o, x, y) && Before(o, y, z)
    ensures Before(o, x, z)
  {
    match o
    case ByTime =>
      StrLeTransitive(x.time, y.time, z.time);
    case ByDateTime =>
      if x.date == y.date && y.date == z.date {
        StrLeTransitive(x.time, y.time, z.time);
      } else if x.date == y.date || y.date == z.date {
      } else {
        StrLeTransitive(x.date, y.date, z.date);
        if x.date == z.date {
          StrLeAntisymmetric(x.date, y.date);
        }
      }
  }

  predicate Sorted(o: Order, s: seq<Appointment>) {
    forall i, j :: 0 <= i < j < |s| ==> Before(o, s[i], s[j])
  }

  /** y heads a sorted sequence when it may come before every element of t. */
  lemma SortedCons(o: Order, y: Appointment, t: seq<Appointment>)
    requires Sorted(o, t)
    requires forall z :: z in t ==> Before(o, y, z)
    ensures Sorted(o, [y] + t)
  {
    var s := [y] + t;
    forall i, j | 0 <= i < j < |s|
      ensures Before(o, s[i], s[j])
    {
      if i > 0 {
        assert s[i] == t[i - 1] && s[j] == t[j - 1];
      } else {
        assert s[j] in t;
      }
    }
  }

  /** Inserts x into a sorted sequence, before the first element it may precede. */
  function Insert(o: Order, x: Appointment, s: seq<Appointment>): (r: seq<Appointment>)
    requires Sorted(o, s)
    ensures Sorted(o, r)
    ensures multiset(r) == multiset(s) + multiset{x}
    decreases |s|
  {
    if s == [] then [x]
    else
      assert s == [s[0]] + s[1..];
      if Before(o, x, s[0]) then
        InsertFirst(o, x, s);
        [x] + s
      else
        var t := Insert(o, x, s[1..]);
        InsertLater(o, x, s, t);
        [s[0]] + t
  }

  lemma InsertFirst(o: Order, x: Appointment, s: seq<Appointment>)
    requires Sorted(o, s) && s != [] && Before(o, x, s[0])
    ensures Sorted(o, [x] + s)
  {
    forall z | z in s
      ensures Before(o, x, z)
    {
      var j :| 0 <= j < |s| && s[j] == z;
      if j > 0 {
        BeforeTransitive(o, x, s[0], z);
      }
    }
    SortedCons(o, x, s);
  }

  lemma InsertLater(o: Order, x: Appointment, s: seq<Appointment>, t: seq<Appointment>)
    requires Sorted(o, s) && s != [] && !Before(o, x, s[0])
    requires Sorted(o, t) && multiset(t) == multiset(s[1..]) + multiset{x}
    ensures Sorted(o, [s[0]] + t)
  {
    BeforeTotal(o, x, s[0]);
    forall z | z in t
      ensures Before(o, s[0], z)
    {
      assert z in multiset(t);
      if z != x {
        assert z in multiset(s[1..]);
        var j :| 0 <= j < |s[1..]| && s[1..][j] == z;
        assert s[j + 1] == z;
      }
    }
    SortedCons(o, s[0], t);
  }

  /** Insertion sort: a sorted permutation of s. */
  function SortBy(o: Order, s: seq<Appointment>): (r: seq<Appointment>)
    ensures Sorted(o, r)
    ensures multiset(r) == multiset(s)
    decreases |s|
  {
    if s == [] then []
    else
      assert s == [s[0]] + s[1..];
      Insert(o, s[0], SortBy(o, s[1..]))
  }
}
