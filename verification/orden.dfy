/**
 * Ordering rows by date, as `order_by("fecha")` and `order_by("-fecha")`
 * return them.  The database leaves the order of rows with equal dates open;
 * the model keeps them in table order (ascending) and reverses that for the
 * descending order.
 */
module Orden {
  import Registro

  type Rows = seq<Registro.Record>

  predicate Ascending(s: Rows) {
    forall i, j :: 0 <= i < j < |s| ==> s[i].fecha <= s[j].fecha
  }

  predicate Descending(s: Rows) {
    forall i, j :: 0 <= i < j < |s| ==> s[i].fecha >= s[j].fecha
  }

  /** `x` placed after every row of `s` dated no later than it. */
  function InsertByFecha(x: Registro.Record, s: Rows): (r: Rows)
    ensures |r| == |s| + 1
  {
    if |s| == 0 then [x]
    else if x.fecha < s[0].fecha then [x] + s
    else [s[0]] + InsertByFecha(x, s[1..])
  }

  /** Inserting adds exactly `x`. */
  lemma {:induction false} InsertAdds(x: Registro.Record, s: Rows)
    ensures multiset(InsertByFecha(x, s)) == multiset(s) + multiset{x}
  {
    if |s| > 0 && x.fecha >= s[0].fecha {
      InsertAdds(x, s[1..]);
      assert s == [s[0]] + s[1..];
    }
  }

  /** Inserting a row dated no earlier than `b` among such rows keeps every date at least `b`. */
  lemma {:induction false} InsertBound(x: Registro.Record, s: Rows, b: int)
    requires x.fecha >= b && forall i :: 0 <= i < |s| ==> s[i].fecha >= b
    ensures forall i :: 0 <= i < |InsertByFecha(x, s)| ==> InsertByFecha(x, s)[i].fecha >= b
  {
    if |s| > 0 && x.fecha >= s[0].fecha {
      InsertBound(x, s[1..], b);
    }
  }

  /** Inserting into an ascending sequence keeps it ascending and adds exactly `x`. */
  lemma {:induction false} InsertSorted(x: Registro.Record, s: Rows)
    requires Ascending(s)
    ensures Ascending(InsertByFecha(x, s))
    ensures multiset(InsertByFecha(x, s)) == multiset(s) + multiset{x}
  {
    InsertAdds(x, s);
    if |s| > 0 && x.fecha >= s[0].fecha {
      var t := s[1..];
      InsertSorted(x, t);
      InsertBound(x, t, s[0].fecha);
      var rest := InsertByFecha(x, t);
      assert InsertByFecha(x, s) == [s[0]] + rest;
    }
  }

  /** `order_by("fecha")`: ascending by date, rows with equal dates in table order. */
  function SortByFecha(s: Rows): (r: Rows)
    ensures Ascending(r)
    ensures multiset(r) == multiset(s)
    ensures |r| == |s|
  {
    if |s| == 0 then []
    else
      var p := SortByFecha(s[..|s| - 1]);
      InsertSorted(s[|s| - 1], p);
      assert s == s[..|s| - 1] + [s[|s| - 1]];
      InsertByFecha(s[|s| - 1], p)
  }

  function Reverse(s: Rows): (r: Rows)
    ensures |r| == |s|
    ensures forall i :: 0 <= i < |s| ==> r[i] == s[|s| - 1 - i]
  {
    if |s| == 0 then [] else [s[|s| - 1]] + Reverse(s[..|s| - 1])
  }

  /** `order_by("-fecha")`: descending by date. */
  function SortByFechaDesc(s: Rows): (r: Rows) {
    Reverse(SortByFecha(s))
  }

  // ---------------------------------------------------------------
  // Properties
  // ---------------------------------------------------------------

  /** Reversing keeps the rows and turns ascending into descending. */
  lemma ReverseKeepsRows(s: Rows)
    ensures multiset(Reverse(s)) == multiset(s)
    ensures Ascending(s) ==> Descending(Reverse(s))
  {
    ReverseSameRows(s);
    if Ascending(s) {
      var r := Reverse(s);
      forall i, j | 0 <= i < j < |r| ensures r[i].fecha >= r[j].fecha {
        assert r[i] == s[|s| - 1 - i] && r[j] == s[|s| - 1 - j];
      }
    }
  }

  /** Reversing keeps the rows. */
  lemma {:induction false} ReverseSameRows(s: Rows)
    ensures multiset(Reverse(s)) == multiset(s)
  {
    if |s| > 0 {
      ReverseSameRows(s[..|s| - 1]);
      assert s == s[..|s| - 1] + [s[|s| - 1]];
    }
  }

  /** The descending order holds exactly the rows it was given, latest date first. */
  lemma SortByFechaDescSpec(s: Rows)
    ensures Descending(SortByFechaDesc(s))
    ensures multiset(SortByFechaDesc(s)) == multiset(s)
  {
    ReverseKeepsRows(SortByFecha(s));
  }

  /** Rows already in ascending order are left as they are. */
  lemma {:induction false} SortSorted(s: Rows)
    requires Ascending(s)
    ensures SortByFecha(s) == s
  {
    if |s| > 0 {
      var p := s[..|s| - 1];
      SortSorted(p);
      InsertAtEnd(s[|s| - 1], p);
      assert p + [s[|s| - 1]] == s;
    }
  }

  /** A row dated no earlier than every row of `s` goes to the end. */
  lemma {:induction false} InsertAtEnd(x: Registro.Record, s: Rows)
    requires Ascending(s)
    requires forall i :: 0 <= i < |s| ==> s[i].fecha <= x.fecha
    ensures InsertByFecha(x, s) == s + [x]
  {
    if |s| > 0 {
      InsertAtEnd(x, s[1..]);
      assert s == [s[0]] + s[1..];
    }
  }
}
