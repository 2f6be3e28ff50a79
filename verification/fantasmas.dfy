/**
 * The management command `limpiar_registros_fantasma`: it finds the
 * "ghost" records, incomplete days with no budget and no expenses that
 * still carry a leftover, and deletes them once the operator confirms.
 */
module Fantasmas {
  import opened Decimals
  import Registro
  import opened Almacen

  /**
   * A ghost: not completed, with a zero budget and three zero expenses,
   * and a leftover other than zero.
   */
  predicate IsGhost(x: Registro.Record) {
    !x.completed && x.budget == Zero && x.food == Zero && x.products == Zero && x.savings == Zero
    && x.leftover != Zero
  }

  /** The query `fantasmas`, in table order. */
  function Ghosts(s: Store): (g: Store)
    ensures |g| <= |s|
    ensures forall i :: 0 <= i < |g| ==> IsGhost(g[i])
  {
    if |s| == 0 then [] else Ghosts(s[..|s| - 1]) + (if IsGhost(s[|s| - 1]) then [s[|s| - 1]] else [])
  }

  /** The table after `fantasmas.delete()`, in table order. */
  function Remaining(s: Store): (t: Store)
    ensures |t| + |Ghosts(s)| == |s|
    ensures forall i :: 0 <= i < |t| ==> !IsGhost(t[i])
  {
    if |s| == 0 then [] else Remaining(s[..|s| - 1]) + (if IsGhost(s[|s| - 1]) then [] else [s[|s| - 1]])
  }

  /** The query finds every ghost of the table and nothing else. */
  lemma {:induction false} GhostsMembers(s: Store)
    ensures forall x :: x in Ghosts(s) <==> x in s && IsGhost(x)
  {
    if |s| > 0 {
      var init := s[..|s| - 1];
      GhostsMembers(init);
      assert s == init + [s[|s| - 1]];
    }
  }

  /** The deletion keeps every row that is not a ghost and nothing else. */
  lemma {:induction false} RemainingMembers(s: Store)
    ensures forall x :: x in Remaining(s) <==> x in s && !IsGhost(x)
  {
    if |s| > 0 {
      var init := s[..|s| - 1];
      RemainingMembers(init);
      assert s == init + [s[|s| - 1]];
    }
  }

  /** What the command reports: nothing found, cancelled, or deleted, with the count found. */
  datatype Outcome = NoneFound | Cancelled(total: nat) | Deleted(total: nat)

  /** The answer to the prompt confirms when its lower-case form is `"s"`. */
  predicate Confirms(answer: string) {
    LowerStr(answer) == "s"
  }

  /** Only `"s"` and `"S"` confirm. */
  lemma ConfirmsExactly(answer: string)
    ensures Confirms(answer) <==> answer == "s" || answer == "S"
  {
    if Confirms(answer) {
      assert |answer| == 1 && Lower(answer[0]) == 's';
      assert answer == [answer[0]];
    }
  }

  /**
   * The command on the table `s`, with `answer` typed at the prompt (read
   * only when ghosts were found).  It deletes exactly when there are ghosts
   * and the answer is `s` or `S`; the table is otherwise left alone.
   */
  function Limpiar(s: Store, answer: string): (r: (Outcome, Store))
    ensures r.0.NoneFound? <==> forall x :: x in s ==> !IsGhost(x)
    ensures !r.0.NoneFound? ==> r.0.total == |Ghosts(s)| > 0
    ensures r.0.Deleted? <==> (exists x :: x in s && IsGhost(x)) && (answer == "s" || answer == "S")
    ensures !r.0.Deleted? ==> r.1 == s
    ensures r.0.Deleted? ==> |r.1| == |s| - r.0.total
    ensures r.0.Deleted? ==> forall x :: x in r.1 <==> x in s && !IsGhost(x)
  {
    ConfirmsExactly(answer);
    GhostsMembers(s);
    RemainingMembers(s);
    var total := |Ghosts(s)|;
    if total == 0 then (NoneFound, s)
    else
      assert Ghosts(s)[0] in Ghosts(s);
      if !Confirms(answer) then (Cancelled(total), s)
      else (Deleted(total), Remaining(s))
  }

  // ---------------------------------------------------------------
  // Properties
  // ---------------------------------------------------------------

  /** The deletion splits the table: ghosts and remaining rows make up the whole, as a multiset. */
  lemma {:induction false} GhostsPartition(s: Store)
    ensures multiset(Ghosts(s)) + multiset(Remaining(s)) == multiset(s)
  {
    if |s| > 0 {
      var init := s[..|s| - 1];
      GhostsPartition(init);
      assert s == init + [s[|s| - 1]];
    }
  }

  /** Deletion keeps the table order: the remaining rows of a concatenation are concatenated. */
  lemma {:induction false} RemainingAppend(a: Store, b: Store)
    ensures Remaining(a + b) == Remaining(a) + Remaining(b)
  {
    if |b| == 0 {
      assert a + b == a;
    } else {
      var b' := b[..|b| - 1];
      RemainingAppend(a, b');
      assert (a + b)[..|a + b| - 1] == a + b';
    }
  }

  /** A table without ghosts is left as it is. */
  lemma {:induction false} RemainingWithoutGhosts(s: Store)
    requires forall x :: x in s ==> !IsGhost(x)
    ensures Remaining(s) == s
  {
    if |s| > 0 {
      var init := s[..|s| - 1];
      assert s == init + [s[|s| - 1]];
      assert forall x :: x in init ==> x in s;
      RemainingWithoutGhosts(init);
    }
  }

  /**
   * Running the command again after a deletion finds nothing; after a
   * cancellation it finds the same ghosts.
   */
  lemma RunTwice(s: Store, first: string, second: string)
    ensures var (o, t) := Limpiar(s, first);
            (o.Deleted? ==> Limpiar(t, second) == (NoneFound, t))
            && (!o.Deleted? ==> Limpiar(t, second) == Limpiar(s, second))
  {
  }

  /**
   * A record written through `save` is never a ghost: `save` zeroes the
   * leftover of a day that is not completed.
   */
  lemma StoredIsNoGhost(x: Registro.Record)
    requires Registro.Stored(x)
    ensures !IsGhost(x)
  {
  }

  /** A table whose every record went through `save` has no ghosts, whatever is answered. */
  lemma StoredTableClean(s: Store, answer: string)
    requires forall x :: x in s ==> Registro.Stored(x)
    ensures Limpiar(s, answer) == (NoneFound, s)
  {
    forall x | x in s ensures !IsGhost(x) {
      StoredIsNoGhost(x);
    }
  }
}
