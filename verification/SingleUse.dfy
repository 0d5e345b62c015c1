/**
 Bookkeeping of single-use rows under concurrency: a conditional update lets
 one caller win an open row, and only its winner may trade it.
 */
module SingleUse {
  import opened Text

  /** `held[c]` is what call `c` has won and not traded yet. */
  datatype Ledger<!T> = Ledger(open: set<T>, issued: set<T>, held: seq<Option<T>>, traded: seq<T>)

  /** A row is open, or held by one call, or traded once: never two of them. */
  ghost predicate Sound<T>(l: Ledger<T>) {
    && l.open <= l.issued
    && (forall t :: t in l.traded ==> t in l.issued && t !in l.open)
    && (forall c :: 0 <= c < |l.held| && l.held[c].Some? ==>
                      var t := l.held[c].value;
                      t in l.issued && t !in l.open && t !in l.traded)
    && (forall c, d :: 0 <= c < d < |l.held| && l.held[c].Some? ==> l.held[c] != l.held[d])
    && (forall i, j :: 0 <= i < j < |l.traded| ==> l.traded[i] != l.traded[j])
  }

  /** One statement: call `c` ends up holding `won`, a row it found open; the
      rows `created` are new; the row `c` held is traded, or nothing is. */
  ghost predicate Moves<T>(l: Ledger<T>, m: Ledger<T>, c: nat, won: Option<T>, created: set<T>, trades: bool) {
    && (won.Some? ==> won.value in l.open)
    && created !! l.issued && m.issued == l.issued + created
    && (forall t :: t in m.open ==> (t in l.open && won != Some(t)) || t in created)
    && |l.held| <= |m.held| <= |l.held| + 1
    && (forall d :: 0 <= d < |m.held| ==>
                      m.held[d] == if d == c then won else if d < |l.held| then l.held[d] else None)
    && (if trades then c < |l.held| && l.held[c].Some? && m.traded == l.traded + [l.held[c].value]
        else m.traded == l.traded)
  }

  lemma {:induction false} MovesKeep<T>(l: Ledger<T>, m: Ledger<T>, c: nat, won: Option<T>, created: set<T>,
                                        trades: bool)
    requires Sound(l) && Moves(l, m, c, won, created, trades)
    ensures Sound(m)
  {
    forall d | 0 <= d < |m.held| && m.held[d].Some?
      ensures m.held[d].value in m.issued && m.held[d].value !in m.open && m.held[d].value !in m.traded
    {
      if d != c { assert m.held[d] == l.held[d]; }
    }
    forall i, j | 0 <= i < j < |m.traded| ensures m.traded[i] != m.traded[j] {
      if j == |l.traded| { assert m.traded[i] == l.traded[i] && l.traded[i] in l.traded; }
    }
  }
}
