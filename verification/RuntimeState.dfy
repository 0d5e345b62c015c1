/**
 The keyed vectors of the runtime state (crates/pocox-core/src/state.rs):
 sessions by role and key, proxies by key, selections by kind.
 */
module RuntimeState {
  import opened Text
  import ServiceKeys

  datatype Row<K, V> = Row(key: K, value: V)

  // ---------- the vector as a map ----------

  /** `iter().find`: the first row with the key. */
  function Lookup<K(==), V>(rows: seq<Row<K, V>>, key: K): Option<V> {
    if rows == [] then None
    else if rows[0].key == key then Some(rows[0].value)
    else Lookup(rows[1..], key)
  }

  /** `position`. */
  function Position<K(==), V>(rows: seq<Row<K, V>>, key: K): (i: Option<nat>)
    ensures i.Some? ==> i.value < |rows| && rows[i.value].key == key
    ensures i.Some? ==> forall j :: 0 <= j < i.value ==> rows[j].key != key
    ensures i.None? ==> forall j :: 0 <= j < |rows| ==> rows[j].key != key
  {
    if rows == [] then None
    else if rows[0].key == key then Some(0)
    else match Position(rows[1..], key)
         case None => None
         case Some(i) => Some(i + 1)
  }

  lemma {:induction false} LookupAt<K, V>(rows: seq<Row<K, V>>, key: K)
    ensures Lookup(rows, key) ==
            match Position(rows, key)
            case None => None
            case Some(i) => Some(rows[i].value)
  {
    if rows == [] || rows[0].key == key {
    } else {
      LookupAt(rows[1..], key);
    }
  }

  /** No two rows share a key. */
  predicate Distinct<K(==), V>(rows: seq<Row<K, V>>) {
    forall i, j :: 0 <= i < j < |rows| ==> rows[i].key != rows[j].key
  }

  /** Overwrite the first row with the key, or push one. */
  function Upserted<K(==), V>(rows: seq<Row<K, V>>, key: K, value: V): seq<Row<K, V>> {
    match Position(rows, key)
    case Some(i) => rows[i := Row(key, value)]
    case None => rows + [Row(key, value)]
  }

  /** `swap_remove`: the last row takes the place of the removed one. */
  function SwapRemoved<T>(rows: seq<T>, i: nat): seq<T>
    requires i < |rows|
  {
    rows[i := rows[|rows| - 1]][..|rows| - 1]
  }

  function Removed<K(==), V>(rows: seq<Row<K, V>>, key: K): seq<Row<K, V>> {
    match Position(rows, key)
    case Some(i) => SwapRemoved(rows, i)
    case None => rows
  }

  /** With distinct keys a row is found wherever it stands. */
  lemma {:induction false} FoundAt<K, V>(rows: seq<Row<K, V>>, i: nat)
    requires Distinct(rows) && i < |rows|
    ensures Lookup(rows, rows[i].key) == Some(rows[i].value)
  {
    LookupAt(rows, rows[i].key);
  }

  lemma {:induction false} NotFound<K, V>(rows: seq<Row<K, V>>, key: K)
    ensures Lookup(rows, key).None? <==> forall i :: 0 <= i < |rows| ==> rows[i].key != key
  {
    LookupAt(rows, key);
  }

  /** Upserting changes that key's answer and no other, duplicates or not. */
  lemma {:induction false} UpsertedLookup<K, V>(rows: seq<Row<K, V>>, key: K, value: V, other: K)
    ensures Lookup(Upserted(rows, key, value), other) == if other == key then Some(value) else Lookup(rows, other)
    ensures Distinct(rows) ==> Distinct(Upserted(rows, key, value))
  {
    var after := Upserted(rows, key, value);
    LookupAt(rows, other);
    LookupAt(after, other);
    var p, q := Position(rows, other), Position(after, other);
    if other == key {
      assert after[if p.Some? then p.value else |rows|].key == key;
    } else {
      assert forall i :: 0 <= i < |rows| ==> after[i].key == rows[i].key;
      assert p == q;
    }
  }

  /** With distinct keys, removing takes that key away and no other. */
  lemma {:induction false} RemovedLookup<K, V>(rows: seq<Row<K, V>>, key: K, other: K)
    requires Distinct(rows)
    ensures Distinct(Removed(rows, key))
    ensures Lookup(Removed(rows, key), other) == if other == key then None else Lookup(rows, other)
  {
    var after, p := Removed(rows, key), Position(rows, key);
    NotFound(rows, other);
    NotFound(after, other);
    if p.Some? && other != key && Lookup(rows, other).Some? {
      LookupAt(rows, other);
      var i := Position(rows, other).value;
      var k := if i == |rows| - 1 then p.value else i;
      assert after[k] == rows[i];
      FoundAt(rows, i);
      FoundAt(after, k);
    }
  }

  /** Nothing else is lost: the rows are those before but the one removed. */
  lemma {:induction false} RemovedRows<K, V>(rows: seq<Row<K, V>>, key: K)
    requires Position(rows, key).Some?
    ensures multiset(Removed(rows, key)) == multiset(rows) - multiset{rows[Position(rows, key).value]}
  {
    SwapRemovedRows(rows, Position(rows, key).value);
  }

  lemma {:induction false} SwapRemovedRows<T>(rows: seq<T>, i: nat)
    requires i < |rows|
    ensures multiset(SwapRemoved(rows, i)) == multiset(rows) - multiset{rows[i]}
  {
    var n := |rows| - 1;
    if i == n {
      assert SwapRemoved(rows, i) == rows[..n];
      LastOff(rows[..n], rows[n]);
      assert rows == rows[..n] + [rows[n]];
    } else {
      SwapRemovedParts(rows, i);
      MovedLast(rows[..i], rows[i], rows[i + 1..n], rows[n]);
    }
  }

  lemma {:induction false} SwapRemovedParts<T>(rows: seq<T>, i: nat)
    requires i < |rows| - 1
    ensures var n := |rows| - 1;
            && rows == rows[..i] + [rows[i]] + rows[i + 1..n] + [rows[n]]
            && SwapRemoved(rows, i) == rows[..i] + [rows[n]] + rows[i + 1..n]
  {
  }

  lemma {:induction false} LastOff<T>(a: seq<T>, x: T)
    ensures multiset(a) == multiset(a + [x]) - multiset{x}
  {
  }

  lemma {:induction false} MovedLast<T>(a: seq<T>, x: T, b: seq<T>, y: T)
    ensures multiset(a + [y] + b) == multiset(a + [x] + b + [y]) - multiset{x}
  {
    assert multiset(a + [x] + b + [y]) == multiset(a + [y] + b) + multiset{x};
  }

  /** Removing one key as a map would, seen from another. */
  predicate RemovesOnly<K(==), V(==)>(rows: seq<Row<K, V>>, key: K, other: K) {
    Lookup(Removed(rows, key), other) == if other == key then None else Lookup(rows, other)
  }

  /** A file read back may hold a key twice. Removal does what a map's removal
      does for every key exactly when none is. */
  lemma {:induction false} RemovalExactIff<K(!new), V>(rows: seq<Row<K, V>>)
    ensures (forall key, other :: RemovesOnly(rows, key, other)) <==> Distinct(rows)
  {
    if Distinct(rows) {
      forall key, other ensures RemovesOnly(rows, key, other) {
        RemovedLookup(rows, key, other);
      }
    } else {
      var i, j :| 0 <= i < j < |rows| && rows[i].key == rows[j].key;
      var key := rows[i].key;
      var p, after := Position(rows, key).value, Removed(rows, key);
      NotFound(after, key);
      assert p <= i;
      assert after[if j == |rows| - 1 then p else j].key == key;
      assert !RemovesOnly(rows, key, key);
    }
  }

  /** A key held twice is still answered after its removal. */
  lemma {:induction false} TwiceHeldRemains<K, V>(key: K, a: V, b: V)
    ensures Lookup(Removed([Row(key, a), Row(key, b)], key), key) == Some(b)
    ensures !RemovesOnly([Row(key, a), Row(key, b)], key, key)
  {
    var rows := [Row(key, a), Row(key, b)];
    assert Position(rows, key) == Some(0);
    assert Removed(rows, key) == [Row(key, b)];
  }

  // ---------- over whole runs ----------

  datatype Op<K, V> = Upsert(key: K, value: V) | Remove(key: K)

  function RowsAfter<K(==), V>(ops: seq<Op<K, V>>): seq<Row<K, V>> {
    if ops == [] then []
    else
      var rows := RowsAfter(ops[..|ops| - 1]);
      match ops[|ops| - 1]
      case Upsert(key, value) => Upserted(rows, key, value)
      case Remove(key) => Removed(rows, key)
  }

  function MapAfter<K(==), V>(ops: seq<Op<K, V>>): map<K, V> {
    if ops == [] then map[]
    else
      var m := MapAfter(ops[..|ops| - 1]);
      match ops[|ops| - 1]
      case Upsert(key, value) => m[key := value]
      case Remove(key) => m - {key}
  }

  /** Whatever is upserted and removed, the vector answers as a map would. */
  lemma {:induction false} VectorIsMap<K(!new), V>(ops: seq<Op<K, V>>)
    ensures Distinct(RowsAfter(ops))
    ensures forall key :: Lookup(RowsAfter(ops), key) ==
                          if key in MapAfter(ops) then Some(MapAfter(ops)[key]) else None
  {
    if ops == [] {
    } else {
      var last := ops[|ops| - 1];
      VectorIsMap(ops[..|ops| - 1]);
      var rows := RowsAfter(ops[..|ops| - 1]);
      if last.Upsert? {
        UpsertedLookup(rows, last.key, last.value, last.key);
        forall key ensures Lookup(RowsAfter(ops), key) ==
                           if key in MapAfter(ops) then Some(MapAfter(ops)[key]) else None
        {
          UpsertedLookup(rows, last.key, last.value, key);
        }
      } else {
        RemovedLookup(rows, last.key, last.key);
        forall key ensures Lookup(RowsAfter(ops), key) ==
                           if key in MapAfter(ops) then Some(MapAfter(ops)[key]) else None
        {
          RemovedLookup(rows, last.key, key);
        }
      }
    }
  }

  // ---------- the state's own methods ----------

  datatype PbRole = Register | Subscribe
  datatype PbKey = PbKey(role: PbRole, key: string)
  datatype Selected = Selected(device: string, name: string, selectedAt: string)

  class RuntimeState<Pb, Api> {
    var pb: seq<Row<PbKey, Pb>>
    var api: seq<Row<string, Api>>
    var selected: seq<Row<ServiceKeys.ServiceKind, Selected>>

    constructor ()
      ensures pb == [] && api == [] && selected == []
    {
      pb, api, selected := [], [], [];
    }

    method UpsertPb(role: PbRole, key: string, session: Pb)
      modifies this`pb
      ensures pb == Upserted(old(pb), PbKey(role, key), session)
    {
      var i := Position(pb, PbKey(role, key));
      if i.Some? {
        pb := pb[i.value := Row(PbKey(role, key), session)];
      } else {
        pb := pb + [Row(PbKey(role, key), session)];
      }
    }

    method RemovePb(role: PbRole, key: string) returns (session: Option<Pb>)
      modifies this`pb
      ensures session == Lookup(old(pb), PbKey(role, key)) && pb == Removed(old(pb), PbKey(role, key))
    {
      LookupAt(pb, PbKey(role, key));
      var i := Position(pb, PbKey(role, key));
      if i.None? {
        return None;
      }
      session := Some(pb[i.value].value);
      pb := pb[i.value := pb[|pb| - 1]];
      pb := pb[..|pb| - 1];
    }

    method UpsertApi(key: string, session: Api)
      modifies this`api
      ensures api == Upserted(old(api), key, session)
    {
      var i := Position(api, key);
      if i.Some? {
        api := api[i.value := Row(key, session)];
      } else {
        api := api + [Row(key, session)];
      }
    }

    method RemoveApi(key: string) returns (session: Option<Api>)
      modifies this`api
      ensures session == Lookup(old(api), key) && api == Removed(old(api), key)
    {
      LookupAt(api, key);
      var i := Position(api, key);
      if i.None? {
        return None;
      }
      session := Some(api[i.value].value);
      api := api[i.value := api[|api| - 1]];
      api := api[..|api| - 1];
    }

    /** The last recorded target of a kind is the one selected, sanitised. */
    method RecordSelectedService(kind: ServiceKeys.ServiceKind, device: string, name: string, now: string,
                                 lower: char -> string)
      modifies this`selected
      ensures var target := Selected(ServiceKeys.Sanitized(device, lower), ServiceKeys.Sanitized(name, lower), now);
              forall k :: Lookup(selected, k) == if k == kind then Some(target) else Lookup(old(selected), k)
      ensures Distinct(old(selected)) ==> Distinct(selected)
    {
      var d := ServiceKeys.SanitizeComponent(device, lower);
      var n := ServiceKeys.SanitizeComponent(name, lower);
      var row := Row(kind, Selected(d, n, now));
      forall k ensures Lookup(Upserted(selected, kind, row.value), k) ==
                       if k == kind then Some(row.value) else Lookup(selected, k)
      {
        UpsertedLookup(selected, kind, row.value, k);
      }
      UpsertedLookup(selected, kind, row.value, kind);
      var i := Position(selected, kind);
      if i.Some? {
        selected := selected[i.value := row];
      } else {
        selected := selected + [row];
      }
    }
  }
}
