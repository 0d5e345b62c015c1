/**
 Endpoint attribution over one process snapshot
 (crates/pocox-core/src/process.rs, `descends` and `endpoint_owner_under`).
 */
module ProcessTree {
  import opened Text

  type Pid = nat

  datatype Process = Process(started: nat, parent: Option<Pid>, thread: bool, serves: bool)

  /** One snapshot. Parent ids may dangle, be reused, or form cycles. */
  type Table = map<Pid, Process>

  /** Most parent links tried from a candidate. */
  const MAX_ANCESTRY: nat := 32

  predicate Links(table: Table, child: Pid, parent: Pid) {
    child in table && parent in table && table[child].parent == Some(parent)
  }

  /** Parent links from `p` up to `root`, each process before the root
      started no earlier than it. */
  predicate Ancestry(table: Table, path: seq<Pid>, p: Pid, root: Pid, rootStarted: nat) {
    && path != [] && path[0] == p && path[|path| - 1] == root
    && (forall i :: 0 <= i < |path| - 1 ==>
                      Links(table, path[i], path[i + 1]) && table[path[i]].started >= rootStarted)
  }

  ghost predicate Descends(table: Table, p: Pid, root: Pid, rootStarted: nat, most: nat) {
    exists path :: Ancestry(table, path, p, root, rootStarted) && |path| <= most
  }

  /** The walk with this many processes left to look at. */
  predicate Walk(table: Table, p: Pid, root: Pid, rootStarted: nat, left: nat)
    requires p in table
    decreases left
  {
    && left > 0
    && (p == root ||
        (table[p].started >= rootStarted && table[p].parent.Some? && table[p].parent.value in table
         && Walk(table, table[p].parent.value, root, rootStarted, left - 1)))
  }

  lemma {:induction false} WalkFinds(table: Table, p: Pid, root: Pid, rootStarted: nat, left: nat)
    requires p in table && Walk(table, p, root, rootStarted, left)
    ensures Descends(table, p, root, rootStarted, left)
    decreases left
  {
    if p == root {
      assert Ancestry(table, [p], p, root, rootStarted);
    } else {
      var parent := table[p].parent.value;
      WalkFinds(table, parent, root, rootStarted, left - 1);
      var path :| Ancestry(table, path, parent, root, rootStarted) && |path| <= left - 1;
      var longer := [p] + path;
      forall i | 0 <= i < |longer| - 1
        ensures Links(table, longer[i], longer[i + 1]) && table[longer[i]].started >= rootStarted
      {
        if i > 0 {
          assert Links(table, path[i - 1], path[i]) && table[path[i - 1]].started >= rootStarted;
        }
      }
      assert Ancestry(table, longer, p, root, rootStarted);
    }
  }

  lemma {:induction false} WalkMeets(table: Table, path: seq<Pid>, p: Pid, root: Pid, rootStarted: nat, left: nat)
    requires p in table && Ancestry(table, path, p, root, rootStarted) && |path| <= left
    ensures Walk(table, p, root, rootStarted, left)
    decreases left
  {
    if p == root {
    } else {
      assert Links(table, path[0], path[1]) && table[path[0]].started >= rootStarted;
      var rest := path[1..];
      forall i | 0 <= i < |rest| - 1
        ensures Links(table, rest[i], rest[i + 1]) && table[rest[i]].started >= rootStarted
      {
        assert Links(table, path[i + 1], path[i + 2]) && table[path[i + 1]].started >= rootStarted;
      }
      WalkMeets(table, rest, path[1], root, rootStarted, left - 1);
    }
  }

  /** The walk succeeds exactly for the chains of fewer than that many links,
      whatever else the table holds. */
  lemma {:induction false} WalkIff(table: Table, p: Pid, root: Pid, rootStarted: nat, left: nat)
    requires p in table
    ensures Walk(table, p, root, rootStarted, left) <==> Descends(table, p, root, rootStarted, left)
  {
    if Walk(table, p, root, rootStarted, left) {
      WalkFinds(table, p, root, rootStarted, left);
    }
    if Descends(table, p, root, rootStarted, left) {
      var path :| Ancestry(table, path, p, root, rootStarted) && |path| <= left;
      WalkMeets(table, path, p, root, rootStarted, left);
    }
  }

  /** `descends`: fewer than 32 links up to the root. */
  method DescendsFrom(table: Table, p: Pid, root: Pid, rootStarted: nat) returns (r: bool)
    requires p in table
    ensures r <==> Descends(table, p, root, rootStarted, MAX_ANCESTRY)
  {
    WalkIff(table, p, root, rootStarted, MAX_ANCESTRY);
    var current := p;
    for i := 0 to MAX_ANCESTRY
      invariant current in table
      invariant Walk(table, p, root, rootStarted, MAX_ANCESTRY)
           <==> Walk(table, current, root, rootStarted, MAX_ANCESTRY - i)
    {
      if current == root {
        return true;
      }
      if table[current].started < rootStarted {
        return false;
      }
      var parent := table[current].parent;
      if parent.None? || parent.value !in table {
        return false;
      }
      current := parent.value;
    }
    return false;
  }

  // ---------- the owner of an endpoint ----------

  /** What the listing says of the applicable sockets. */
  datatype Listening = Listening(pids: seq<Pid>, unattributed: bool)

  datatype EndpointOwner = Owned(pid: Pid, started: nat) | Foreign | Unbound | Unknown

  /** A process a launch may claim. */
  ghost predicate InTree(table: Table, p: Pid, root: Pid, rootStarted: nat) {
    p in table && !table[p].thread && Descends(table, p, root, rootStarted, MAX_ANCESTRY)
  }

  /** The tree in the order the snapshot lists its processes. */
  method Tree(table: Table, order: seq<Pid>, root: Pid, rootStarted: nat) returns (tree: seq<Pid>)
    requires forall p :: p in order ==> p in table
    ensures forall p :: p in tree <==> p in order && InTree(table, p, root, rootStarted)
  {
    tree := [];
    for i := 0 to |order|
      invariant forall p :: p in tree <==> p in order[..i] && InTree(table, p, root, rootStarted)
    {
      assert order[..i + 1] == order[..i] + [order[i]];
      var below := DescendsFrom(table, order[i], root, rootStarted);
      if !table[order[i]].thread && below {
        tree := tree + [order[i]];
      }
    }
    assert order[..|order|] == order;
  }

  ghost predicate ListsTree(tree: seq<Pid>, table: Table, root: Pid, rootStarted: nat) {
    forall p :: p in tree <==> InTree(table, p, root, rootStarted)
  }

  ghost predicate AllHeldByTree(l: Listening, table: Table, root: Pid, rootStarted: nat) {
    !l.unattributed && forall p :: p in l.pids ==> InTree(table, p, root, rootStarted)
  }

  predicate RunsAsStarted(table: Table, root: Pid, rootStarted: nat) {
    root in table && table[root].started == rootStarted
  }

  /** Which verdict an observation calls for. */
  ghost predicate Justified(v: EndpointOwner, listing: Option<Listening>, table: Table, root: Pid, rootStarted: nat) {
    if !RunsAsStarted(table, root, rootStarted) || listing.None? then v == Unknown
    else
      var l := listing.value;
      if l.pids == [] && !l.unattributed then v == Unbound
      else if !AllHeldByTree(l, table, root, rootStarted) then v == Foreign
      else
        && v.Owned? && v.pid in l.pids && v.pid in table && v.started == table[v.pid].started
        && ((exists p :: p in l.pids && p in table && table[p].serves) ==> table[v.pid].serves)
  }

  /** The first of the tree's holders that serves, or the first of them. */
  method PickHolder(table: Table, tree: seq<Pid>, l: Listening) returns (v: Option<Pid>)
    requires forall p :: p in tree ==> p in table
    ensures v.None? <==> forall p :: p in tree ==> p !in l.pids
    ensures v.Some? ==> v.value in tree && v.value in l.pids
    ensures v.Some? && (exists p :: p in tree && p in l.pids && table[p].serves) ==> table[v.value].serves
  {
    v := None;
    for i := 0 to |tree|
      invariant v.None? <==> forall p :: p in tree[..i] ==> p !in l.pids
      invariant v.Some? ==> v.value in tree && v.value in l.pids
      invariant forall p :: p in tree[..i] && p in l.pids ==> !table[p].serves
    {
      assert tree[..i + 1] == tree[..i] + [tree[i]];
      if tree[i] in l.pids {
        if table[tree[i]].serves {
          return Some(tree[i]);
        }
        if v.None? {
          v := Some(tree[i]);
        }
      }
    }
    assert tree[..|tree|] == tree;
  }

  /** `endpoint_owner_under`, with the listing as it answers for the tree's
      processes: the launch owns an endpoint exactly when every applicable
      holder descends from its root as it was started, and the last `Unknown`
      of the source is never reached. */
  method EndpointOwnerUnder(hostKnown: bool, table: Table, order: seq<Pid>, root: Pid, rootStarted: nat,
                            holders: seq<Pid> -> Option<Listening>)
    returns (v: EndpointOwner, ghost listing: Option<Listening>)
    requires forall p :: p in order <==> p in table
    ensures !hostKnown ==> v == Unknown
    ensures hostKnown ==> Justified(v, listing, table, root, rootStarted)
    ensures hostKnown && RunsAsStarted(table, root, rootStarted) ==>
              exists tree :: holders(tree) == listing && ListsTree(tree, table, root, rootStarted)
  {
    listing := None;
    if !hostKnown {
      return Unknown, None;
    }
    if !RunsAsStarted(table, root, rootStarted) {
      return Unknown, None;
    }
    var tree := Tree(table, order, root, rootStarted);
    var told := holders(tree);
    listing := told;
    assert ListsTree(tree, table, root, rootStarted);
    if told.None? {
      return Unknown, listing;
    }
    var l := told.value;
    if l.pids == [] && !l.unattributed {
      return Unbound, listing;
    }
    if l.unattributed || exists p :: p in l.pids && p !in tree {
      return Foreign, listing;
    }
    var picked := PickHolder(table, tree, l);
    assert l.pids[0] in l.pids;
    if picked.None? {
      v := Unknown;
    } else {
      v := Owned(picked.value, table[picked.value].started);
    }
  }

  /** An owned endpoint's every holder started no earlier than the root. */
  lemma {:induction false} OwnedHoldersAreYounger(v: EndpointOwner, l: Listening, table: Table, root: Pid,
                                                  rootStarted: nat, p: Pid)
    requires Justified(v, Some(l), table, root, rootStarted) && v.Owned? && p in l.pids
    ensures p in table && table[p].started >= rootStarted
    ensures Descends(table, p, root, rootStarted, MAX_ANCESTRY)
  {
    assert InTree(table, p, root, rootStarted);
    var path :| Ancestry(table, path, p, root, rootStarted) && |path| <= MAX_ANCESTRY;
    if p != root {
      assert Links(table, path[0], path[1]);
    }
  }

  // ---------- the verdict on an observation ----------

  predicate ParentOf(table: Table, child: Pid, parent: Pid) {
    child in table && parent in table && table[child].parent.Some? && table[child].parent.value == parent
  }

  /** At most 31 parent links lead to the root, through processes it does not
      postdate. */
  predicate Climbs(table: Table, path: seq<Pid>, p: Pid, root: Pid, rootStarted: nat) {
    && 1 <= |path| <= 32 && path[0] == p && path[|path| - 1] == root
    && forall i :: 0 <= i < |path| - 1 ==>
                     ParentOf(table, path[i], path[i + 1]) && rootStarted <= table[path[i]].started
  }

  /** The process, and no thread of it, descends from the root. */
  ghost predicate Claimed(table: Table, p: Pid, root: Pid, rootStarted: nat) {
    p in table && !table[p].thread && exists path :: Climbs(table, path, p, root, rootStarted)
  }

  lemma {:induction false} ClaimedIff(table: Table, p: Pid, root: Pid, rootStarted: nat)
    ensures Claimed(table, p, root, rootStarted) <==> InTree(table, p, root, rootStarted)
  {
    forall path ensures Climbs(table, path, p, root, rootStarted) <==>
                        Ancestry(table, path, p, root, rootStarted) && |path| <= MAX_ANCESTRY
    {
      forall i | 0 <= i < |path| - 1
        ensures ParentOf(table, path[i], path[i + 1]) <==> Links(table, path[i], path[i + 1])
      {
      }
    }
  }

  /** The verdict is `Unbound` when nothing applicable listens, `Owned` when
      every applicable holder is claimed and known, `Foreign` when one is not,
      and `Unknown` when the root is not running as started or the listing
      failed. An owner is one of the holders, serving if any of them serves. */
  lemma {:induction false} VerdictIff(v: EndpointOwner, listing: Option<Listening>, table: Table, root: Pid,
                                      rootStarted: nat)
    requires Justified(v, listing, table, root, rootStarted)
    ensures var runs := root in table && table[root].started == rootStarted;
            && (v == Unknown <==> !runs || listing.None?)
            && (v == Unbound <==> runs && listing == Some(Listening([], false)))
            && (v.Owned? <==>
                  runs && listing.Some? && !listing.value.unattributed && listing.value.pids != []
                  && forall p :: p in listing.value.pids ==> Claimed(table, p, root, rootStarted))
            && (v == Foreign <==>
                  runs && listing.Some?
                  && (listing.value.unattributed
                      || exists p :: p in listing.value.pids && !Claimed(table, p, root, rootStarted)))
    ensures v.Owned? ==>
              && listing.Some? && v.pid in listing.value.pids && v.pid in table && v.started == table[v.pid].started
              && ((exists p :: p in listing.value.pids && p in table && table[p].serves) ==> table[v.pid].serves)
  {
    forall p ensures Claimed(table, p, root, rootStarted) <==> InTree(table, p, root, rootStarted) {
      ClaimedIff(table, p, root, rootStarted);
    }
  }
}
