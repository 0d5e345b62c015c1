/**
 Which crates a change affects (scripts/ci_affected.py): the owner of a
 changed file, the crates that depend on a changed one, and the selection.
 */
module CiAffected {
  import opened Text

  type Crate = string

  /** Each crate with the workspace crates it depends on. */
  type Deps = map<Crate, set<Crate>>

  predicate DependsOn(c: Crate, d: Crate, deps: Deps) { c in deps && d in deps[c] }

  /** A chain of dependencies. */
  predicate Chain(path: seq<Crate>, deps: Deps) {
    path != [] && forall i :: 0 <= i < |path| - 1 ==> DependsOn(path[i], path[i + 1], deps)
  }

  predicate Leads(path: seq<Crate>, c: Crate, seeds: set<Crate>, deps: Deps) {
    Chain(path, deps) && path[0] == c && path[|path| - 1] in seeds
  }

  /** A seed, or a crate that transitively depends on one. */
  ghost predicate Reaches(c: Crate, seeds: set<Crate>, deps: Deps) {
    exists path :: Leads(path, c, seeds, deps)
  }

  lemma {:induction false} SeedReaches(c: Crate, seeds: set<Crate>, deps: Deps)
    requires c in seeds
    ensures Reaches(c, seeds, deps)
  {
    assert Leads([c], c, seeds, deps);
  }

  lemma {:induction false} StepReaches(c: Crate, d: Crate, seeds: set<Crate>, deps: Deps)
    requires DependsOn(c, d, deps) && Reaches(d, seeds, deps)
    ensures Reaches(c, seeds, deps)
  {
    var path :| Leads(path, d, seeds, deps);
    var longer := [c] + path;
    forall i | 0 <= i < |longer| - 1 ensures DependsOn(longer[i], longer[i + 1], deps) {
      assert i > 0 ==> DependsOn(path[i - 1], path[i], deps);
    }
    assert Leads(longer, c, seeds, deps);
  }

  /** With the seeds and every direct dependent of a member, a set has all. */
  lemma {:induction false} ClosedHoldsChain(path: seq<Crate>, closed: set<Crate>, seeds: set<Crate>, deps: Deps)
    requires Chain(path, deps) && path[|path| - 1] in seeds && seeds <= closed
    requires forall c, d :: d in closed && DependsOn(c, d, deps) ==> c in closed
    ensures path[0] in closed
    decreases |path|
  {
    if |path| == 1 {
    } else {
      assert DependsOn(path[0], path[1], deps);
      var rest := path[1..];
      forall i | 0 <= i < |rest| - 1 ensures DependsOn(rest[i], rest[i + 1], deps) {
        assert DependsOn(path[i + 1], path[i + 2], deps);
      }
      ClosedHoldsChain(rest, closed, seeds, deps);
    }
  }

  /** `rev.get(d, ())`. */
  function DependentsIn(rev: map<Crate, set<Crate>>, d: Crate): set<Crate> { if d in rev then rev[d] else {} }

  ghost predicate IsReverse(rev: map<Crate, set<Crate>>, deps: Deps) {
    forall c, d :: c in DependentsIn(rev, d) <==> DependsOn(c, d, deps)
  }

  /** The dependency map read backwards. */
  method Reversed(deps: Deps) returns (rev: map<Crate, set<Crate>>)
    ensures IsReverse(rev, deps)
  {
    rev := map[];
    var crates := deps.Keys;
    while crates != {}
      invariant crates <= deps.Keys
      invariant forall c, d :: c in DependentsIn(rev, d) <==> DependsOn(c, d, deps) && c !in crates
      decreases |crates|
    {
      var crate :| crate in crates;
      var ds := deps[crate];
      while ds != {}
        invariant ds <= deps[crate]
        invariant forall c, d :: c in DependentsIn(rev, d) <==>
                                 DependsOn(c, d, deps) && (if c == crate then d !in ds else c !in crates)
        decreases |ds|
      {
        var d :| d in ds;
        rev := rev[d := DependentsIn(rev, d) + {crate}];
        ds := ds - {d};
      }
      crates := crates - {crate};
    }
  }

  /** Every member off the stack has its dependents in the set. */
  ghost predicate ClosedBut(affected: set<Crate>, stack: seq<Crate>, rev: map<Crate, set<Crate>>) {
    && (forall d :: d in stack ==> d in affected)
    && (forall d :: d in affected && d !in stack ==> DependentsIn(rev, d) <= affected)
  }

  ghost predicate AllReach(affected: set<Crate>, seeds: set<Crate>, deps: Deps) {
    forall c :: c in affected ==> c in seeds + deps.Keys && Reaches(c, seeds, deps)
  }

  /** `dependents_closure`: it ends on every graph, cycles included, with
      exactly the crates from which some seed is reached. */
  method DependentsClosure(seeds: set<Crate>, deps: Deps) returns (affected: set<Crate>)
    ensures forall c :: c in affected <==> Reaches(c, seeds, deps)
  {
    var rev := Reversed(deps);
    var stack := Listed(seeds);
    affected := seeds;
    Started(seeds, stack, deps, rev);
    while stack != []
      invariant Working(affected, stack, seeds, deps, rev)
      decreases |seeds + deps.Keys - affected|, |stack|
    {
      var d := stack[|stack| - 1];
      ghost var before, beforeStack := affected, stack;
      affected, stack := PushNew(DependentsIn(rev, d), affected, stack[..|stack| - 1]);
      Pushed(d, before, beforeStack, affected, stack, seeds, deps, rev);
    }
    Ended(affected, seeds, deps, rev);
  }

  ghost predicate Working(affected: set<Crate>, stack: seq<Crate>, seeds: set<Crate>, deps: Deps,
                          rev: map<Crate, set<Crate>>) {
    seeds <= affected && IsReverse(rev, deps) && AllReach(affected, seeds, deps) && ClosedBut(affected, stack, rev)
  }

  lemma {:induction false} Started(seeds: set<Crate>, stack: seq<Crate>, deps: Deps, rev: map<Crate, set<Crate>>)
    requires IsReverse(rev, deps) && forall c :: c in stack <==> c in seeds
    ensures Working(seeds, stack, seeds, deps, rev)
  {
    forall c | c in seeds ensures Reaches(c, seeds, deps) { SeedReaches(c, seeds, deps); }
  }

  lemma {:induction false} Pushed(d: Crate, before: set<Crate>, beforeStack: seq<Crate>, affected: set<Crate>,
                                  stack: seq<Crate>,
                                  seeds: set<Crate>, deps: Deps, rev: map<Crate, set<Crate>>)
    requires Working(before, beforeStack, seeds, deps, rev)
    requires beforeStack != [] && d == beforeStack[|beforeStack| - 1]
    requires affected == before + DependentsIn(rev, d) && beforeStack[..|beforeStack| - 1] <= stack
    requires forall c :: c in stack[|beforeStack| - 1..] <==> c in DependentsIn(rev, d) && c !in before
    ensures Working(affected, stack, seeds, deps, rev)
    ensures affected != before ==> |seeds + deps.Keys - affected| < |seeds + deps.Keys - before|
    ensures affected == before ==> |stack| < |beforeStack|
  {
    PushedReach(d, DependentsIn(rev, d), before, seeds, deps);
    PushedClosed(d, before, beforeStack, stack, rev);
    PushedFewer(before, affected, seeds, deps);
    if affected == before {
      NoneAdded(before, DependentsIn(rev, d), stack[|beforeStack| - 1..]);
    }
  }

  lemma {:induction false} NoneAdded(before: set<Crate>, dependents: set<Crate>, added: seq<Crate>)
    requires dependents <= before && forall c :: c in added ==> c in dependents && c !in before
    ensures added == []
  {
    HasMember(added);
  }

  lemma {:induction false} HasMember(list: seq<Crate>)
    ensures list == [] || exists c :: c in list
  {
    if list != [] {
      assert list[0] in list;
    }
  }

  lemma {:induction false} Ended(affected: set<Crate>, seeds: set<Crate>, deps: Deps, rev: map<Crate, set<Crate>>)
    requires Working(affected, [], seeds, deps, rev)
    ensures forall c :: c in affected <==> Reaches(c, seeds, deps)
  {
    forall c | Reaches(c, seeds, deps) ensures c in affected {
      var path :| Leads(path, c, seeds, deps);
      ClosedHoldsChain(path, affected, seeds, deps);
    }
  }

  /** The inner loop: each dependent not yet affected is added and pushed. */
  method PushNew(dependents: set<Crate>, before: set<Crate>, popped: seq<Crate>)
    returns (affected: set<Crate>, stack: seq<Crate>)
    ensures affected == before + dependents
    ensures popped <= stack && forall c :: c in stack[|popped|..] <==> c in dependents && c !in before
  {
    affected, stack := before, popped;
    ghost var added := [];
    var todo := dependents;
    while todo != {}
      invariant todo <= dependents && affected == before + (dependents - todo)
      invariant stack == popped + added
      invariant forall c :: c in added <==> c in dependents && c !in todo && c !in before
      decreases |todo|
    {
      var dep :| dep in todo;
      todo := todo - {dep};
      if dep !in affected {
        affected := affected + {dep};
        stack := stack + [dep];
        added := added + [dep];
      }
    }
  }

  lemma {:induction false} PushedReach(d: Crate, dependents: set<Crate>, before: set<Crate>, seeds: set<Crate>,
                                       deps: Deps)
    requires AllReach(before, seeds, deps) && d in before && forall c :: c in dependents ==> DependsOn(c, d, deps)
    ensures AllReach(before + dependents, seeds, deps)
  {
    forall c | c in dependents ensures Reaches(c, seeds, deps) { StepReaches(c, d, seeds, deps); }
  }

  lemma {:induction false} PushedClosed(d: Crate, before: set<Crate>, beforeStack: seq<Crate>, stack: seq<Crate>,
                                        rev: map<Crate, set<Crate>>)
    requires ClosedBut(before, beforeStack, rev) && beforeStack != [] && d == beforeStack[|beforeStack| - 1]
    requires beforeStack[..|beforeStack| - 1] <= stack
    requires forall c :: c in stack[|beforeStack| - 1..] <==> c in DependentsIn(rev, d) && c !in before
    ensures ClosedBut(before + DependentsIn(rev, d), stack, rev)
  {
    var n := |beforeStack| - 1;
    assert stack == beforeStack[..n] + stack[n..];
    forall e ensures e in stack <==> e in beforeStack[..n] || e in stack[n..] {}
    forall e ensures e in beforeStack <==> e in beforeStack[..n] || e == d {
      assert beforeStack == beforeStack[..n] + [d];
    }
  }

  lemma {:induction false} PushedFewer(before: set<Crate>, affected: set<Crate>, seeds: set<Crate>, deps: Deps)
    requires before <= affected && AllReach(affected, seeds, deps)
    ensures affected != before ==> |seeds + deps.Keys - affected| < |seeds + deps.Keys - before|
  {
    if affected != before {
      var x :| x in affected && x !in before;
      Fewer(seeds + deps.Keys - affected, seeds + deps.Keys - before, x);
    }
  }

  lemma {:induction false} Fewer(a: set<Crate>, b: set<Crate>, x: Crate)
    requires a <= b && x in b && x !in a
    ensures |a| < |b|
  {
    var rest := b - {x} - a;
    assert b == a + rest + {x};
    assert |a + rest| == |a| + |rest|;
  }

  /** The elements of a set, in some order. */
  method Listed(s: set<Crate>) returns (list: seq<Crate>)
    ensures forall c :: c in list <==> c in s
  {
    list := [];
    var rest := s;
    while rest != {}
      invariant rest <= s && forall c :: c in list <==> c in s && c !in rest
      decreases |rest|
    {
      var c :| c in rest;
      list := list + [c];
      rest := rest - {c};
    }
  }

  // ---------- the owner of a file ----------

  predicate Under(f: string, d: string) { f == d || d + "/" <= f }

  /** The longest member directory that contains a file. */
  predicate LongestOwner(d: string, f: string, dirs: map<string, Crate>) {
    d in dirs && Under(f, d) && forall e :: e in dirs && Under(f, e) ==> |e| <= |d|
  }

  /** It is the only one of its length, whatever order they are tried in. */
  lemma {:induction false} LongestOwnerUnique(d: string, e: string, f: string, dirs: map<string, Crate>)
    requires LongestOwner(d, f, dirs) && LongestOwner(e, f, dirs)
    ensures d == e
  {
    assert Prefix(d, f) && Prefix(e, f) by {
      if d + "/" <= f { assert f[..|d|] == (d + "/")[..|d|] == d; }
      if e + "/" <= f { assert f[..|e|] == (e + "/")[..|e|] == e; }
    }
  }

  predicate Prefix(d: string, f: string) { |d| <= |f| && f[..|d|] == d }

  /** The name of the longest owner; the root directory's name is never answered. */
  ghost predicate IsOwner(r: Option<Crate>, f: string, dirs: map<string, Crate>) {
    match r
    case Some(c) => exists d :: d != "" && LongestOwner(d, f, dirs) && dirs[d] == c
    case None => forall d :: d in dirs && Under(f, d) ==> d == ""
  }

  lemma {:induction false} IsOwnerUnique(r: Option<Crate>, q: Option<Crate>, f: string, dirs: map<string, Crate>)
    requires IsOwner(r, f, dirs) && IsOwner(q, f, dirs)
    ensures r == q
  {
    if r.Some? && q.Some? {
      var d :| d != "" && LongestOwner(d, f, dirs) && dirs[d] == r.value;
      var e :| e != "" && LongestOwner(e, f, dirs) && dirs[e] == q.value;
      LongestOwnerUnique(d, e, f, dirs);
    }
  }

  /** `owning_crate`. */
  method OwningCrate(f: string, dirs: map<string, Crate>) returns (r: Option<Crate>)
    ensures IsOwner(r, f, dirs)
  {
    var best: Option<string> := None;
    var rest := dirs.Keys;
    while rest != {}
      invariant rest <= dirs.Keys
      invariant best.None? ==> forall e :: e in dirs && e !in rest ==> !Under(f, e)
      invariant best.Some? ==>
                  && best.value in dirs && best.value !in rest && Under(f, best.value)
                  && forall e :: e in dirs && e !in rest && Under(f, e) ==> |e| <= |best.value|
      decreases |rest|
    {
      var d :| d in rest;
      rest := rest - {d};
      if Under(f, d) {
        if best.None? || |d| > |best.value| {
          best := Some(d);
        }
      }
    }
    if best.Some? && best.value != "" {
      assert LongestOwner(best.value, f, dirs);
      return Some(dirs[best.value]);
    }
    return None;
  }

  // ---------- the selection ----------

  datatype RustMode = All | Nothing | Subset
  datatype Selection = Selection(mode: RustMode, test: set<Crate>, clippy: set<Crate>, flutter: bool)

  predicate AnyStarts(files: seq<string>, prefixes: set<string>) {
    exists i, p :: 0 <= i < |files| && p in prefixes && p <= files[i]
  }

  const FLUTTER: set<string> := {"apps/flutter/"}
  const CI_INFRA: set<string> := {".github/", "scripts/"}
  const RUST_CROSS_EXACT: set<string> := {"Cargo.toml", "Cargo.lock", "rustfmt.toml"}
  const RUST_CROSS: set<string> := {".cargo/", "deps/", "vendor/"}

  /** `Path(f).name`: the last component that is not empty or a dot. */
  function PathName(parts: seq<string>): string {
    if parts == [] then ""
    else if parts[|parts| - 1] == "" || parts[|parts| - 1] == "." then PathName(parts[..|parts| - 1])
    else parts[|parts| - 1]
  }

  predicate CrossCutting(f: string) {
    || f in RUST_CROSS_EXACT
    || (exists p :: p in RUST_CROSS && p <= f)
    || "rust-toolchain" <= PathName(Split(f, '/'))
  }

  predicate AnyCrossCutting(files: seq<string>) { exists i :: 0 <= i < |files| && CrossCutting(files[i]) }

  ghost predicate Changed(c: Crate, files: seq<string>, dirs: map<string, Crate>) {
    exists i :: 0 <= i < |files| && IsOwner(Some(c), files[i], dirs)
  }

  /** The crates that own a changed file; an empty name counts as none. */
  method Seeds(files: seq<string>, dirs: map<string, Crate>) returns (seeds: set<Crate>)
    ensures forall c :: c in seeds <==> c != "" && Changed(c, files, dirs)
  {
    seeds := {};
    for i := 0 to |files|
      invariant forall c :: c in seeds <==> c != "" && Changed(c, files[..i], dirs)
    {
      var owner := OwningCrate(files[i], dirs);
      forall c ensures Changed(c, files[..i + 1], dirs) <==> Changed(c, files[..i], dirs) || owner == Some(c) {
        ChangedMore(c, files, i, owner, dirs);
      }
      if owner.Some? && owner.value != "" {
        seeds := seeds + {owner.value};
      }
    }
    assert files[..|files|] == files;
  }

  lemma {:induction false} ChangedMore(c: Crate, files: seq<string>, i: nat, owner: Option<Crate>,
                                       dirs: map<string, Crate>)
    requires i < |files| && IsOwner(owner, files[i], dirs)
    ensures Changed(c, files[..i + 1], dirs) <==> Changed(c, files[..i], dirs) || owner == Some(c)
  {
    var less, more := files[..i], files[..i + 1];
    if Changed(c, more, dirs) {
      var k :| 0 <= k < |more| && IsOwner(Some(c), more[k], dirs);
      if k == i {
        IsOwnerUnique(owner, Some(c), files[i], dirs);
      } else {
        assert IsOwner(Some(c), less[k], dirs);
      }
    }
    if Changed(c, less, dirs) {
      var k :| 0 <= k < |less| && IsOwner(Some(c), less[k], dirs);
      assert IsOwner(Some(c), more[k], dirs);
    }
    if owner == Some(c) {
      assert IsOwner(Some(c), more[i], dirs);
    }
  }

  /** Every crate that could behave differently is tested: all of them when
      the change cuts across, and otherwise each crate that reaches a changed
      one by dependencies. */
  ghost predicate Covers(s: Selection, files: seq<string>, dirs: map<string, Crate>, deps: Deps) {
    s.mode == All ||
    forall c, d :: d != "" && Changed(d, files, dirs) && Reaches(c, {d}, deps) ==> s.mode == Subset && c in s.test
  }

  /** Nothing is tested without such a reason. */
  ghost predicate Needed(s: Selection, files: seq<string>, dirs: map<string, Crate>, deps: Deps) {
    && (forall c :: c in s.test ==> exists d :: d != "" && Changed(d, files, dirs) && Reaches(c, {d}, deps))
    && (forall c :: c in s.clippy ==> Changed(c, files, dirs))
  }

  lemma {:induction false} ReachesOne(c: Crate, seeds: set<Crate>, deps: Deps)
    ensures Reaches(c, seeds, deps) <==> exists d :: d in seeds && Reaches(c, {d}, deps)
  {
    if Reaches(c, seeds, deps) {
      var path :| Leads(path, c, seeds, deps);
      var d := path[|path| - 1];
      assert Leads(path, c, {d}, deps);
      assert d in seeds && Reaches(c, {d}, deps);
    }
    if d :| d in seeds && Reaches(c, {d}, deps) {
      var path :| Leads(path, c, {d}, deps);
      assert Leads(path, c, seeds, deps);
    }
  }

  /** `detect`, given the changed files and the workspace graph. */
  method Detect(changed: Option<seq<string>>, dirs: map<string, Crate>, deps: Deps) returns (s: Selection)
    ensures changed.None? ==> s == Selection(All, {}, {}, true)
    ensures changed.Some? ==>
              && Covers(s, changed.value, dirs, deps) && Needed(s, changed.value, dirs, deps)
              && s.flutter == AnyStarts(changed.value, FLUTTER + CI_INFRA)
              && (s.mode == All <==> AnyStarts(changed.value, CI_INFRA) || AnyCrossCutting(changed.value))
              && (s.mode == All ==> s.test == {} && s.clippy == {})
              && (s.mode == Nothing ==> forall c :: c != "" ==> !Changed(c, changed.value, dirs))
              && (s.mode == Subset ==> exists c :: c != "" && Changed(c, changed.value, dirs))
    ensures changed.Some? && s.mode != All ==>
              forall c :: c in s.clippy <==> c != "" && Changed(c, changed.value, dirs)
  {
    if changed.None? {
      return Selection(All, {}, {}, true);
    }
    var files := changed.value;
    if files == [] {
      assert forall d :: !Changed(d, files, dirs);
      return Selection(Nothing, {}, {}, false);
    }
    var flutter := AnyStarts(files, FLUTTER);
    if AnyStarts(files, CI_INFRA) {
      return Selection(All, {}, {}, true);
    }
    NotInfra(files);
    if AnyCrossCutting(files) {
      return Selection(All, {}, {}, flutter);
    }
    var seeds := Seeds(files, dirs);
    if seeds == {} {
      return Selection(Nothing, {}, {}, flutter);
    }
    var test := DependentsClosure(seeds, deps);
    s := Selection(Subset, test, seeds, flutter);
    forall c, d | d != "" && Changed(d, files, dirs) && Reaches(c, {d}, deps) ensures c in s.test {
      ReachesOne(c, seeds, deps);
    }
    forall c | c in s.test ensures exists d :: d != "" && Changed(d, files, dirs) && Reaches(c, {d}, deps) {
      ReachesOne(c, seeds, deps);
    }
  }

  lemma {:induction false} NotInfra(files: seq<string>)
    requires !AnyStarts(files, CI_INFRA)
    ensures AnyStarts(files, FLUTTER) == AnyStarts(files, FLUTTER + CI_INFRA)
  {
    if AnyStarts(files, FLUTTER + CI_INFRA) {
      var i, p :| 0 <= i < |files| && p in FLUTTER + CI_INFRA && p <= files[i];
      assert p in FLUTTER;
    }
  }

  // ---------- the tests on paths ----------

  /** Which changed files trigger everything, and which the app's own checks. */
  lemma {:induction false} TriggersIff(files: seq<string>)
    ensures AnyStarts(files, CI_INFRA) <==> exists f :: f in files && (".github/" <= f || "scripts/" <= f)
    ensures AnyStarts(files, FLUTTER + CI_INFRA) <==>
            exists f :: f in files && ("apps/flutter/" <= f || ".github/" <= f || "scripts/" <= f)
    ensures AnyCrossCutting(files) <==> exists f :: f in files && CrossCutting(f)
  {
    forall f | f in files ensures exists i :: 0 <= i < |files| && files[i] == f {}
    Trigger(files, CI_INFRA, ".github/");
    Trigger(files, CI_INFRA, "scripts/");
    Trigger(files, FLUTTER + CI_INFRA, "apps/flutter/");
    Trigger(files, FLUTTER + CI_INFRA, ".github/");
    Trigger(files, FLUTTER + CI_INFRA, "scripts/");
    if AnyStarts(files, CI_INFRA) {
      var i, p :| 0 <= i < |files| && p in CI_INFRA && p <= files[i];
      assert files[i] in files;
    }
    if AnyStarts(files, FLUTTER + CI_INFRA) {
      var i, p :| 0 <= i < |files| && p in FLUTTER + CI_INFRA && p <= files[i];
      assert files[i] in files;
    }
  }

  lemma {:induction false} Trigger(files: seq<string>, prefixes: set<string>, p: string)
    requires p in prefixes
    ensures (exists f :: f in files && p <= f) ==> AnyStarts(files, prefixes)
  {
    if f :| f in files && p <= f {
      var i :| 0 <= i < |files| && files[i] == f;
      assert p <= files[i];
    }
  }

  /** The name of a path is its last component. */
  lemma {:induction false} PathNameIs(dir: string, name: string)
    requires '/' !in name && name != "" && name != "."
    ensures PathName(Split(dir + ['/'] + name, '/')) == name && PathName(Split(name, '/')) == name
  {
    SplitWhole(name, '/');
    SplitAppend(dir, '/', name);
    var parts := Split(dir + ['/'] + name, '/');
    assert parts == Split(dir, '/') + [name];
    assert parts[|parts| - 1] == name;
  }

  /** ... whatever slashes and dots follow. */
  lemma {:induction false} PathNameSkips(path: string)
    ensures PathName(Split(path + ['/'], '/')) == PathName(Split(path, '/'))
    ensures PathName(Split(path + ['/'] + ".", '/')) == PathName(Split(path, '/'))
    ensures PathName(Split("", '/')) == "" && PathName(Split(".", '/')) == ""
  {
    SplitAppend(path, '/', "");
    SplitAppend(path, '/', ".");
    SplitWhole(".", '/');
    assert path + ['/'] + "" == path + ['/'];
    PathNameSnoc(Split(path, '/'), "");
    PathNameSnoc(Split(path, '/'), ".");
    PathNameSnoc([], "");
    PathNameSnoc([], ".");
  }

  lemma {:induction false} PathNameSnoc(parts: seq<string>, last: string)
    ensures PathName(parts + [last]) == if last == "" || last == "." then PathName(parts) else last
    ensures PathName([]) == "" && [] + [last] == [last]
  {
    assert (parts + [last])[..|parts|] == parts;
  }

  /** A change cuts across when it is to a workspace file, to the shared build
      inputs, or to a file named like the toolchain's. */
  lemma {:induction false} CrossCuttingIff(f: string)
    ensures CrossCutting(f) <==>
            || f == "Cargo.toml" || f == "Cargo.lock" || f == "rustfmt.toml"
            || ".cargo/" <= f || "deps/" <= f || "vendor/" <= f
            || "rust-toolchain" <= PathName(Split(f, '/'))
  {
    assert RUST_CROSS == {".cargo/", "deps/", "vendor/"};
    assert ".cargo/" in RUST_CROSS && "deps/" in RUST_CROSS && "vendor/" in RUST_CROSS;
  }

  /** The owner is named by the longest member directory that is the path or
      holds it. */
  lemma {:induction false} OwnerIff(c: Crate, f: string, dirs: map<string, Crate>)
    ensures IsOwner(Some(c), f, dirs) <==>
            exists d :: d != "" && d in dirs && dirs[d] == c && (f == d || d + "/" <= f)
                        && forall e :: e in dirs && (f == e || e + "/" <= f) ==> |e| <= |d|
    ensures IsOwner(None, f, dirs) <==> forall d :: d in dirs && d != "" ==> f != d && !(d + "/" <= f)
  {
  }

  lemma {:induction false} DependsOnIff(c: Crate, d: Crate, deps: Deps)
    ensures DependsOn(c, d, deps) <==> c in deps && d in deps[c]
    ensures DependsOn(c, d, deps) ==> Reaches(c, {d}, deps)
    ensures Reaches(c, {c}, deps)
  {
    SeedReaches(c, {c}, deps);
    SeedReaches(d, {d}, deps);
    if DependsOn(c, d, deps) {
      StepReaches(c, d, {d}, deps);
    }
  }
}
