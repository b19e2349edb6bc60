/** Which workspaces a diff can reach (scripts/ci/plan-tests.ts, `affectedWorkspaces`). */
module Affected {
  import opened Grouping
  import opened Wrappers

  datatype Workspace = Workspace(name: string, directory: string, dependencies: seq<string>)

  /** A declared input of a workspace's tests: files at the root that match a glob. */
  datatype RootInput = RootInput(workspace: string, glob: string)

  /** Whether a file matches a glob. */
  type Matcher = (string, string) -> bool

  /** `docs/…`, or a Markdown file at the root: no test reads it. */
  predicate Inert(file: string) {
    || "docs/" <= file
    || (|file| > 3 && file[|file| - 3..] == ".md" && '/' !in file)
  }

  predicate Owns(w: Workspace, file: string) { w.directory + "/" <= file }

  /** The first workspace that holds the file. */
  function Owner(workspaces: seq<Workspace>, file: string): (r: Option<Workspace>)
    ensures r.None? <==> forall w :: w in workspaces ==> !Owns(w, file)
    ensures r.Some? ==> r.value in workspaces && Owns(r.value, file)
  {
    if workspaces == [] then None
    else if Owns(workspaces[0], file) then Some(workspaces[0])
    else Owner(workspaces[1..], file)
  }

  // ------------------------------------------------------------ specification

  /** A changed file outside every workspace, which says nothing about what it affects. */
  predicate Unowned(workspaces: seq<Workspace>, file: string) {
    !Inert(file) && Owner(workspaces, file).None?
  }

  /** The workspaces a changed file touches directly. */
  function Touched(workspaces: seq<Workspace>, inputs: seq<RootInput>, matches: Matcher, file: string): set<string> {
    if Inert(file) then {} else
    (set i | i in inputs && matches(i.glob, file) :: i.workspace) +
    (match Owner(workspaces, file) case None => {} case Some(w) => {w.name})
  }

  function Seeds(workspaces: seq<Workspace>, changed: seq<string>, inputs: seq<RootInput>, matches: Matcher): set<string> {
    set f, name | f in changed && name in Touched(workspaces, inputs, matches, f) :: name
  }

  /** Everything that depends on a member is a member. */
  ghost predicate Closed(workspaces: seq<Workspace>, s: set<string>) {
    forall w, d :: w in workspaces && d in w.dependencies && d in s ==> w.name in s
  }

  /** A chain of workspaces, each depending on the one before. */
  ghost predicate Chain(workspaces: seq<Workspace>, names: seq<string>) {
    names != [] && forall k :: 0 <= k < |names| - 1 ==> DependsOn(workspaces, names[k + 1], names[k])
  }

  ghost predicate DependsOn(workspaces: seq<Workspace>, name: string, dependency: string) {
    exists w :: w in workspaces && w.name == name && dependency in w.dependencies
  }

  ghost predicate HasUnowned(workspaces: seq<Workspace>, changed: seq<string>) {
    exists f :: f in changed && Unowned(workspaces, f)
  }

  /** `r` is what the diff affects: everything if some file has no owner, else the least closed set. */
  ghost predicate IsAffected(workspaces: seq<Workspace>, changed: seq<string>, inputs: seq<RootInput>, matches: Matcher, r: Option<set<string>>) {
    var seeds := Seeds(workspaces, changed, inputs, matches);
    && (r.None? <==> HasUnowned(workspaces, changed))
    && (r.Some? ==>
          && seeds <= r.value && Closed(workspaces, r.value)
          && forall t :: seeds <= t && Closed(workspaces, t) ==> r.value <= t)
  }

  // ------------------------------------------------------------ the algorithm

  /** The direct dependents of each name, one entry per declared dependency. */
  method DependentsOf(workspaces: seq<Workspace>) returns (dependents: map<string, seq<string>>)
    ensures forall dep, name :: name in Listed(dependents, dep) <==> DependsOn(workspaces, name, dep)
  {
    dependents := map[];
    for i := 0 to |workspaces|
      invariant forall dep, name :: name in Listed(dependents, dep) <==> DependsOn(workspaces[..i], name, dep)
    {
      var w := workspaces[i];
      ghost var before := dependents;
      for j := 0 to |w.dependencies|
        invariant forall dep, name :: name in Listed(dependents, dep) <==>
          name in Listed(before, dep) || (name == w.name && dep in w.dependencies[..j])
      {
        var dep := w.dependencies[j];
        assert w.dependencies[..j + 1] == w.dependencies[..j] + [dep];
        dependents := Push(dependents, dep, w.name);
      }
      assert w.dependencies[..|w.dependencies|] == w.dependencies;
      assert workspaces[..i + 1] == workspaces[..i] + [w];
      forall dep, name ensures DependsOn(workspaces[..i + 1], name, dep) <==>
        DependsOn(workspaces[..i], name, dep) || (name == w.name && dep in w.dependencies)
      {
        OneMoreWorkspace(workspaces[..i], w, name, dep);
      }
    }
    assert workspaces[..|workspaces|] == workspaces;
  }

  lemma OneMoreWorkspace(workspaces: seq<Workspace>, w: Workspace, name: string, dep: string)
    ensures DependsOn(workspaces + [w], name, dep) <==>
      DependsOn(workspaces, name, dep) || (name == w.name && dep in w.dependencies)
  {
    if name == w.name && dep in w.dependencies { assert w in workspaces + [w]; }
    if DependsOn(workspaces, name, dep) {
      var x :| x in workspaces && x.name == name && dep in x.dependencies;
      assert x in workspaces + [w];
    }
  }

  method AffectedWorkspaces(workspaces: seq<Workspace>, changed: seq<string>, inputs: seq<RootInput>, matches: Matcher)
    returns (r: Option<set<string>>)
    ensures IsAffected(workspaces, changed, inputs, matches, r)
  {
    var owners: set<string> := {};
    for i := 0 to |changed|
      invariant forall f :: f in changed[..i] ==> !Unowned(workspaces, f)
      invariant owners == Seeds(workspaces, changed[..i], inputs, matches)
    {
      var file := changed[i];
      assert changed[..i + 1] == changed[..i] + [file];
      if !Inert(file) {
        for j := 0 to |inputs|
          invariant owners == Seeds(workspaces, changed[..i], inputs, matches) +
            (set x | x in inputs[..j] && matches(x.glob, file) :: x.workspace)
        {
          assert inputs[..j + 1] == inputs[..j] + [inputs[j]];
          if matches(inputs[j].glob, file) { owners := owners + {inputs[j].workspace}; }
        }
        assert inputs[..|inputs|] == inputs;
        var owner := Owner(workspaces, file);
        if owner.None? {
          assert file in changed && Unowned(workspaces, file);
          return None;
        }
        owners := owners + {owner.value.name};
      }
      OneMoreFile(workspaces, changed[..i], inputs, matches, file);
    }
    assert changed[..|changed|] == changed;
    ghost var seeds := owners;
    var dependents := DependentsOf(workspaces);
    owners := Grow(workspaces, dependents, owners);
    r := Some(owners);
  }

  lemma OneMoreFile(workspaces: seq<Workspace>, changed: seq<string>, inputs: seq<RootInput>, matches: Matcher, file: string)
    ensures Seeds(workspaces, changed + [file], inputs, matches) ==
      Seeds(workspaces, changed, inputs, matches) + Touched(workspaces, inputs, matches, file)
  {
    forall name | name in Seeds(workspaces, changed, inputs, matches) + Touched(workspaces, inputs, matches, file)
      ensures name in Seeds(workspaces, changed + [file], inputs, matches)
    {
      if name in Touched(workspaces, inputs, matches, file) {
        assert file in changed + [file];
      } else {
        var f :| f in changed && name in Touched(workspaces, inputs, matches, f);
        assert f in changed + [file];
      }
    }
  }

  /** Nothing but what every closed set over the seeds must hold. */
  ghost predicate Forced(workspaces: seq<Workspace>, seeds: set<string>, s: set<string>) {
    forall t :: seeds <= t && Closed(workspaces, t) ==> s <= t
  }

  lemma ForcedMore(workspaces: seq<Workspace>, seeds: set<string>, s: set<string>, name: string, next: string)
    requires Forced(workspaces, seeds, s) && name in s && DependsOn(workspaces, next, name)
    ensures Forced(workspaces, seeds, s + {next})
    ensures next in set w | w in workspaces :: w.name
  {}

  ghost predicate SameElements(queue: seq<string>, s: set<string>) {
    forall x :: x in s <==> x in queue
  }

  /** The closure: a queue that grows while it is walked. */
  method Grow(workspaces: seq<Workspace>, dependents: map<string, seq<string>>, seeds: set<string>) returns (owners: set<string>)
    requires forall dep, name :: name in Listed(dependents, dep) <==> DependsOn(workspaces, name, dep)
    ensures seeds <= owners && Closed(workspaces, owners) && Forced(workspaces, seeds, owners)
  {
    hide Forced, Closed, DependsOn;
    owners := seeds;
    var queue := ListOf(seeds);
    ghost var universe := seeds + set w | w in workspaces :: w.name;
    SeedsForced(workspaces, seeds);
    var i := 0;
    while i < |queue|
      invariant 0 <= i <= |queue| && seeds <= owners <= universe && SameElements(queue, owners)
      invariant forall k :: 0 <= k < i ==> DependentsIn(workspaces, queue[k], owners)
      invariant Forced(workspaces, seeds, owners)
      decreases universe - owners, |queue| - i
    {
      ghost var before, walked := owners, queue;
      owners, queue := Enqueue(workspaces, seeds, queue[i], Listed(dependents, queue[i]), owners, queue);
      forall k | 0 <= k < i ensures DependentsIn(workspaces, queue[k], owners) {
        assert queue[k] == walked[k] && DependentsIn(workspaces, walked[k], before);
      }
      i := i + 1;
    }
    WalkedIsClosed(workspaces, queue, owners);
  }

  lemma SeedsForced(workspaces: seq<Workspace>, seeds: set<string>)
    ensures Forced(workspaces, seeds, seeds)
  {}

  ghost predicate DependentsIn(workspaces: seq<Workspace>, name: string, s: set<string>) {
    forall x :: DependsOn(workspaces, x, name) ==> x in s
  }

  lemma WalkedIsClosed(workspaces: seq<Workspace>, queue: seq<string>, s: set<string>)
    requires SameElements(queue, s) && forall k :: 0 <= k < |queue| ==> DependentsIn(workspaces, queue[k], s)
    ensures Closed(workspaces, s)
  {
    forall w, d | w in workspaces && d in w.dependencies && d in s ensures w.name in s {
      var k :| 0 <= k < |queue| && queue[k] == d;
      assert DependsOn(workspaces, w.name, queue[k]);
    }
  }

  /** Adds the dependents not seen before to the set and to the end of the queue. */
  method Enqueue(ghost workspaces: seq<Workspace>, ghost seeds: set<string>, ghost name: string, nexts: seq<string>, owners: set<string>, queue: seq<string>)
    returns (owners': set<string>, queue': seq<string>)
    requires SameElements(queue, owners) && name in owners && Forced(workspaces, seeds, owners)
    requires forall x :: x in nexts <==> DependsOn(workspaces, x, name)
    ensures SameElements(queue', owners') && Forced(workspaces, seeds, owners') && DependentsIn(workspaces, name, owners')
    ensures owners <= owners' <= owners + (set w | w in workspaces :: w.name) && queue <= queue'
    ensures owners' == owners ==> queue' == queue
  {
    hide Forced, DependsOn;
    owners', queue' := owners, queue;
    for j := 0 to |nexts|
      invariant SameElements(queue', owners') && Forced(workspaces, seeds, owners')
      invariant owners <= owners' <= owners + (set w | w in workspaces :: w.name) && queue <= queue'
      invariant owners' == owners ==> queue' == queue
      invariant forall k :: 0 <= k < j ==> nexts[k] in owners'
    {
      var next := nexts[j];
      if next !in owners' {
        ForcedMore(workspaces, seeds, owners', name, next);
        owners' := owners' + {next};
        queue' := queue' + [next];
      }
    }
  }

  /** The elements of a set in some order, as spreading a `Set` gives them. */
  method ListOf(s: set<string>) returns (r: seq<string>)
    ensures forall x :: x in r <==> x in s
  {
    r := [];
    var todo := s;
    while todo != {}
      invariant todo <= s && forall x :: x in r <==> x in s && x !in todo
      decreases todo
    {
      var x :| x in todo;
      todo := todo - {x};
      r := r + [x];
    }
  }

  // ------------------------------------------------------------ what the answer means

  /** No test reads a file under `docs/` or a Markdown file at the root. */
  lemma InertExactly(file: string)
    ensures Inert(file) <==>
      (exists rest :: file == "docs/" + rest) || (exists stem :: stem != "" && '/' !in stem && file == stem + ".md")
  {
    if Inert(file) {
      if "docs/" <= file {
        assert file == "docs/" + file[5..];
      } else {
        assert file == file[..|file| - 3] + ".md";
      }
    }
    if rest :| file == "docs/" + rest { assert file[..5] == "docs/"; }
    if stem :| stem != "" && '/' !in stem && file == stem + ".md" {
      assert file[|file| - 3..] == ".md";
      forall c | c in file ensures c != '/' { assert c in stem || c in ".md"; }
    }
  }

  /** The file lies in the directory of that workspace and of none listed before it. */
  predicate FirstHolder(workspaces: seq<Workspace>, k: nat, file: string)
    requires k < |workspaces|
  {
    workspaces[k].directory + "/" <= file && forall j :: 0 <= j < k ==> !(workspaces[j].directory + "/" <= file)
  }

  lemma {:induction false} OwnerIsFirst(workspaces: seq<Workspace>, file: string)
    ensures Owner(workspaces, file).Some? ==>
      exists k :: 0 <= k < |workspaces| && workspaces[k] == Owner(workspaces, file).value && FirstHolder(workspaces, k, file)
    ensures forall k :: 0 <= k < |workspaces| && FirstHolder(workspaces, k, file) ==> Owner(workspaces, file) == Some(workspaces[k])
  {
    if workspaces != [] {
      var rest := workspaces[1..];
      OwnerIsFirst(rest, file);
      if Owns(workspaces[0], file) {
        assert FirstHolder(workspaces, 0, file);
      } else {
        forall k | 0 <= k < |rest| ensures FirstHolder(workspaces, k + 1, file) <==> FirstHolder(rest, k, file) {
          assert forall j :: 0 < j <= k + 1 ==> workspaces[j] == rest[j - 1];
        }
        if Owner(rest, file).Some? {
          var k :| 0 <= k < |rest| && rest[k] == Owner(rest, file).value && FirstHolder(rest, k, file);
          assert FirstHolder(workspaces, k + 1, file) && workspaces[k + 1] == rest[k];
        }
        forall k | 0 <= k < |workspaces| && FirstHolder(workspaces, k, file) ensures Owner(workspaces, file) == Some(workspaces[k]) {
          assert k > 0 && FirstHolder(rest, k - 1, file);
        }
      }
    }
  }

  /** The file is read by tests and touches the workspace: by a declared input, or by lying in it. */
  ghost predicate Touches(workspaces: seq<Workspace>, inputs: seq<RootInput>, matches: Matcher, file: string, name: string) {
    && !(exists rest :: file == "docs/" + rest) && !(exists stem :: stem != "" && '/' !in stem && file == stem + ".md")
    && ((exists i :: i in inputs && i.workspace == name && matches(i.glob, file)) ||
        (exists k :: 0 <= k < |workspaces| && workspaces[k].name == name && FirstHolder(workspaces, k, file)))
  }

  /** The walk starts at the workspaces that some changed file touches, and gives up exactly on a file
      that tests may read and no workspace holds. */
  lemma StartsExactly(workspaces: seq<Workspace>, changed: seq<string>, inputs: seq<RootInput>, matches: Matcher, name: string)
    ensures name in Seeds(workspaces, changed, inputs, matches) <==> exists f :: f in changed && Touches(workspaces, inputs, matches, f, name)
    ensures HasUnowned(workspaces, changed) <==> exists f :: f in changed && Homeless(workspaces, f)
  {
    hide Inert, Owner, FirstHolder;
    forall f ensures name in Touched(workspaces, inputs, matches, f) <==> Touches(workspaces, inputs, matches, f, name) {
      InertExactly(f);
      OwnerIsFirst(workspaces, f);
    }
    hide Touched, Touches;
    forall f ensures Unowned(workspaces, f) <==> Homeless(workspaces, f) {
      InertExactly(f);
      assert Owner(workspaces, f).None? <==> forall w :: w in workspaces ==> !Owns(w, f);
    }
  }

  ghost predicate Homeless(workspaces: seq<Workspace>, file: string) {
    && !(exists rest :: file == "docs/" + rest) && !(exists stem :: stem != "" && '/' !in stem && file == stem + ".md")
    && forall w :: w in workspaces ==> !(w.directory + "/" <= file)
  }

  /** There is one answer. */
  lemma AffectedIsUnique(workspaces: seq<Workspace>, changed: seq<string>, inputs: seq<RootInput>, matches: Matcher, a: Option<set<string>>, b: Option<set<string>>)
    requires IsAffected(workspaces, changed, inputs, matches, a) && IsAffected(workspaces, changed, inputs, matches, b)
    ensures a == b
  {
    if a.Some? && b.Some? { assert a.value == b.value; }
  }

  /** Changing more files never affects fewer workspaces; "everything" is the top. */
  lemma AffectedIsMonotone(workspaces: seq<Workspace>, inputs: seq<RootInput>, matches: Matcher, fewer: seq<string>, more: seq<string>, a: Option<set<string>>, b: Option<set<string>>)
    requires forall f :: f in fewer ==> f in more
    requires IsAffected(workspaces, fewer, inputs, matches, a) && IsAffected(workspaces, more, inputs, matches, b)
    ensures b.None? || (a.Some? && a.value <= b.value)
  {
    if a.None? {
      var f :| f in fewer && Unowned(workspaces, f);
      assert f in more;
    }
    assert Seeds(workspaces, fewer, inputs, matches) <= Seeds(workspaces, more, inputs, matches);
  }

  ghost predicate ReachedBy(workspaces: seq<Workspace>, seeds: set<string>, name: string) {
    exists chain :: Chain(workspaces, chain) && chain[0] in seeds && chain[|chain| - 1] == name
  }

  /** A workspace is affected exactly when a chain of dependencies leads from it to a touched one. */
  lemma AffectedIsReached(workspaces: seq<Workspace>, changed: seq<string>, inputs: seq<RootInput>, matches: Matcher, r: Option<set<string>>, name: string)
    requires IsAffected(workspaces, changed, inputs, matches, r) && r.Some?
    ensures name in r.value <==> ReachedBy(workspaces, Seeds(workspaces, changed, inputs, matches), name)
  {
    var seeds := Seeds(workspaces, changed, inputs, matches);
    if ReachedBy(workspaces, seeds, name) {
      var chain :| Chain(workspaces, chain) && chain[0] in seeds && chain[|chain| - 1] == name;
      ChainStays(workspaces, chain, r.value, |chain| - 1);
    }
    ReachedIsClosed(workspaces, seeds, r.value);
    var reached := set x | x in r.value && ReachedBy(workspaces, seeds, x);
    assert r.value <= reached;
  }

  lemma ReachedIsClosed(workspaces: seq<Workspace>, seeds: set<string>, s: set<string>)
    requires seeds <= s && Closed(workspaces, s)
    ensures
      var reached := set x | x in s && ReachedBy(workspaces, seeds, x);
      seeds <= reached && Closed(workspaces, reached)
  {
    forall x | x in seeds ensures ReachedBy(workspaces, seeds, x) { assert Chain(workspaces, [x]); }
    forall w, d | w in workspaces && d in w.dependencies && ReachedBy(workspaces, seeds, d)
      ensures ReachedBy(workspaces, seeds, w.name)
    {
      var chain :| Chain(workspaces, chain) && chain[0] in seeds && chain[|chain| - 1] == d;
      ChainGrows(workspaces, chain, w.name);
    }
  }

  lemma ChainGrows(workspaces: seq<Workspace>, chain: seq<string>, name: string)
    requires Chain(workspaces, chain) && DependsOn(workspaces, name, chain[|chain| - 1])
    ensures Chain(workspaces, chain + [name])
  {
    hide DependsOn;
    var longer := chain + [name];
    forall k | 0 <= k < |longer| - 1 ensures DependsOn(workspaces, longer[k + 1], longer[k]) {
      if k < |chain| - 1 { assert DependsOn(workspaces, chain[k + 1], chain[k]); }
    }
  }

  lemma {:induction false} ChainStays(workspaces: seq<Workspace>, chain: seq<string>, s: set<string>, k: nat)
    requires Chain(workspaces, chain) && chain[0] in s && Closed(workspaces, s) && k < |chain|
    ensures chain[k] in s
  {
    if k > 0 {
      ChainStays(workspaces, chain, s, k - 1);
      assert DependsOn(workspaces, chain[k - 1 + 1], chain[k - 1]);
    }
  }
}
