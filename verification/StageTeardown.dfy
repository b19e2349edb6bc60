/** The nightly teardown of retired preview stages (scripts/preview-stage-orphan-sweep.ts). A stage
    is found again through what is left of it, so the order of destruction must never lose the last
    marker of a stage whose stack still stands. */
module StageTeardown {
  import opened Text
  import opened WorkerSweep
  import opened Wrappers

  // ------------------------------------------------------------ names

  const BRANCH := "pr-"
  const BUCKET := "maple-replay-blobs-pr-"

  /** `<prefix><digits>`; answers the digits. */
  function PrAfter(prefix: string, name: string): (r: Option<string>)
    ensures r.Some? ==> IsNumeral(r.value) && name == prefix + r.value
  {
    if prefix <= name && IsNumeral(name[|prefix|..]) then Some(name[|prefix|..]) else None
  }

  /** Exactly the names that spell a number after the prefix match. */
  lemma MatchesNumberedNames(prefix: string, name: string, pr: string)
    ensures PrAfter(prefix, name) == Some(pr) <==> IsNumeral(pr) && name == prefix + pr
  {
    if name == prefix + pr { assert name[|prefix|..] == pr; }
  }

  lemma PrAfterPrefix(prefix: string, pr: string)
    requires IsNumeral(pr)
    ensures PrAfter(prefix, prefix + pr) == Some(pr)
  {
    assert (prefix + pr)[|prefix|..] == pr;
  }

  /** A Worker whose name also looks like a replay bucket belongs to the same PR. */
  lemma WorkerAndBucketAgree(name: string)
    requires PrOf(name).Some? && PrAfter(BUCKET, name).Some?
    ensures PrOf(name) == PrAfter(BUCKET, name)
  {
    assert name[|BUCKET| - 1] == '-';
    var d := DigitsFrom(name, |name|);
    assert forall k :: |BUCKET| <= k < |name| ==> name[k] == PrAfter(BUCKET, name).value[k - |BUCKET|];
    assert d == |BUCKET|;
  }

  predicate Contains(name: string, part: string) { exists i :: 0 <= i <= |name| && part <= name[i..] }

  // ------------------------------------------------------------ the world

  /** What exists: PRs whose stack is not fully destroyed, Worker names, Neon branches by id, and
      R2 buckets with the keys they hold. */
  datatype World = World(stacks: set<string>, workers: set<string>, branches: map<string, string>, buckets: map<string, set<Ref>>)

  /** Every standing stack has its retained bucket. */
  ghost predicate Discoverable(w: World) {
    forall pr :: pr in w.stacks ==> IsNumeral(pr) && BUCKET + pr in w.buckets
  }

  /** From `a` to `b` things only disappear, and only things of the PRs in `gone`; a branch or a
      bucket, with what it holds, only of a PR whose stack no longer stands. */
  ghost predicate Narrowed(a: World, b: World, gone: set<string>) {
    && b.stacks <= a.stacks && b.workers <= a.workers && b.buckets.Keys <= a.buckets.Keys
    && (forall pr :: pr in a.stacks ==> pr in b.stacks || pr in gone)
    && (forall w :: w in a.workers ==> w in b.workers || (PrOf(w).Some? && PrOf(w).value in gone))
    && (forall id :: id in b.branches ==> id in a.branches && b.branches[id] == a.branches[id])
    && (forall id :: id in a.branches ==> id in b.branches || Cleared(b, gone, PrAfter(BRANCH, a.branches[id])))
    && (forall k :: k in a.buckets ==> (k in b.buckets && b.buckets[k] == a.buckets[k]) || Cleared(b, gone, PrAfter(BUCKET, k)))
  }

  ghost predicate Cleared(w: World, gone: set<string>, pr: Option<string>) {
    pr.Some? && pr.value in gone && pr.value !in w.stacks
  }

  lemma NarrowedThenNarrowed(a: World, b: World, c: World, g: set<string>, h: set<string>)
    requires Narrowed(a, b, g) && Narrowed(b, c, h)
    ensures Narrowed(a, c, g + h)
  {
    hide PrOf, PrAfter;
    forall id | id in a.branches && id !in c.branches
      ensures Cleared(c, g + h, PrAfter(BRANCH, a.branches[id]))
    {
      if id in b.branches { assert Cleared(c, h, PrAfter(BRANCH, b.branches[id])); }
    }
    forall k | k in a.buckets && !(k in c.buckets && c.buckets[k] == a.buckets[k])
      ensures Cleared(c, g + h, PrAfter(BUCKET, k))
    {
      if k in b.buckets && b.buckets[k] == a.buckets[k] { assert Cleared(c, h, PrAfter(BUCKET, k)); }
    }
  }

  lemma NarrowedKeepsDiscoverable(a: World, b: World, gone: set<string>)
    requires Narrowed(a, b, gone) && Discoverable(a)
    ensures Discoverable(b)
  {
    forall pr | pr in b.stacks
      ensures IsNumeral(pr) && BUCKET + pr in b.buckets
    {
      PrAfterPrefix(BUCKET, pr);
      assert BUCKET + pr in a.buckets;
    }
  }

  lemma NothingNarrowed(a: World)
    ensures Narrowed(a, a, {})
  {
  }

  // ------------------------------------------------------------ the APIs

  datatype Event = StageDestroyed(pr: string) | BranchRemoved(pr: string) | BucketTouched(pr: string)

  /** A branch or bucket is touched only after its stage was destroyed. */
  ghost predicate DestroyedFirst(log: seq<Event>) {
    forall i :: 0 <= i < |log| && !log[i].StageDestroyed? ==> StageDestroyed(log[i].pr) in log[..i]
  }

  lemma DestroyedFirstGrows(log: seq<Event>, e: Event)
    requires DestroyedFirst(log) && (e.StageDestroyed? || StageDestroyed(e.pr) in log)
    ensures DestroyedFirst(log + [e])
  {
    forall i | 0 <= i < |log + [e]| && !(log + [e])[i].StageDestroyed?
      ensures StageDestroyed((log + [e])[i].pr) in (log + [e])[..i]
    {
      assert (log + [e])[..i] == log[..i];
      assert log[..|log|] == log;
    }
  }

  datatype Listing = Missing | Failed | Page(keys: seq<string>)

  datatype BranchRow = BranchRow(id: string, name: string)

  const PAGE: nat := 1000
  const PAGES: nat := 10000

  /** GitHub, Cloudflare, Neon and `alchemy destroy`. Unless `faultless`, any of them may fail, and
      a failed call may have done part of its work; other writers may then also be adding objects.
      GitHub may answer that it does not know, but never answers wrongly. */
  class Cloud {
    var faultless: bool
    var world: World
    var truth: map<string, PreviewState>
    var active: set<string>
    ghost var log: seq<Event>

    constructor (faultless: bool, world: World, truth: map<string, PreviewState>, active: set<string>)
      ensures this.faultless == faultless && this.world == world && this.truth == truth && this.active == active
    {
      this.faultless, this.world, this.truth, this.active := faultless, world, truth, active;
      log := [];
    }

    /** GitHub reports the PR retired and no preview run of it is queued or running. */
    predicate Condemned(pr: string)
      reads this
    {
      pr in truth && truth[pr] == Retired && pr !in active
    }

    method FetchPreviewState(pr: string) returns (s: PreviewState)
      ensures s == Unknown || (pr in truth && s == truth[pr])
      ensures faultless && pr in truth ==> s == truth[pr]
    {
      var answers := *;
      s := if pr in truth && (faultless || answers) then truth[pr] else Unknown;
    }

    method HasActivePreviewRun(pr: string) returns (r: Option<bool>)
      ensures r == None || r == Some(pr in active)
      ensures faultless ==> r.Some?
    {
      var answers := *;
      r := if faultless || answers then Some(pr in active) else None;
    }

    method ListWorkers() returns (r: Option<seq<string>>)
      ensures faultless ==> r.Some?
      ensures r.Some? ==> forall w :: w in r.value <==> w in world.workers
    {
      var answers := *;
      if !faultless && !answers { return None; }
      var names: seq<string> := [];
      var todo := world.workers;
      while todo != {}
        invariant todo <= world.workers && forall w :: w in names <==> w in world.workers && w !in todo
        decreases todo
      {
        var w :| w in todo;
        todo := todo - {w};
        names := names + [w];
      }
      r := Some(names);
    }

    /** The buckets whose name contains the marker; the listing stops after one page. */
    ghost function Matching(): set<string>
      reads this`world
    {
      set b | b in world.buckets && Contains(b, BUCKET)
    }

    method ListBuckets() returns (r: Option<seq<string>>)
      ensures faultless ==> r.Some?
      ensures r.Some? ==> forall b :: b in r.value ==> b in world.buckets
      ensures r.Some? && |Matching()| <= PAGE ==> forall b :: b in Matching() ==> b in r.value
    {
      var answers := *;
      if !faultless && !answers { return None; }
      var page: seq<string> := [];
      var todo := set b | b in world.buckets && Contains(b, BUCKET);
      while todo != {} && |page| < PAGE
        invariant todo <= Matching()
        invariant forall b :: b in page <==> b in Matching() && b !in todo
        invariant |page| + |todo| == |Matching()|
        decreases todo
      {
        var b :| b in todo;
        todo := todo - {b};
        page := page + [b];
      }
      r := Some(page);
    }

    method ListBranches() returns (r: Option<seq<BranchRow>>)
      ensures faultless ==> r.Some?
      ensures r.Some? ==> forall row :: row in r.value ==> row.id in world.branches && row.name == world.branches[row.id]
      ensures r.Some? ==> forall id :: id in world.branches ==> BranchRow(id, world.branches[id]) in r.value
    {
      var answers := *;
      if !faultless && !answers { return None; }
      var rows: seq<BranchRow> := [];
      var todo := world.branches.Keys;
      while todo != {}
        invariant todo <= world.branches.Keys
        invariant forall row :: row in rows ==> row.id in world.branches && row.name == world.branches[row.id]
        invariant forall id :: id in world.branches && id !in todo ==> BranchRow(id, world.branches[id]) in rows
        decreases todo
      {
        var id :| id in todo;
        todo := todo - {id};
        rows := rows + [BranchRow(id, world.branches[id])];
      }
      r := Some(rows);
    }

    /** `alchemy destroy`. It retains the bucket; when it fails or times out, any part of the stage
        may be gone, and the stack counts as standing until all of it is. */
    method DestroyStage(pr: string) returns (ok: bool)
      requires DestroyedFirst(log)
      modifies `world, `log
      ensures DestroyedFirst(log) && old(log) <= log && (ok ==> StageDestroyed(pr) in log)
      ensures Narrowed(old(world), world, {pr}) && world.branches == old(world).branches && world.buckets == old(world).buckets
      ensures ok ==> pr !in world.stacks
      ensures faultless ==> ok
    {
      ok := *;
      ok := ok || faultless;
      var all := *;
      var left: set<string> := *;
      world := world.(
        stacks := if ok || all then world.stacks - {pr} else world.stacks,
        workers := set w | w in world.workers && (PrOf(w) != Some(pr) || (!ok && w in left)));
      if ok {
        DestroyedFirstGrows(log, StageDestroyed(pr));
        log := log + [StageDestroyed(pr)];
      }
    }

    /** True also when the branch is missing. */
    method DeleteBranch(id: string, ghost pr: string) returns (ok: bool)
      requires DestroyedFirst(log) && StageDestroyed(pr) in log
      modifies `world, `log
      ensures DestroyedFirst(log) && old(log) <= log
      ensures world == old(world) || world == old(world).(branches := old(world).branches - {id})
      ensures faultless ==> ok && id !in world.branches
    {
      DestroyedFirstGrows(log, BranchRemoved(pr));
      log := log + [BranchRemoved(pr)];
      ok := *;
      ok := ok || faultless;
      var effect := *;
      if ok || effect { world := world.(branches := world.branches - {id}); }
    }

    /** The first page of a bucket's keys. A row may lack its key, read as the empty string. */
    method ListObjects(bucket: string) returns (r: Listing)
      ensures faultless ==> (r.Missing? <==> bucket !in world.buckets) && !r.Failed?
      ensures faultless && r.Page? ==>
        && "" !in r.keys && (forall k :: k in r.keys ==> k in world.buckets[bucket])
        && (|world.buckets[bucket]| <= PAGE ==> forall k :: k in world.buckets[bucket] ==> k in r.keys)
        && |r.keys| == (if |world.buckets[bucket]| <= PAGE then |world.buckets[bucket]| else PAGE)
        && |set k: Ref | k in world.buckets[bucket] && k in r.keys| == |r.keys|
    {
      if !faultless { r := *; return; }
      if bucket !in world.buckets { return Missing; }
      var keys: seq<string> := [];
      var all := world.buckets[bucket];
      var todo := all;
      ghost var taken: set<Ref> := {};
      while todo != {} && |keys| < PAGE
        invariant todo <= all && taken == all - todo && |taken| == |keys| && |keys| <= PAGE
        invariant |keys| + |todo| == |all|
        invariant "" !in keys && forall k: Ref :: k in keys <==> k in taken
        decreases todo
      {
        var k :| k in todo;
        todo := todo - {k};
        taken := taken + {k};
        keys := keys + [k];
      }
      assert (set k: Ref | k in all && k in keys) == taken;
      r := Page(keys);
    }

    method DeleteObjects(bucket: string, keys: seq<string>, ghost pr: string) returns (ok: bool)
      requires DestroyedFirst(log) && StageDestroyed(pr) in log
      modifies `world, `log
      ensures DestroyedFirst(log) && old(log) <= log
      ensures world == old(world).(buckets := world.buckets) && world.buckets.Keys == old(world).buckets.Keys
      ensures forall b :: b in world.buckets && b != bucket ==> world.buckets[b] == old(world).buckets[b]
      ensures faultless && bucket in old(world).buckets ==>
        ok && world == old(world).(buckets := old(world).buckets[bucket := set k: Ref | k in old(world).buckets[bucket] && k !in keys])
    {
      DestroyedFirstGrows(log, BucketTouched(pr));
      log := log + [BucketTouched(pr)];
      ok := *;
      if bucket in world.buckets {
        var left: set<Ref> := *;
        if faultless {
          ok := true;
          left := set k: Ref | k in world.buckets[bucket] && k !in keys;
        }
        world := world.(buckets := world.buckets[bucket := left]);
      }
    }

    /** Refused while the bucket holds anything; true also when it is missing. */
    method DeleteBucket(bucket: string, ghost pr: string) returns (ok: bool)
      requires DestroyedFirst(log) && StageDestroyed(pr) in log
      modifies `world, `log
      ensures DestroyedFirst(log) && old(log) <= log
      ensures world == old(world) ||
        (bucket in old(world).buckets && old(world).buckets[bucket] == {} && world == old(world).(buckets := old(world).buckets - {bucket}))
      ensures faultless ==> (ok <==> bucket !in old(world).buckets || old(world).buckets[bucket] == {}) && (ok ==> bucket !in world.buckets)
    {
      DestroyedFirstGrows(log, BucketTouched(pr));
      log := log + [BucketTouched(pr)];
      var answers, effect := *, *;
      var allowed := bucket !in world.buckets || world.buckets[bucket] == {};
      ok := if faultless then allowed else answers;
      if allowed && (ok || effect) && bucket in world.buckets {
        world := world.(buckets := world.buckets - {bucket});
      }
    }
  }

  // ------------------------------------------------------------ the run

  /** The bucket among a stage's markers: the first one whose name has the bucket's shape. */
  function FirstBucket(markers: seq<string>): (r: Option<string>)
    ensures r.Some? ==> r.value in markers && PrAfter(BUCKET, r.value).Some?
    ensures r.None? ==> forall m :: m in markers ==> PrAfter(BUCKET, m).None?
  {
    if markers == [] then None
    else if PrAfter(BUCKET, markers[0]).Some? then Some(markers[0])
    else FirstBucket(markers[1..])
  }

  /** What one page of the bucket loop found: no bucket, a failed call, no objects, or a page removed. */
  datatype Removal = Gone | Stuck | Empty | More

  class Teardown {
    const cloud: Cloud
    var candidates: map<string, seq<string>>
    var branchIdByPr: map<string, string>
    var failures: seq<string>

    constructor (cloud: Cloud)
      ensures this.cloud == cloud && candidates == map[] && branchIdByPr == map[] && failures == []
    {
      this.cloud := cloud;
      candidates, branchIdByPr, failures := map[], map[], [];
    }

    /** Every marker that looks like a bucket is the candidate's own bucket, and every branch id
        is that of the candidate's own branch, if it still exists. */
    ghost predicate Own()
      reads this, cloud
    {
      && (forall pr :: pr in candidates ==> IsNumeral(pr))
      && (forall pr, m :: pr in candidates && m in candidates[pr] && PrAfter(BUCKET, m).Some? ==> m == BUCKET + pr)
      && (forall pr :: pr in branchIdByPr && branchIdByPr[pr] in cloud.world.branches ==>
           cloud.world.branches[branchIdByPr[pr]] == BRANCH + pr)
    }

    method AddCandidate(pr: string, marker: string)
      requires Own() && IsNumeral(pr) && (PrAfter(BUCKET, marker).Some? ==> marker == BUCKET + pr)
      modifies `candidates
      ensures Own()
      ensures candidates.Keys == old(candidates).Keys + {pr}
      ensures marker in candidates[pr]
      ensures forall p :: p in old(candidates) ==> forall m :: m in old(candidates)[p] ==> m in candidates[p]
    {
      candidates := candidates[pr := (if pr in candidates then candidates[pr] else []) + [marker]];
    }

    method AddWorkers(names: seq<string>)
      requires Own()
      modifies `candidates
      ensures Own()
      ensures forall p :: p in old(candidates) ==> p in candidates && forall m :: m in old(candidates)[p] ==> m in candidates[p]
      ensures forall w :: w in names && PrOf(w).Some? ==> PrOf(w).value in candidates
    {
      hide PrOf, DigitsFrom;
      for k := 0 to |names|
        invariant Own()
        invariant forall p :: p in old(candidates) ==> p in candidates && forall m :: m in old(candidates)[p] ==> m in candidates[p]
        invariant forall w :: w in names[..k] && PrOf(w).Some? ==> PrOf(w).value in candidates
      {
        var name := names[k];
        var pr := PrOf(name);
        if pr.Some? {
          PrOfIsPr(name);
          if PrAfter(BUCKET, name).Some? { WorkerAndBucketAgree(name); }
          AddCandidate(pr.value, name);
        }
        assert names[..k + 1] == names[..k] + [name];
      }
      assert names[..|names|] == names;
    }

    method AddBuckets(names: seq<string>)
      requires Own()
      modifies `candidates
      ensures Own()
      ensures forall p :: p in old(candidates) ==> p in candidates && forall m :: m in old(candidates)[p] ==> m in candidates[p]
      ensures forall pr :: IsNumeral(pr) && BUCKET + pr in names ==> pr in candidates && BUCKET + pr in candidates[pr]
    {
      for k := 0 to |names|
        invariant Own()
        invariant forall p :: p in old(candidates) ==> p in candidates && forall m :: m in old(candidates)[p] ==> m in candidates[p]
        invariant forall b :: b in names[..k] && PrAfter(BUCKET, b).Some? ==>
          PrAfter(BUCKET, b).value in candidates && b in candidates[PrAfter(BUCKET, b).value]
      {
        var name := names[k];
        var pr := PrAfter(BUCKET, name);
        if pr.Some? { AddCandidate(pr.value, name); }
        assert names[..k + 1] == names[..k] + [name];
      }
      assert names[..|names|] == names;
      forall pr | IsNumeral(pr) && BUCKET + pr in names
        ensures pr in candidates && BUCKET + pr in candidates[pr]
      {
        PrAfterPrefix(BUCKET, pr);
      }
    }

    method AddBranches(rows: seq<BranchRow>)
      requires Own() && branchIdByPr == map[]
      requires forall row :: row in rows && row.id in cloud.world.branches ==> cloud.world.branches[row.id] == row.name
      modifies `candidates, `branchIdByPr
      ensures Own()
      ensures forall p :: p in old(candidates) ==> p in candidates && forall m :: m in old(candidates)[p] ==> m in candidates[p]
      ensures forall row :: row in rows && row.id != "" && PrAfter(BRANCH, row.name).Some? ==>
        PrAfter(BRANCH, row.name).value in candidates && PrAfter(BRANCH, row.name).value in branchIdByPr
      ensures forall pr :: pr in branchIdByPr ==> BranchRow(branchIdByPr[pr], BRANCH + pr) in rows
    {
      for k := 0 to |rows|
        invariant Own()
        invariant forall p :: p in old(candidates) ==> p in candidates && forall m :: m in old(candidates)[p] ==> m in candidates[p]
        invariant forall row :: row in rows[..k] && row.id != "" && PrAfter(BRANCH, row.name).Some? ==>
          PrAfter(BRANCH, row.name).value in candidates && PrAfter(BRANCH, row.name).value in branchIdByPr
        invariant forall pr :: pr in branchIdByPr ==> BranchRow(branchIdByPr[pr], BRANCH + pr) in rows
      {
        var row := rows[k];
        var pr := PrAfter(BRANCH, row.name);
        if pr.Some? && row.id != "" {
          branchIdByPr := branchIdByPr[pr.value := row.id];
          assert row == BranchRow(row.id, BRANCH + pr.value);
          assert ("neon:" + row.name)[0] == 'n';
          AddCandidate(pr.value, "neon:" + row.name);
        }
        assert rows[..k + 1] == rows[..k] + [row];
      }
      assert rows[..|rows|] == rows;
    }

    /** Deletes one page of objects, listed from the start again: deleted keys have dropped out. */
    method RemovePage(bucket: string, ghost pr: string) returns (r: Removal)
      requires DestroyedFirst(cloud.log) && StageDestroyed(pr) in cloud.log
      modifies cloud`world, cloud`log
      ensures DestroyedFirst(cloud.log) && old(cloud.log) <= cloud.log
      ensures OnlyBucket(old(cloud.world), cloud.world, bucket)
      ensures cloud.faultless ==> r != Stuck && (r == Gone <==> bucket !in cloud.world.buckets)
      ensures cloud.faultless && bucket in cloud.world.buckets ==>
        && (r == Empty <==> old(cloud.world).buckets[bucket] == {})
        && |cloud.world.buckets[bucket]| ==
           if |old(cloud.world).buckets[bucket]| <= PAGE then 0 else |old(cloud.world).buckets[bucket]| - PAGE
    {
      hide DestroyedFirst;
      var listed := cloud.ListObjects(bucket);
      if listed.Missing? { return Gone; }
      if listed.Failed? { return Stuck; }
      var keys := NonEmpty(listed.keys);
      ghost var objects := if bucket in cloud.world.buckets then cloud.world.buckets[bucket] else {};
      if |keys| == 0 {
        if cloud.faultless { assert |objects| == 0; }
        return Empty;
      }
      var removed := cloud.DeleteObjects(bucket, keys, pr);
      if cloud.faultless { PageRemoved(objects, keys, cloud.world.buckets[bucket]); }
      r := if removed then More else Stuck;
    }

    /** Empties a bucket page by page, re-listing from the start, then deletes it. */
    method EmptyAndDeleteBucket(bucket: string, ghost pr: string) returns (ok: bool)
      requires bucket == BUCKET + pr && IsNumeral(pr) && pr !in cloud.world.stacks
      requires DestroyedFirst(cloud.log) && StageDestroyed(pr) in cloud.log
      modifies cloud`world, cloud`log
      ensures DestroyedFirst(cloud.log) && old(cloud.log) <= cloud.log
      ensures Narrowed(old(cloud.world), cloud.world, {pr})
      ensures cloud.world == old(cloud.world).(buckets := cloud.world.buckets)
      ensures cloud.faultless ==>
        (ok <==> bucket !in old(cloud.world).buckets || |old(cloud.world).buckets[bucket]| <= PAGES * PAGE)
      ensures cloud.faultless && ok ==> bucket !in cloud.world.buckets
      ensures cloud.faultless && !ok ==>
        bucket in cloud.world.buckets && |cloud.world.buckets[bucket]| == |old(cloud.world).buckets[bucket]| - PAGES * PAGE
    {
      hide PrOf, PrAfter, Narrowed, DestroyedFirst, OnlyBucket;
      ghost var w := cloud.world;
      SameBuckets(w, bucket);
      var page := 0;
      while page < PAGES
        invariant 0 <= page <= PAGES
        invariant OnlyBucket(w, cloud.world, bucket)
        invariant DestroyedFirst(cloud.log) && old(cloud.log) <= cloud.log
        invariant cloud.faultless && page > 0 ==> bucket in w.buckets
        invariant cloud.faultless && bucket in w.buckets ==> bucket in cloud.world.buckets && Drained(|w.buckets[bucket]|, page, |cloud.world.buckets[bucket]|)
      {
        ghost var x := cloud.world;
        BucketNarrowed(w, x, pr);
        var result := RemovePage(bucket, pr);
        OnlyBucketTwice(w, x, cloud.world, bucket);
        BucketNarrowed(w, cloud.world, pr);
        if result == Gone { return true; }
        if result == Stuck { return false; }
        if result == Empty { break; }
        page := page + 1;
      }
      ghost var y := cloud.world;
      ok := cloud.DeleteBucket(bucket, pr);
      BucketDropped(w, y, cloud.world, pr);
    }

    ghost function BranchId(pr: string): Option<string>
      reads this
    {
      if pr in branchIdByPr then Some(branchIdByPr[pr]) else None
    }

    /** Branch and bucket of a stage that was just destroyed. */
    method RemoveMarkers(pr: string, neon: bool)
      requires Own() && pr in candidates && pr !in cloud.world.stacks
      requires DestroyedFirst(cloud.log) && StageDestroyed(pr) in cloud.log
      modifies cloud`world, cloud`log, `failures
      ensures Own() && DestroyedFirst(cloud.log) && old(failures) <= failures
      ensures Narrowed(old(cloud.world), cloud.world, {pr}) && cloud.world.stacks == old(cloud.world).stacks
      ensures cloud.faultless ==>
        Ended(old(cloud.world), cloud.world, candidates[pr], pr, if neon then BranchId(pr) else None) &&
        (failures == old(failures) <==> !Unfinished(old(cloud.world), candidates[pr], pr))
    {
      hide PrOf, FirstBucket, Narrowed, DestroyedFirst, PrAfter;
      ghost var x := cloud.world;
      NothingNarrowed(x);
      if neon && pr in branchIdByPr {
        var ok := cloud.DeleteBranch(branchIdByPr[pr], pr);
        if !ok { failures := failures + ["neon:" + pr]; }
        BranchDropped(x, branchIdByPr[pr], pr);
      }
      ghost var y := cloud.world;
      assert Narrowed(x, y, {pr}) by { NoneForOne(x, pr); }
      var bucket := FirstBucket(candidates[pr]);
      PrAfterPrefix(BUCKET, pr);
      if bucket.Some? {
        assert bucket.value == BUCKET + pr;
        var ok := EmptyAndDeleteBucket(bucket.value, pr);
        if !ok { failures := failures + [bucket.value]; }
        NarrowedThenNarrowed(x, y, cloud.world, {pr}, {pr});
        assert {pr} + {pr} == {pr};
      }
    }

    /** One candidate: nothing happens unless its PR is retired and no run of it is active, and
        after a failed destroy its branch and bucket stay. */
    method TearDown(pr: string, neon: bool, dryRun: bool)
      requires Own() && pr in candidates && DestroyedFirst(cloud.log)
      modifies cloud`world, cloud`log, `failures
      ensures Own() && DestroyedFirst(cloud.log) && old(failures) <= failures
      ensures Narrowed(old(cloud.world), cloud.world, if cloud.Condemned(pr) then {pr} else {})
      ensures cloud.world != old(cloud.world) ==> pr in cloud.truth && cloud.truth[pr].Retired? && pr !in cloud.active
      ensures dryRun ==> cloud.world == old(cloud.world)
      ensures pr in cloud.world.stacks ==> cloud.world == old(cloud.world).(workers := cloud.world.workers)
      ensures cloud.faultless && !dryRun && cloud.Condemned(pr) ==>
        Ended(old(cloud.world), cloud.world, candidates[pr], pr, if neon then BranchId(pr) else None) &&
        (failures == old(failures) <==> !Unfinished(old(cloud.world), candidates[pr], pr))
      ensures cloud.faultless && (dryRun || !cloud.Condemned(pr)) ==> failures == old(failures)
    {
      hide PrOf, PrAfter, DestroyedFirst, Narrowed;
      ghost var w := cloud.world;
      NothingNarrowed(w);
      NoneForOne(w, pr);
      var state := cloud.FetchPreviewState(pr);
      if state != Retired { return; }
      var active := cloud.HasActivePreviewRun(pr);
      if active != Some(false) { return; }
      if dryRun { return; }
      var destroyed := cloud.DestroyStage(pr);
      if !destroyed {
        failures := failures + [pr];
        return;
      }
      ghost var x := cloud.world;
      NarrowedShrinks(w, x, {pr});
      RemoveMarkers(pr, neon);
      NarrowedThenNarrowed(w, x, cloud.world, {pr}, {pr});
      assert {pr} + {pr} == {pr};
    }

    /** The three listings; the run stops when one of them cannot be had. */
    method Discover(neon: bool) returns (listed: bool)
      requires candidates == map[] && branchIdByPr == map[]
      modifies `candidates, `branchIdByPr
      ensures Own()
      ensures cloud.faultless ==> listed
      ensures listed ==> forall w :: w in cloud.world.workers && PrOf(w).Some? ==> PrOf(w).value in candidates
      ensures listed && |cloud.Matching()| <= PAGE ==>
        forall pr :: IsNumeral(pr) && BUCKET + pr in cloud.world.buckets ==> pr in candidates && BUCKET + pr in candidates[pr]
      ensures listed && neon ==> forall id :: id in cloud.world.branches && id != "" && PrAfter(BRANCH, cloud.world.branches[id]).Some? ==>
        PrAfter(BRANCH, cloud.world.branches[id]).value in branchIdByPr && PrAfter(BRANCH, cloud.world.branches[id]).value in candidates
    {
      hide PrOf, Contains;
      var workers := cloud.ListWorkers();
      if workers.None? { return false; }
      AddWorkers(workers.value);
      var buckets := cloud.ListBuckets();
      if buckets.None? { return false; }
      AddBuckets(buckets.value);
      forall pr | IsNumeral(pr) && BUCKET + pr in cloud.world.buckets
        ensures BUCKET + pr in cloud.Matching()
      {
        ContainsPrefix(BUCKET, pr);
      }
      if neon {
        var branches := cloud.ListBranches();
        if branches.None? { return false; }
        AddBranches(branches.value);
        assert forall id :: id in cloud.world.branches ==> BranchRow(id, cloud.world.branches[id]) in branches.value;
      }
      listed := true;
    }

    /** One nightly run, stage by stage; `gone` are the PRs something was destroyed for. */
    method Run(neon: bool, dryRun: bool) returns (listed: bool, ghost gone: set<string>)
      requires candidates == map[] && branchIdByPr == map[] && failures == []
      modifies this, cloud`world, cloud`log
      ensures Narrowed(old(cloud.world), cloud.world, gone)
      ensures forall pr :: pr in gone ==> pr in cloud.truth && cloud.truth[pr].Retired? && pr !in cloud.active
      ensures DestroyedFirst(cloud.log)
      ensures dryRun ==> cloud.world == old(cloud.world)
      ensures Discoverable(old(cloud.world)) ==> Discoverable(cloud.world)
      ensures cloud.faultless ==> listed
      ensures listed && old(|cloud.Matching()|) <= PAGE ==>
        forall pr :: IsNumeral(pr) && BUCKET + pr in old(cloud.world).buckets ==> pr in candidates && BUCKET + pr in candidates[pr]
      ensures cloud.faultless && !dryRun ==> forall pr :: pr in candidates && cloud.Condemned(pr) ==>
        Ended(old(cloud.world), cloud.world, candidates[pr], pr, if neon then BranchId(pr) else None)
      ensures cloud.faultless && !dryRun ==>
        (failures == [] <==> forall pr :: pr in candidates && cloud.Condemned(pr) ==> !Unfinished(old(cloud.world), candidates[pr], pr))
    {
      hide PrOf, Narrowed, Oversized, DestroyedFirst, PrAfter, Ended, Unfinished, IsNumeral;
      ghost var w := cloud.world;
      gone := {};
      NothingNarrowed(w);
      cloud.log := [];
      EmptyLog();
      listed := Discover(neon);
      if !listed { return; }
      var pending := candidates.Keys;
      ghost var found := candidates;
      ghost var done: set<string> := {};
      while pending != {}
        invariant candidates == found && pending !! done && pending + done == candidates.Keys
        invariant Own() && DestroyedFirst(cloud.log) && Narrowed(w, cloud.world, gone)
        invariant gone == set pr | pr in done && cloud.Condemned(pr)
        invariant dryRun ==> cloud.world == w
        invariant cloud.faultless && !dryRun ==> forall pr :: pr in done && cloud.Condemned(pr) ==>
          Ended(w, cloud.world, candidates[pr], pr, if neon then BranchId(pr) else None)
        invariant cloud.faultless && !dryRun ==>
          (failures == [] <==> forall pr :: pr in done && cloud.Condemned(pr) ==> !Unfinished(w, candidates[pr], pr))
        decreases pending
      {
        var pr :| pr in pending;
        pending := pending - {pr};
        ghost var before := cloud.world;
        TearDown(pr, neon, dryRun);
        EndedSoFar(w, before, cloud.world, gone, candidates[pr], pr, if neon then BranchId(pr) else None);
        ghost var step := if cloud.Condemned(pr) then {pr} else {};
        NarrowedThenNarrowed(w, before, cloud.world, gone, step);
        EndedStays(w, before, cloud.world, step);
        gone := gone + step;
        done := done + {pr};
      }
      assert done == candidates.Keys;
      if Discoverable(w) { NarrowedKeepsDiscoverable(w, cloud.world, gone); }
    }
  }

  /** What a faultless run leaves of a condemned candidate, compared with the world it found. */
  ghost predicate Ended(before: World, after: World, markers: seq<string>, pr: string, branch: Option<string>) {
    && pr !in after.stacks
    && (branch.Some? ==> branch.value !in after.branches)
    && (BUCKET + pr in markers && BUCKET + pr in after.buckets ==> Oversized(before, pr))
  }

  /** The bucket is known and holds more than one run can delete. */
  ghost predicate Unfinished(before: World, markers: seq<string>, pr: string) {
    BUCKET + pr in markers && Oversized(before, pr)
  }

  lemma EndedStays(before: World, a: World, b: World, gone: set<string>)
    requires Narrowed(a, b, gone)
    ensures forall markers, pr, branch :: Ended(before, a, markers, pr, branch) ==> Ended(before, b, markers, pr, branch)
  {
    hide Oversized, PrOf, PrAfter;
  }

  /** A stage not reached yet looks as it did before the run. */
  lemma EndedSoFar(before: World, a: World, b: World, gone: set<string>, markers: seq<string>, pr: string, branch: Option<string>)
    requires Narrowed(before, a, gone) && pr !in gone && IsNumeral(pr)
    ensures Unfinished(a, markers, pr) == Unfinished(before, markers, pr)
    ensures Ended(a, b, markers, pr, branch) == Ended(before, b, markers, pr, branch)
  {
    hide PrOf, PrAfter;
    OthersUnchanged(before, a, gone, pr);
  }

  ghost predicate Oversized(w: World, pr: string) {
    BUCKET + pr in w.buckets && |w.buckets[BUCKET + pr]| > PAGES * PAGE
  }

  lemma NoneForOne(w: World, pr: string)
    ensures Narrowed(w, w, {pr})
  {
  }

  lemma BranchDropped(w: World, id: string, pr: string)
    requires IsNumeral(pr) && pr !in w.stacks && (id in w.branches ==> w.branches[id] == BRANCH + pr)
    ensures Narrowed(w, w.(branches := w.branches - {id}), {pr})
  {
    PrAfterPrefix(BRANCH, pr);
  }

  lemma EmptyLog()
    ensures DestroyedFirst([])
  {
  }

  lemma ContainsPrefix(prefix: string, rest: string)
    ensures Contains(prefix + rest, prefix)
  {
    assert prefix <= (prefix + rest)[0..];
  }

  /** What happened to other stages leaves this one's bucket as it was. */
  lemma OthersUnchanged(a: World, b: World, gone: set<string>, pr: string)
    requires Narrowed(a, b, gone) && pr !in gone
    ensures IsNumeral(pr) ==> Oversized(a, pr) == Oversized(b, pr)
  {
    if IsNumeral(pr) { PrAfterPrefix(BUCKET, pr); }
  }

  lemma NarrowedShrinks(a: World, b: World, gone: set<string>)
    requires Narrowed(a, b, gone)
    ensures b.stacks <= a.stacks && b.buckets.Keys <= a.buckets.Keys && b.branches.Keys <= a.branches.Keys
  {
  }

  /** How many of `start` objects are left after `page` full pages were deleted. */
  ghost predicate Drained(start: nat, page: nat, left: nat) {
    left == if start <= page * PAGE then 0 else start - page * PAGE
  }

  ghost predicate OnlyBucket(a: World, b: World, bucket: string) {
    && b == a.(buckets := b.buckets) && b.buckets.Keys == a.buckets.Keys
    && forall k :: k in b.buckets && k != bucket ==> b.buckets[k] == a.buckets[k]
  }

  lemma SameBuckets(w: World, bucket: string)
    ensures OnlyBucket(w, w, bucket)
  {
  }

  lemma OnlyBucketTwice(a: World, b: World, c: World, bucket: string)
    requires OnlyBucket(a, b, bucket) && OnlyBucket(b, c, bucket)
    ensures OnlyBucket(a, c, bucket)
  {
  }

  lemma BucketNarrowed(a: World, b: World, pr: string)
    requires OnlyBucket(a, b, BUCKET + pr) && IsNumeral(pr) && pr !in a.stacks
    ensures Narrowed(a, b, {pr}) && b == a.(buckets := b.buckets) && b.buckets.Keys == a.buckets.Keys
  {
    hide PrOf;
    PrAfterPrefix(BUCKET, pr);
  }

  lemma BucketDropped(a: World, b: World, c: World, pr: string)
    requires OnlyBucket(a, b, BUCKET + pr) && IsNumeral(pr) && pr !in a.stacks
    requires c == b || c == b.(buckets := b.buckets - {BUCKET + pr})
    ensures Narrowed(a, c, {pr}) && c == a.(buckets := c.buckets)
    ensures b.buckets.Keys == a.buckets.Keys
  {
    hide PrOf;
    PrAfterPrefix(BUCKET, pr);
  }

  function NonEmpty(keys: seq<string>): (r: seq<string>)
    ensures forall k :: k in r <==> k in keys && k != ""
    ensures "" !in keys ==> r == keys
  {
    if keys == [] then [] else (if keys[0] == "" then [] else [keys[0]]) + NonEmpty(keys[1..])
  }

  lemma PageRemoved(objects: set<Ref>, keys: seq<string>, left: set<Ref>)
    requires left == set k: Ref | k in objects && k !in keys
    ensures |left| == |objects| - |set k: Ref | k in objects && k in keys|
  {
    var gone := set k: Ref | k in objects && k in keys;
    assert objects == left + gone && left !! gone;
  }

  lemma PrOfIsPr(name: string)
    ensures PrOf(name).Some? ==> IsNumeral(PrOf(name).value)
  {
    if PrOf(name).Some? { var base := MatchIsPreviewName(name); }
  }

  // ------------------------------------------------------------ night after night

  /** Between two runs previews are deployed: nothing disappears, and a stack comes with its bucket. */
  ghost predicate Grown(a: World, b: World) {
    && a.stacks <= b.stacks && a.workers <= b.workers && a.branches.Keys <= b.branches.Keys && a.buckets.Keys <= b.buckets.Keys
    && (forall pr :: pr in b.stacks ==> pr in a.stacks || (IsNumeral(pr) && BUCKET + pr in b.buckets))
  }

  /** A deploy of one preview stage. */
  method Deploy(cloud: Cloud, pr: string, worker: string, branchId: string, objects: set<Ref>)
    requires IsNumeral(pr)
    modifies cloud`world
    ensures Grown(old(cloud.world), cloud.world) && pr in cloud.world.stacks
  {
    var w := cloud.world;
    cloud.world := World(w.stacks + {pr}, w.workers + {worker}, w.branches[branchId := BRANCH + pr], w.buckets[BUCKET + pr := objects]);
  }

  /** Any number of nights, each with deploys, any PR states, any failures of any call, dry or not. */
  method Nights(cloud: Cloud, nights: nat)
    requires Discoverable(cloud.world)
    modifies cloud
    ensures Discoverable(cloud.world)
  {
    hide PrOf, Narrowed;
    for n := 0 to nights
      invariant Discoverable(cloud.world)
    {
      var pr: string, worker: string, branchId: string, objects: set<Ref> := *, *, *, *;
      if IsNumeral(pr) { Deploy(cloud, pr, worker, branchId, objects); }
      cloud.faultless, cloud.truth, cloud.active := *, *, *;
      var neon, dryRun := *, *;
      var run := new Teardown(cloud);
      var listed, gone := run.Run(neon, dryRun);
    }
  }

  /** Whatever happened in earlier nights, a stage that still stands is found and finished by the
      first run without failures, as long as its PR is retired and the bucket listing fits one
      page; only a bucket beyond 10,000 pages needs further nights. */
  method FaultlessNight(cloud: Cloud, pr: string, neon: bool)
    requires Discoverable(cloud.world) && pr in cloud.world.stacks
    requires cloud.faultless && cloud.Condemned(pr) && |cloud.Matching()| <= PAGE
    modifies cloud`world, cloud`log
    ensures pr !in cloud.world.stacks && Discoverable(cloud.world)
    ensures BUCKET + pr in cloud.world.buckets ==> old(|cloud.world.buckets[BUCKET + pr]|) > 10000000
  {
    hide PrOf, Narrowed;
    var run := new Teardown(cloud);
    var listed, gone := run.Run(neon, false);
    assert pr in run.candidates;
  }
}
