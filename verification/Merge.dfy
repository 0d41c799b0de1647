/** Merging job groups and resolving include aliases (pkg/pipeline/merge.go). */
module Merge {
  import opened DependencyGraph
  import opened Finite
  import opened Wrappers
  import opened Pipeline

  datatype Conflict = ConflictError | ConflictSkip

  datatype JobGroup = JobGroup(jobs: seq<Job>, origin: string, onConflict: Conflict)

  /** A job together with what its group says about name collisions. */
  datatype Item = Item(job: Job, onConflict: Conflict)

  function Tagged(jobs: seq<Job>, c: Conflict): (items: seq<Item>)
    ensures |items| == |jobs| && forall i | 0 <= i < |jobs| :: items[i] == Item(jobs[i], c)
  {
    seq(|jobs|, i requires 0 <= i < |jobs| => Item(jobs[i], c))
  }

  /** All jobs in document order; group boundaries leave no trace. */
  function Flatten(groups: seq<JobGroup>): seq<Item> {
    if groups == [] then [] else
      var last := groups[|groups| - 1];
      Flatten(groups[..|groups| - 1]) + Tagged(last.jobs, last.onConflict)
  }

  predicate NameTaken(items: seq<Item>, n: Name) {
    exists x | x in items :: x.job.name == n
  }

  /** Some job that may not be skipped comes after another of the same name. */
  ghost predicate Conflicts(items: seq<Item>) {
    exists i :: 0 <= i < |items| && items[i].onConflict == ConflictError
                && NameTaken(items[..i], items[i].job.name)
  }

  /** The first job of each name, in document order. */
  function FirstOnes(items: seq<Item>): seq<Job> {
    if items == [] then [] else
      var front, last := items[..|items| - 1], items[|items| - 1];
      FirstOnes(front) + (if NameTaken(front, last.job.name) then [] else [last.job])
  }

  lemma ConflictsStay(items: seq<Item>, more: seq<Item>)
    requires Conflicts(items)
    ensures Conflicts(items + more)
  {
    var i :| 0 <= i < |items| && items[i].onConflict == ConflictError
             && NameTaken(items[..i], items[i].job.name);
    assert (items + more)[..i] == items[..i];
  }

  /** One more item: it conflicts, is dropped, or is appended. */
  lemma ItemGrows(items: seq<Item>, x: Item)
    ensures Conflicts(items + [x]) <==>
              Conflicts(items) || (x.onConflict == ConflictError && NameTaken(items, x.job.name))
    ensures FirstOnes(items + [x]) ==
              FirstOnes(items) + (if NameTaken(items, x.job.name) then [] else [x.job])
  {
    var longer := items + [x];
    assert longer[..|items|] == items;
    if Conflicts(items) {
      ConflictsStay(items, [x]);
    }
    if Conflicts(longer) {
      var i :| 0 <= i < |longer| && longer[i].onConflict == ConflictError
               && NameTaken(longer[..i], longer[i].job.name);
      if i < |items| {
        assert longer[..i] == items[..i];
      }
    }
  }

  /** The merge is up to date with `items`: no conflict yet, and the first of each name kept. */
  ghost predicate MergedUpTo(items: seq<Item>, merged: seq<Job>, seen: set<Name>) {
    && !Conflicts(items)
    && merged == FirstOnes(items)
    && forall n :: n in seen <==> NameTaken(items, n)
  }

  lemma {:induction false} MergeStep(items: seq<Item>, x: Item, merged: seq<Job>, seen: set<Name>)
    requires MergedUpTo(items, merged, seen)
    ensures x.job.name in seen && x.onConflict == ConflictSkip ==> MergedUpTo(items + [x], merged, seen)
    ensures x.job.name in seen && x.onConflict == ConflictError ==> Conflicts(items + [x])
    ensures x.job.name !in seen ==> MergedUpTo(items + [x], merged + [x.job], seen + {x.job.name})
  {
    ItemGrows(items, x);
    assert forall y :: y in items + [x] <==> y in items || y == x;
  }

  lemma NextGroup(groups: seq<JobGroup>, i: nat)
    requires i < |groups|
    ensures Flatten(groups[..i + 1])
         == Flatten(groups[..i]) + Tagged(groups[i].jobs, groups[i].onConflict)
  {
    assert groups[..i + 1][..i] == groups[..i];
  }

  /** The groups before `g` and its first `j` jobs are merged. */
  ghost predicate GroupMerged(g: JobGroup, before: seq<Item>, j: nat, merged: seq<Job>, seen: set<Name>) {
    j <= |g.jobs| && MergedUpTo(before + Tagged(g.jobs[..j], g.onConflict), merged, seen)
  }

  lemma {:induction false} GroupStep(g: JobGroup, before: seq<Item>, j: nat, merged: seq<Job>, seen: set<Name>)
    requires j < |g.jobs| && GroupMerged(g, before, j, merged, seen)
    ensures var name := g.jobs[j].name;
            && (name in seen && g.onConflict == ConflictSkip ==> GroupMerged(g, before, j + 1, merged, seen))
            && (name in seen && g.onConflict == ConflictError ==> Conflicts(before + Tagged(g.jobs, g.onConflict)))
            && (name !in seen ==> GroupMerged(g, before, j + 1, merged + [g.jobs[j]], seen + {name}))
  {
    var done, x := before + Tagged(g.jobs[..j], g.onConflict), Item(g.jobs[j], g.onConflict);
    MergeStep(done, x, merged, seen);
    TaggedNext(before, g.jobs, j, g.onConflict);
    if x.job.name in seen && g.onConflict == ConflictError {
      ConflictsStay(done + [x], Tagged(g.jobs[j + 1..], g.onConflict));
      TaggedRest(before, g.jobs, j + 1, g.onConflict);
    }
  }

  lemma TaggedNext(before: seq<Item>, jobs: seq<Job>, j: nat, c: Conflict)
    requires j < |jobs|
    ensures before + Tagged(jobs[..j + 1], c) == before + Tagged(jobs[..j], c) + [Item(jobs[j], c)]
  {
    assert Tagged(jobs[..j + 1], c) == Tagged(jobs[..j], c) + [Item(jobs[j], c)];
  }

  lemma TaggedSplit(jobs: seq<Job>, j: nat, c: Conflict)
    requires j <= |jobs|
    ensures Tagged(jobs[..j], c) + Tagged(jobs[j..], c) == Tagged(jobs, c)
  {
  }

  lemma TaggedRest(before: seq<Item>, jobs: seq<Job>, j: nat, c: Conflict)
    requires j <= |jobs|
    ensures before + Tagged(jobs[..j], c) + Tagged(jobs[j..], c) == before + Tagged(jobs, c)
  {
    TaggedSplit(jobs, j, c);
    Associative(before, Tagged(jobs[..j], c), Tagged(jobs[j..], c));
  }

  lemma Associative(a: seq<Item>, b: seq<Item>, c: seq<Item>)
    ensures a + b + c == a + (b + c)
  {
  }

  lemma {:induction false} WholeGroup(g: JobGroup, before: seq<Item>, merged: seq<Job>, seen: set<Name>)
    ensures MergedUpTo(before, merged, seen) <==> GroupMerged(g, before, 0, merged, seen)
    ensures MergedUpTo(before + Tagged(g.jobs, g.onConflict), merged, seen)
       <==> GroupMerged(g, before, |g.jobs|, merged, seen)
  {
    assert before + Tagged(g.jobs[..0], g.onConflict) == before;
    assert g.jobs[..|g.jobs|] == g.jobs;
  }

  lemma KeyAdded(seen: map<Name, string>, name: Name, origin: string)
    ensures seen[name := origin].Keys == seen.Keys + {name}
  {
  }

  /** The inner loop: one more group. */
  method MergeGroup(g: JobGroup, ghost before: seq<Item>, mergedBefore: seq<Job>, seenBefore: map<Name, string>)
    returns (ok: bool, merged: seq<Job>, seen: map<Name, string>)
    requires MergedUpTo(before, mergedBefore, seenBefore.Keys)
    ensures ok ==> MergedUpTo(before + Tagged(g.jobs, g.onConflict), merged, seen.Keys)
    ensures !ok ==> Conflicts(before + Tagged(g.jobs, g.onConflict))
  {
    merged, seen := mergedBefore, seenBefore;
    WholeGroup(g, before, merged, seen.Keys);
    for j := 0 to |g.jobs|
      invariant GroupMerged(g, before, j, merged, seen.Keys)
    {
      var name := g.jobs[j].name;
      GroupStep(g, before, j, merged, seen.Keys);
      if name in seen {
        if g.onConflict == ConflictSkip {
          continue;
        }
        return false, merged, seen;
      }
      KeyAdded(seen, name, g.origin);
      seen := seen[name := g.origin];
      merged := merged + [g.jobs[j]];
    }
    WholeGroup(g, before, merged, seen.Keys);
    return true, merged, seen;
  }

  /** Fails exactly on a collision no strategy allows; otherwise keeps the first of each name. */
  method MergeJobs(groups: seq<JobGroup>) returns (r: Result<seq<Job>, Error>)
    ensures r.Err? <==> Conflicts(Flatten(groups))
    ensures r.Err? ==> r.error == DuplicateJob
    ensures r.Ok? ==> r.value == FirstOnes(Flatten(groups))
  {
    var merged: seq<Job> := [];
    var seen: map<Name, string> := map[];
    for i := 0 to |groups|
      invariant MergedUpTo(Flatten(groups[..i]), merged, seen.Keys)
    {
      ghost var before := Flatten(groups[..i]);
      NextGroup(groups, i);
      var ok;
      ok, merged, seen := MergeGroup(groups[i], before, merged, seen);
      if !ok {
        PrefixConflicts(groups, i + 1);
        return Err(DuplicateJob);
      }
    }
    assert groups[..|groups|] == groups;
    return Ok(merged);
  }

  lemma {:induction false} PrefixConflicts(groups: seq<JobGroup>, i: nat)
    requires i <= |groups| && Conflicts(Flatten(groups[..i]))
    ensures Conflicts(Flatten(groups))
    decreases |groups| - i
  {
    if i == |groups| {
      assert groups[..i] == groups;
    } else {
      assert groups[..i + 1][..i] == groups[..i];
      ConflictsStay(Flatten(groups[..i]), Tagged(groups[i].jobs, groups[i].onConflict));
      PrefixConflicts(groups, i + 1);
    }
  }

  /** Every merged job is taken from the input. */
  lemma {:induction false} FirstOnesComeFrom(items: seq<Item>, j: Job)
    requires j in FirstOnes(items)
    ensures NameTaken(items, j.name) && exists x :: x in items && x.job == j
  {
    var front, last := items[..|items| - 1], items[|items| - 1];
    assert items == front + [last];
    if j in FirstOnes(front) {
      FirstOnesComeFrom(front, j);
    } else {
      assert last in items && last.job == j;
    }
  }

  lemma {:induction false} EveryNameIsKept(items: seq<Item>, x: Item)
    requires x in items
    ensures exists j :: j in FirstOnes(items) && j.name == x.job.name
  {
    var front, last := items[..|items| - 1], items[|items| - 1];
    assert items == front + [last];
    if NameTaken(front, x.job.name) {
      var y :| y in front && y.job.name == x.job.name;
      EveryNameIsKept(front, y);
    } else {
      assert x == last && last.job in FirstOnes(items);
    }
  }

  lemma {:induction false} FirstOnesAreDistinct(items: seq<Item>)
    ensures UniqueNames(FirstOnes(items))
  {
    if items != [] {
      var front, last := items[..|items| - 1], items[|items| - 1];
      FirstOnesAreDistinct(front);
      forall i | 0 <= i < |FirstOnes(front)|
        ensures NameTaken(front, FirstOnes(front)[i].name)
      {
        FirstOnesComeFrom(front, FirstOnes(front)[i]);
      }
    }
  }

  /** The merged list has unique names, names every job that came in, and takes each job from
      the input. */
  lemma FirstOnesAreUnique(items: seq<Item>)
    ensures UniqueNames(FirstOnes(items))
    ensures forall j | j in FirstOnes(items) :: exists x :: x in items && x.job == j
    ensures forall x | x in items :: exists j :: j in FirstOnes(items) && j.name == x.job.name
  {
    FirstOnesAreDistinct(items);
    forall j | j in FirstOnes(items)
      ensures exists x :: x in items && x.job == j
    {
      FirstOnesComeFrom(items, j);
    }
    forall x | x in items
      ensures exists j :: j in FirstOnes(items) && j.name == x.job.name
    {
      EveryNameIsKept(items, x);
    }
  }

  /** Where nothing conflicts, a job of an error group is never dropped. */
  lemma {:induction false} ErrorGroupsAreKept(items: seq<Item>, x: Item)
    requires !Conflicts(items) && x in items && x.onConflict == ConflictError
    ensures x.job in FirstOnes(items)
  {
    var front, last := items[..|items| - 1], items[|items| - 1];
    assert items == front + [last];
    ItemGrows(front, last);
    if x in front {
      ErrorGroupsAreKept(front, x);
    }
  }

  /** Nor is a job whose name no earlier item has. */
  lemma {:induction false} FirstOfItsNameIsKept(items: seq<Item>, k: nat)
    requires k < |items| && !NameTaken(items[..k], items[k].job.name)
    ensures items[k].job in FirstOnes(items)
    decreases |items|
  {
    var n := |items| - 1;
    if k < n {
      assert items[..n][..k] == items[..k];
      FirstOfItsNameIsKept(items[..n], k);
    }
  }

  /** Of jobs that come in together, none of which may be dropped or meets an earlier name, each
      is kept. */
  lemma TaggedJobIsKept(before: seq<Item>, jobs: seq<Job>, c: Conflict, after: seq<Item>, k: nat)
    requires UniqueNames(jobs) && k < |jobs| && !Conflicts(before + Tagged(jobs, c) + after)
    requires c == ConflictError || !NameTaken(before, jobs[k].name)
    ensures jobs[k] in FirstOnes(before + Tagged(jobs, c) + after)
  {
    var items, own := before + Tagged(jobs, c) + after, Tagged(jobs, c);
    var n := |before| + k;
    assert items[n] == own[k];
    if c == ConflictError {
      assert own[k] in items;
      ErrorGroupsAreKept(items, own[k]);
    } else {
      assert items[..n] == before + own[..k];
      assert forall x | x in own[..k] :: exists i :: 0 <= i < k && x == Item(jobs[i], c);
      FirstOfItsNameIsKept(items, n);
    }
  }

  // ----- Terminal jobs -----

  predicate IsDepended(jobs: seq<Job>, n: Name) {
    exists j | j in jobs :: n in j.dependsOn
  }

  function TerminalsAmong(some: seq<Job>, all: seq<Job>): seq<Name> {
    if some == [] then [] else
      TerminalsAmong(some[..|some| - 1], all)
      + (if IsDepended(all, some[|some| - 1].name) then [] else [some[|some| - 1].name])
  }

  /** The names, in order, of the jobs no job of the list depends on. */
  function Terminals(jobs: seq<Job>): seq<Name> {
    TerminalsAmong(jobs, jobs)
  }

  lemma {:induction false} TerminalMembers(some: seq<Job>, all: seq<Job>, n: Name)
    ensures n in TerminalsAmong(some, all) <==>
              !IsDepended(all, n) && exists j :: j in some && j.name == n
  {
    if some != [] {
      var front, last := some[..|some| - 1], some[|some| - 1];
      TerminalMembers(front, all, n);
      assert forall j :: j in some <==> j in front || j == last;
      assert some[|some| - 1] in some;
    }
  }

  method TerminalJobs(jobs: seq<Job>) returns (terminals: seq<Name>)
    ensures terminals == Terminals(jobs)
  {
    var depended: set<Name> := {};
    for i := 0 to |jobs|
      invariant forall n :: n in depended <==> IsDepended(jobs[..i], n)
    {
      ghost var before := depended;
      var deps := jobs[i].dependsOn;
      for k := 0 to |deps|
        invariant forall n :: n in depended <==> n in before || n in deps[..k]
      {
        depended := depended + {deps[k]};
        assert deps[..k + 1] == deps[..k] + [deps[k]];
      }
      assert deps[..|deps|] == deps;
      assert jobs[..i + 1] == jobs[..i] + [jobs[i]];
    }
    assert jobs[..|jobs|] == jobs;
    terminals := [];
    for i := 0 to |jobs|
      invariant terminals == TerminalsAmong(jobs[..i], jobs)
    {
      assert jobs[..i + 1][..i] == jobs[..i];
      if jobs[i].name !in depended {
        terminals := terminals + [jobs[i].name];
      }
    }
  }

  // ----- Aliases -----

  type Aliases = map<Name, seq<Name>>

  /** What a dependency stands for: an alias's terminals, or itself. An alias without
      terminals stands for itself too. */
  function Expansion(dep: Name, aliases: Aliases): seq<Name> {
    if dep in aliases && aliases[dep] != [] then aliases[dep] else [dep]
  }

  function Expansions(deps: seq<Name>, aliases: Aliases): seq<Name> {
    if deps == [] then [] else
      Expansions(deps[..|deps| - 1], aliases) + Expansion(deps[|deps| - 1], aliases)
  }

  /** The first occurrence of every element. */
  function Dedup(names: seq<Name>): seq<Name> {
    if names == [] then [] else
      var front, last := names[..|names| - 1], names[|names| - 1];
      Dedup(front) + (if last in front then [] else [last])
  }

  lemma {:induction false} DedupKeepsMembers(names: seq<Name>)
    ensures forall n :: n in Dedup(names) <==> n in names
    ensures forall i, k | 0 <= i < k < |Dedup(names)| :: Dedup(names)[i] != Dedup(names)[k]
  {
    if names != [] {
      var front, last := names[..|names| - 1], names[|names| - 1];
      DedupKeepsMembers(front);
      assert names == front + [last];
    }
  }

  lemma {:induction false} ExpansionMembers(deps: seq<Name>, aliases: Aliases, n: Name)
    ensures n in Expansions(deps, aliases) <==> exists d :: d in deps && n in Expansion(d, aliases)
  {
    if deps != [] {
      var front, last := deps[..|deps| - 1], deps[|deps| - 1];
      ExpansionMembers(front, aliases, n);
      assert forall d :: d in deps <==> d in front || d == last;
    }
  }

  lemma DedupStep(names: seq<Name>, t: Name)
    ensures Dedup(names + [t]) == Dedup(names) + (if t in names then [] else [t])
  {
    assert (names + [t])[..|names|] == names;
  }

  lemma NextExpansion(deps: seq<Name>, aliases: Aliases, i: nat)
    requires i < |deps|
    ensures Expansions(deps[..i + 1], aliases) == Expansions(deps[..i], aliases) + Expansion(deps[i], aliases)
  {
    assert deps[..i + 1][..i] == deps[..i];
  }

  /** `deduped` and `seen` are up to date with `done`. */
  ghost predicate DedupedUpTo(done: seq<Name>, seen: set<Name>, deduped: seq<Name>) {
    deduped == Dedup(done) && forall n :: n in seen <==> n in done
  }

  lemma DedupedStep(done: seq<Name>, seen: set<Name>, deduped: seq<Name>, t: Name)
    requires DedupedUpTo(done, seen, deduped)
    ensures t in seen ==> DedupedUpTo(done + [t], seen, deduped)
    ensures t !in seen ==> DedupedUpTo(done + [t], seen + {t}, deduped + [t])
  {
    DedupStep(done, t);
  }

  /** The inner loop: the targets not seen before are appended. */
  method AppendNew(ghost before: seq<Name>, targets: seq<Name>, seenBefore: set<Name>, dedupedBefore: seq<Name>)
    returns (seen: set<Name>, deduped: seq<Name>)
    requires DedupedUpTo(before, seenBefore, dedupedBefore)
    ensures DedupedUpTo(before + targets, seen, deduped)
  {
    seen, deduped := seenBefore, dedupedBefore;
    ghost var done := before;
    for k := 0 to |targets|
      invariant done == before + targets[..k]
      invariant DedupedUpTo(done, seen, deduped)
    {
      var t := targets[k];
      DedupedStep(done, seen, deduped, t);
      done := done + [t];
      if t !in seen {
        seen := seen + {t};
        deduped := deduped + [t];
      }
    }
    assert targets[..|targets|] == targets;
  }

  method ExpandDeps(deps: seq<Name>, aliases: Aliases) returns (deduped: seq<Name>)
    ensures deduped == Dedup(Expansions(deps, aliases))
  {
    var seen: set<Name> := {};
    deduped := [];
    for i := 0 to |deps|
      invariant DedupedUpTo(Expansions(deps[..i], aliases), seen, deduped)
    {
      var targets := if deps[i] in aliases then aliases[deps[i]] else [];
      if targets == [] {
        targets := [deps[i]];
      }
      NextExpansion(deps, aliases, i);
      seen, deduped := AppendNew(Expansions(deps[..i], aliases), targets, seen, deduped);
    }
    assert deps[..|deps|] == deps;
  }

  /** An alias has the name of a job it does not merely stand for. */
  predicate Collides(jobs: seq<Job>, aliases: Aliases) {
    exists a | a in aliases :: a in Names(jobs) && aliases[a] != [a]
  }

  ghost predicate IsExpanded(jobs: seq<Job>, aliases: Aliases, out: seq<Job>) {
    && |out| == |jobs|
    && forall i | 0 <= i < |jobs| ::
         out[i] == jobs[i].(dependsOn := Dedup(Expansions(jobs[i].dependsOn, aliases)))
  }

  /** The check that runs before anything is rewritten. */
  method CheckCollisions(jobs: seq<Job>, aliases: Aliases) returns (collides: bool)
    ensures collides == Collides(jobs, aliases)
  {
    var jobNames: set<Name> := {};
    for i := 0 to |jobs|
      invariant forall n :: n in jobNames <==> n in Names(jobs[..i])
    {
      jobNames := jobNames + {jobs[i].name};
      assert Names(jobs[..i + 1]) == Names(jobs[..i]) + [jobs[i].name];
    }
    assert jobs[..|jobs|] == jobs;
    var pending := aliases.Keys;
    while pending != {}
      invariant pending <= aliases.Keys
      invariant forall a | a in aliases && a !in pending :: a !in jobNames || aliases[a] == [a]
      decreases pending
    {
      var alias :| alias in pending;
      pending := pending - {alias};
      if alias in jobNames {
        if |aliases[alias]| == 1 && aliases[alias][0] == alias {
          assert aliases[alias] == [alias];
          continue;
        }
        return true;
      }
    }
    return false;
  }

  method ExpandAliases(jobs: seq<Job>, aliases: Aliases) returns (r: Result<seq<Job>, Error>)
    ensures aliases == map[] ==> r == Ok(jobs)
    ensures aliases != map[] ==> (r.Err? <==> Collides(jobs, aliases))
    ensures aliases != map[] && r.Ok? ==> IsExpanded(jobs, aliases, r.value)
    ensures r.Err? ==> r.error == AliasCollision
  {
    if aliases == map[] {
      return Ok(jobs);
    }
    var collides := CheckCollisions(jobs, aliases);
    if collides {
      return Err(AliasCollision);
    }
    var result: seq<Job> := [];
    for i := 0 to |jobs|
      invariant IsExpanded(jobs[..i], aliases, result)
    {
      var c := jobs[i];
      if |jobs[i].dependsOn| > 0 {
        var deps := ExpandDeps(jobs[i].dependsOn, aliases);
        c := c.(dependsOn := deps);
      }
      result := result + [c];
    }
    return Ok(result);
  }

  // ----- Coverage -----

  /** `a` depends on `b` directly or through others. */
  ghost predicate DependsOn(g: Graph, a: Name, b: Name) {
    exists d :: Edge(g, a, d) && Reach(g, d, b)
  }

  ghost function Above(g: Graph, n: Name): set<Name> {
    set x | x in g && Reach(g, x, n)
  }

  lemma AboveShrinks(g: Graph, p: Name, n: Name)
    requires !Cyclic(g) && Edge(g, p, n) && n in g
    ensures |Above(g, p)| < |Above(g, n)|
  {
    forall x | x in Above(g, p)
      ensures x in Above(g, n)
    {
      ReachStep(g, x, p, n);
    }
    ReachSelf(g, n);
    if Reach(g, n, p) {
      EdgeBackIsCycle(g, p, n);
    }
    assert n in Above(g, n) && n !in Above(g, p);
    SmallerSet(Above(g, p), Above(g, n));
  }

  /** In an acyclic file every job lies below a terminal one. */
  lemma {:induction false} ClimbToTerminal(file: seq<Job>, n: Name) returns (t: Name)
    requires UniqueNames(file) && !Cyclic(GraphOf(file)) && n in GraphOf(file)
    ensures t in Terminals(file) && Reach(GraphOf(file), t, n)
    decreases |Above(GraphOf(file), n)|
  {
    var g := GraphOf(file);
    TerminalMembers(file, file, n);
    if IsDepended(file, n) {
      var j :| j in file && n in j.dependsOn;
      var i :| 0 <= i < |file| && file[i] == j;
      GraphAt(file, i);
      assert Edge(g, j.name, n);
      AboveShrinks(g, j.name, n);
      t := ClimbToTerminal(file, j.name);
      ReachStep(g, t, j.name, n);
    } else {
      var i := IndexOfName(file, n);
      assert file[i] in file;
      t := n;
      ReachSelf(g, n);
    }
  }

  /** Expansion leaves a dependency on a real job alone. */
  lemma JobDependenciesStay(jobs: seq<Job>, aliases: Aliases, out: seq<Job>, i: nat, d: Name)
    requires IsExpanded(jobs, aliases, out) && !Collides(jobs, aliases)
    requires i < |jobs| && d in jobs[i].dependsOn && d in Names(jobs)
    ensures d in out[i].dependsOn
  {
    assert d in Expansion(d, aliases);
    ExpansionMembers(jobs[i].dependsOn, aliases, d);
    DedupKeepsMembers(Expansions(jobs[i].dependsOn, aliases));
  }

  /** Every job of `file` is in `jobs`, as far as the graph goes. */
  ghost predicate HoldsFile(jobs: seq<Job>, file: seq<Job>) {
    forall i | 0 <= i < |file| :: SameNodeIn(jobs, file[i])
  }

  ghost predicate SameNodeIn(jobs: seq<Job>, f: Job) {
    exists k :: 0 <= k < |jobs| && jobs[k].name == f.name && jobs[k].dependsOn == f.dependsOn
  }

  lemma FilePathsSurvive(
    jobs: seq<Job>, aliases: Aliases, out: seq<Job>, file: seq<Job>, a: Name, b: Name)
    requires IsExpanded(jobs, aliases, out) && !Collides(jobs, aliases)
    requires UniqueNames(jobs) && UniqueNames(file) && HoldsFile(jobs, file)
    requires Reach(GraphOf(file), a, b) && b in GraphOf(file)
    ensures Reach(GraphOf(out), a, b)
  {
    var g, h := GraphOf(file), GraphOf(out);
    assert UniqueNames(out);
    var p :| PathBetween(g, p, a, b);
    forall i | 0 <= i < |p| - 1
      ensures Edge(h, p[i], p[i + 1])
    {
      assert Edge(g, p[i], p[i + 1]);
      if i + 1 < |p| - 1 {
        assert Edge(g, p[i + 1], p[i + 2]);
      }
      FileEdgeSurvives(jobs, aliases, out, file, p[i], p[i + 1]);
    }
    assert PathBetween(h, p, a, b);
  }

  lemma FileEdgeSurvives(
    jobs: seq<Job>, aliases: Aliases, out: seq<Job>, file: seq<Job>, a: Name, b: Name)
    requires IsExpanded(jobs, aliases, out) && !Collides(jobs, aliases)
    requires UniqueNames(out) && UniqueNames(file) && HoldsFile(jobs, file)
    requires Edge(GraphOf(file), a, b) && b in GraphOf(file)
    ensures Edge(GraphOf(out), a, b)
  {
    EdgeAt(file, a, b);
    var i :| 0 <= i < |file| && file[i].name == a && b in file[i].dependsOn;
    assert SameNodeIn(jobs, file[i]);
    var k :| 0 <= k < |jobs| && jobs[k].name == a && jobs[k].dependsOn == file[i].dependsOn;
    var m := IndexOfName(file, b);
    assert SameNodeIn(jobs, file[m]);
    var l :| 0 <= l < |jobs| && jobs[l].name == b;
    assert Names(jobs)[l] == b;
    JobDependenciesStay(jobs, aliases, out, k, b);
    EdgeAt(out, a, b);
  }

  /** `alias` stands for an acyclic file all of whose jobs made it into the pipeline. */
  ghost predicate StandsFor(jobs: seq<Job>, aliases: Aliases, alias: Name, file: seq<Job>) {
    && alias in aliases && aliases[alias] == Terminals(file)
    && UniqueNames(file) && !Cyclic(GraphOf(file))
    && HoldsFile(jobs, file)
  }

  /** A job that depends on an alias depends, after expansion, on every job of the file the
      alias stands for. */
  lemma AliasCoversFile(
    jobs: seq<Job>, aliases: Aliases, out: seq<Job>, alias: Name, file: seq<Job>, j: Job, f: Job)
    requires IsExpanded(jobs, aliases, out) && !Collides(jobs, aliases) && UniqueNames(jobs)
    requires StandsFor(jobs, aliases, alias, file)
    requires j in jobs && alias in j.dependsOn && f in file
    ensures DependsOn(GraphOf(out), j.name, f.name)
  {
    GraphNodes(file, f.name);
    var t := ClimbToTerminal(file, f.name);
    FilePathsSurvive(jobs, aliases, out, file, t, f.name);
    var i :| 0 <= i < |jobs| && jobs[i] == j;
    assert t in Expansion(alias, aliases);
    ExpansionMembers(j.dependsOn, aliases, t);
    DedupKeepsMembers(Expansions(j.dependsOn, aliases));
    assert UniqueNames(out);
    EdgeAt(out, j.name, t);
  }

  /** ... so every topological order of the pipeline puts all of that file first. */
  lemma AliasOrdersFile(
    jobs: seq<Job>, aliases: Aliases, out: seq<Job>, alias: Name, file: seq<Job>, j: Job, f: Job,
    order: seq<Name>, i: nat)
    requires IsExpanded(jobs, aliases, out) && !Collides(jobs, aliases) && UniqueNames(jobs)
    requires StandsFor(jobs, aliases, alias, file)
    requires j in jobs && alias in j.dependsOn && f in file
    requires Topological(GraphOf(out), order) && i < |order| && order[i] == j.name
    ensures f.name in order[..i]
  {
    var g := GraphOf(out);
    AliasCoversFile(jobs, aliases, out, alias, file, j, f);
    var d :| Edge(g, j.name, d) && Reach(g, d, f.name);
    TopologicalIsDag(g, order);
    if f.name == j.name {
      EdgeBackIsCycle(g, j.name, d);
    }
    ReachEdge(g, j.name, d);
    ReachTrans(g, j.name, d, f.name);
    TopologicalPutsReachableFirst(g, order, i, f.name);
  }

  // ----- Exactly when an alias covers its file -----

  /** Some job named `x` has a dependency that is `n` or an alias `n` is a terminal job of. */
  ghost predicate Lists(jobs: seq<Job>, aliases: Aliases, x: Name, n: Name) {
    exists k, d :: k in jobs && k.name == x && d in k.dependsOn && n in Expansion(d, aliases)
  }

  /** The graph of the merged jobs with every dependency replaced by what it stands for; known
      before anything is rewritten. */
  ghost function Followed(jobs: seq<Job>, aliases: Aliases): Graph {
    map n | n in GraphOf(jobs) :: Expansions(GraphOf(jobs)[n], aliases)
  }

  lemma FollowedEdge(jobs: seq<Job>, aliases: Aliases, x: Name, n: Name)
    requires UniqueNames(jobs)
    ensures Edge(Followed(jobs, aliases), x, n) <==> Lists(jobs, aliases, x, n)
  {
    if x in GraphOf(jobs) {
      var i := IndexOfName(jobs, x);
      GraphAt(jobs, i);
      ExpansionMembers(jobs[i].dependsOn, aliases, n);
      if k, d :| k in jobs && k.name == x && d in k.dependsOn && n in Expansion(d, aliases) {
        assert k == jobs[i];
      }
    } else if k, d :| k in jobs && k.name == x && d in k.dependsOn && n in Expansion(d, aliases) {
      NamesAreNodes(jobs, x);
    }
  }

  /** The edges of the result, read off the merged jobs and the alias table. */
  lemma ExpandedEdge(jobs: seq<Job>, aliases: Aliases, out: seq<Job>, x: Name, n: Name)
    requires IsExpanded(jobs, aliases, out) && UniqueNames(jobs)
    ensures Edge(GraphOf(out), x, n) <==> Lists(jobs, aliases, x, n)
  {
    FollowedEdge(jobs, aliases, x, n);
    assert UniqueNames(out);
    SameNames(jobs, aliases, out);
    NamesAreNodes(jobs, x);
    NamesAreNodes(out, x);
    if x in GraphOf(jobs) {
      var i := IndexOfName(jobs, x);
      GraphAt(jobs, i);
      GraphAt(out, i);
      DedupKeepsMembers(Expansions(jobs[i].dependsOn, aliases));
    }
  }

  lemma FollowedEdges(jobs: seq<Job>, aliases: Aliases, out: seq<Job>)
    requires IsExpanded(jobs, aliases, out) && UniqueNames(jobs)
    ensures forall x, n :: Edge(GraphOf(out), x, n) <==> Edge(Followed(jobs, aliases), x, n)
  {
    forall x, n
      ensures Edge(GraphOf(out), x, n) <==> Edge(Followed(jobs, aliases), x, n)
    {
      FollowedEdge(jobs, aliases, x, n);
      ExpandedEdge(jobs, aliases, out, x, n);
    }
  }

  ghost predicate InnerJob(file: seq<Job>, f: Job) {
    f in file && f.name !in Terminals(file)
  }

  /** Some lister of `f` has a name of the file or is, outside of it, reached from `n`. */
  ghost predicate EnteredAt(h: Graph, file: seq<Job>, n: Name, f: Job) {
    exists x :: Edge(h, x, f.name) && (x in Names(file) || Reach(h, n, x))
  }

  ghost predicate Entered(h: Graph, file: seq<Job>, n: Name) {
    forall f | InnerJob(file, f) :: EnteredAt(h, file, n, f)
  }

  ghost predicate HasLister(jobs: seq<Job>, aliases: Aliases, names: seq<Name>, n: Name) {
    exists x :: x in names && Lists(jobs, aliases, x, n)
  }

  /** Each job of the file that is not terminal is listed by some job with a name of the file. */
  ghost predicate ListedInside(jobs: seq<Job>, aliases: Aliases, file: seq<Job>) {
    forall f | InnerJob(file, f) :: HasLister(jobs, aliases, Names(file), f.name)
  }

  /** Only jobs with names of the file list its jobs, apart from the terminal ones. */
  ghost predicate Isolated(jobs: seq<Job>, aliases: Aliases, file: seq<Job>) {
    forall x, f | InnerJob(file, f) && Lists(jobs, aliases, x, f.name) :: x in Names(file)
  }

  ghost predicate NamesPresent(jobs: seq<Job>, file: seq<Job>) {
    forall f | f in file :: f.name in Names(jobs)
  }

  lemma NamesAreNodes(jobs: seq<Job>, n: Name)
    ensures n in Names(jobs) <==> n in GraphOf(jobs)
    ensures n in Names(jobs) <==> exists j :: j in jobs && j.name == n
  {
    GraphNodes(jobs, n);
    if n in Names(jobs) {
      var i :| 0 <= i < |jobs| && Names(jobs)[i] == n;
      assert jobs[i] in jobs;
    }
    if j :| j in jobs && j.name == n {
      var i :| 0 <= i < |jobs| && jobs[i] == j;
      assert Names(jobs)[i] == n;
    }
  }

  lemma SameNames(jobs: seq<Job>, aliases: Aliases, out: seq<Job>)
    requires IsExpanded(jobs, aliases, out)
    ensures Names(out) == Names(jobs)
  {
  }

  lemma FileInGraph(jobs: seq<Job>, aliases: Aliases, out: seq<Job>, file: seq<Job>)
    requires IsExpanded(jobs, aliases, out) && NamesPresent(jobs, file)
    ensures forall f | f in file :: f.name in GraphOf(out)
  {
    forall f | f in file
      ensures f.name in GraphOf(out)
    {
      SameNames(jobs, aliases, out);
      NamesAreNodes(out, f.name);
    }
  }

  lemma ReachThenEdge(h: Graph, n: Name, x: Name, f: Name)
    requires Reach(h, n, x) && Edge(h, x, f)
    ensures DependsOn(h, n, f)
  {
    if n == x {
      ReachSelf(h, f);
    } else {
      var m := FirstEdge(h, n, x);
      ReachStep(h, m, x, f);
    }
  }

  /** Upwards from `f`, lister by lister, until a terminal job or something `n` reaches. */
  lemma {:induction false} EnteredIsReached(h: Graph, file: seq<Job>, n: Name, f: Job)
    requires !Cyclic(h) && Entered(h, file, n) && f in file
    requires forall x | x in file :: x.name in h
    requires forall t | t in Terminals(file) :: Edge(h, n, t)
    ensures DependsOn(h, n, f.name)
    decreases |Above(h, f.name)|
  {
    if f.name in Terminals(file) {
      ReachSelf(h, f.name);
    } else {
      assert InnerJob(file, f) && EnteredAt(h, file, n, f);
      var x :| Edge(h, x, f.name) && (x in Names(file) || Reach(h, n, x));
      if Reach(h, n, x) {
        ReachThenEdge(h, n, x, f.name);
      } else {
        NamesAreNodes(file, x);
        var k :| k in file && k.name == x;
        AboveShrinks(h, x, f.name);
        EnteredIsReached(h, file, n, k);
        var d :| Edge(h, n, d) && Reach(h, d, x);
        ReachStep(h, d, x, f.name);
      }
    }
  }

  lemma ReachedIsEntered(h: Graph, file: seq<Job>, n: Name, f: Job)
    requires DependsOn(h, n, f.name)
    ensures EnteredAt(h, file, n, f)
  {
    var d :| Edge(h, n, d) && Reach(h, d, f.name);
    if d == f.name {
      ReachSelf(h, n);
    } else {
      var x := LastEdge(h, d, f.name);
      ReachEdge(h, n, d);
      ReachTrans(h, n, d, x);
    }
  }

  lemma TerminalsAreListed(jobs: seq<Job>, aliases: Aliases, alias: Name, file: seq<Job>, j: Job, t: Name)
    requires alias in aliases && aliases[alias] == Terminals(file) && t in Terminals(file)
    requires j in jobs && alias in j.dependsOn
    ensures Lists(jobs, aliases, j.name, t)
  {
    assert t in Expansion(alias, aliases);
  }

  /** In a graph without cycles a job that lists an alias ends up depending on the whole file
      exactly if each non-terminal job of the file is listed by a job with a name of the file, or
      by one outside that the job reaches anyway. Graph and listing are those of the merged jobs
      and the alias table. */
  lemma AliasCoversExactly(jobs: seq<Job>, aliases: Aliases, out: seq<Job>, alias: Name, file: seq<Job>, j: Job)
    requires IsExpanded(jobs, aliases, out) && UniqueNames(jobs) && !Cyclic(Followed(jobs, aliases))
    requires alias in aliases && aliases[alias] == Terminals(file) && NamesPresent(jobs, file)
    requires j in jobs && alias in j.dependsOn
    ensures (forall f | f in file :: DependsOn(GraphOf(out), j.name, f.name))
       <==> Entered(Followed(jobs, aliases), file, j.name)
  {
    var g, h := Followed(jobs, aliases), GraphOf(out);
    FollowedEdges(jobs, aliases, out);
    SubgraphKeepsAcyclic(h, g);
    FileInGraph(jobs, aliases, out, file);
    forall t | t in Terminals(file)
      ensures Edge(h, j.name, t)
    {
      TerminalsAreListed(jobs, aliases, alias, file, j, t);
      ExpandedEdge(jobs, aliases, out, j.name, t);
    }
    SameEdgesSameEntry(g, h, file, j.name);
    if Entered(g, file, j.name) {
      forall f | f in file
        ensures DependsOn(h, j.name, f.name)
      {
        EnteredIsReached(h, file, j.name, f);
      }
    }
    if forall f | f in file :: DependsOn(h, j.name, f.name) {
      forall f | InnerJob(file, f)
        ensures EnteredAt(h, file, j.name, f)
      {
        ReachedIsEntered(h, file, j.name, f);
      }
    }
  }

  lemma SameEdgesSameEntry(g: Graph, h: Graph, file: seq<Job>, n: Name)
    requires forall x, y :: Edge(g, x, y) <==> Edge(h, x, y)
    ensures Entered(g, file, n) <==> Entered(h, file, n)
  {
    forall x
      ensures Reach(g, n, x) <==> Reach(h, n, x)
    {
      if Reach(g, n, x) {
        SubgraphReach(g, h, n, x);
      }
      if Reach(h, n, x) {
        SubgraphReach(h, g, n, x);
      }
    }
    forall f | InnerJob(file, f)
      ensures EnteredAt(g, file, n, f) <==> EnteredAt(h, file, n, f)
    {
    }
  }

  /** If only jobs with the file's names list its inner jobs, nothing but the listing inside the
      file counts. */
  lemma IsolatedAliasCoversExactly(
    jobs: seq<Job>, aliases: Aliases, out: seq<Job>, alias: Name, file: seq<Job>, j: Job)
    requires IsExpanded(jobs, aliases, out) && UniqueNames(jobs) && !Cyclic(Followed(jobs, aliases))
    requires alias in aliases && aliases[alias] == Terminals(file) && NamesPresent(jobs, file)
    requires j in jobs && alias in j.dependsOn && Isolated(jobs, aliases, file)
    ensures (forall f | f in file :: DependsOn(GraphOf(out), j.name, f.name)) <==> ListedInside(jobs, aliases, file)
  {
    AliasCoversExactly(jobs, aliases, out, alias, file, j);
    var g := Followed(jobs, aliases);
    forall f | InnerJob(file, f)
      ensures EnteredAt(g, file, j.name, f) <==> HasLister(jobs, aliases, Names(file), f.name)
    {
      forall x
        ensures Edge(g, x, f.name) <==> Lists(jobs, aliases, x, f.name)
      {
        FollowedEdge(jobs, aliases, x, f.name);
      }
    }
  }

  /** In any acyclic result the listing inside the file suffices, dropped jobs or not. */
  lemma ListedAliasCovers(jobs: seq<Job>, aliases: Aliases, out: seq<Job>, alias: Name, file: seq<Job>, j: Job, f: Job)
    requires IsExpanded(jobs, aliases, out) && UniqueNames(jobs) && !Cyclic(Followed(jobs, aliases))
    requires alias in aliases && aliases[alias] == Terminals(file) && NamesPresent(jobs, file)
    requires ListedInside(jobs, aliases, file)
    requires j in jobs && alias in j.dependsOn && f in file
    ensures DependsOn(GraphOf(out), j.name, f.name)
  {
    AliasCoversExactly(jobs, aliases, out, alias, file, j);
    forall k | InnerJob(file, k)
      ensures EnteredAt(Followed(jobs, aliases), file, j.name, k)
    {
      assert HasLister(jobs, aliases, Names(file), k.name);
      var x :| x in Names(file) && Lists(jobs, aliases, x, k.name);
      FollowedEdge(jobs, aliases, x, k.name);
    }
  }

  lemma HeldJobLists(jobs: seq<Job>, aliases: Aliases, x: Job, n: Name)
    requires !Collides(jobs, aliases) && SameNodeIn(jobs, x) && n in x.dependsOn && n in Names(jobs)
    ensures Lists(jobs, aliases, x.name, n)
  {
    var k :| 0 <= k < |jobs| && jobs[k].name == x.name && jobs[k].dependsOn == x.dependsOn;
    assert n in Expansion(n, aliases);
    assert jobs[k] in jobs;
  }

  lemma HeldName(jobs: seq<Job>, f: Job)
    requires SameNodeIn(jobs, f)
    ensures f.name in Names(jobs)
  {
    var l :| 0 <= l < |jobs| && jobs[l].name == f.name && jobs[l].dependsOn == f.dependsOn;
    assert Names(jobs)[l] == f.name;
  }

  lemma HeldIn(jobs: seq<Job>, file: seq<Job>, f: Job)
    requires HoldsFile(jobs, file) && f in file
    ensures SameNodeIn(jobs, f)
  {
    var i :| 0 <= i < |file| && file[i] == f;
  }

  /** A file that got in whole meets the condition. */
  lemma HeldIsListed(jobs: seq<Job>, aliases: Aliases, file: seq<Job>)
    requires !Collides(jobs, aliases) && HoldsFile(jobs, file)
    ensures ListedInside(jobs, aliases, file)
  {
    forall f | InnerJob(file, f)
      ensures HasLister(jobs, aliases, Names(file), f.name)
    {
      HeldJobHasLister(jobs, aliases, file, f);
    }
  }

  lemma HeldJobHasLister(jobs: seq<Job>, aliases: Aliases, file: seq<Job>, f: Job)
    requires !Collides(jobs, aliases) && HoldsFile(jobs, file) && InnerJob(file, f)
    ensures HasLister(jobs, aliases, Names(file), f.name)
  {
    TerminalMembers(file, file, f.name);
    var x :| x in file && f.name in x.dependsOn;
    NamesAreNodes(file, x.name);
    HeldIn(jobs, file, x);
    HeldIn(jobs, file, f);
    HeldName(jobs, f);
    HeldJobLists(jobs, aliases, x, f.name);
  }

  // ----- What happens when a job of the file is dropped -----

  function PlainJob(name: Name, dependsOn: seq<Name>): Job {
    Job(name, "", "", "", dependsOn, [], [], [], [], [], [], None, false, None)
  }

  /** The pipeline has a job `t` of its own, and the included file's `t`, which depends on `m`, is
      dropped in its favour. The file's terminal job is `t`, so a job that depends on the file's
      alias waits for the wrong `t` and never for `m`. */
  lemma SkippedJobBreaksCoverage()
    ensures var file := [PlainJob("m", []), PlainJob("t", ["m"])];
            var items := [Item(PlainJob("t", []), ConflictError), Item(file[0], ConflictSkip),
                          Item(file[1], ConflictSkip), Item(PlainJob("j", ["f"]), ConflictError)];
            var aliases := map["f" := Terminals(file)];
            var out := [PlainJob("t", []), PlainJob("m", []), PlainJob("j", ["t"])];
            && !Conflicts(items) && Terminals(file) == ["t"]
            && FirstOnes(items) == [PlainJob("t", []), PlainJob("m", []), PlainJob("j", ["f"])]
            && IsExpanded(FirstOnes(items), aliases, out)
            && !DependsOn(GraphOf(out), "j", "m")
  {
    var file := [PlainJob("m", []), PlainJob("t", ["m"])];
    SkippedFileTerminals(file);
    SkippedItems(file);
    SkippedExpansion();
    SkippedGraph();
  }

  lemma SkippedFileTerminals(file: seq<Job>)
    requires file == [PlainJob("m", []), PlainJob("t", ["m"])]
    ensures Terminals(file) == ["t"]
  {
    assert file[..1] == [file[0]] && file[..1][..0] == [];
    assert file[1] in file && "m" in file[1].dependsOn;
    assert !IsDepended(file, "t");
    assert TerminalsAmong([file[0]], file) == [];
  }

  lemma SkippedItems(file: seq<Job>)
    requires file == [PlainJob("m", []), PlainJob("t", ["m"])]
    ensures var items := [Item(PlainJob("t", []), ConflictError), Item(file[0], ConflictSkip),
                          Item(file[1], ConflictSkip), Item(PlainJob("j", ["f"]), ConflictError)];
            && !Conflicts(items)
            && FirstOnes(items) == [PlainJob("t", []), PlainJob("m", []), PlainJob("j", ["f"])]
  {
    ThirdIsSkipped(Item(PlainJob("t", []), ConflictError), Item(file[0], ConflictSkip),
                   Item(file[1], ConflictSkip), Item(PlainJob("j", ["f"]), ConflictError));
  }

  lemma ThirdIsSkipped(a: Item, b: Item, c: Item, d: Item)
    requires a.job.name != b.job.name && c.job.name == a.job.name && c.onConflict == ConflictSkip
    requires d.job.name !in {a.job.name, b.job.name}
    ensures !Conflicts([a, b, c, d]) && FirstOnes([a, b, c, d]) == [a.job, b.job, d.job]
  {
    ThirdOfThreeIsSkipped(a, b, c);
    ItemGrows([a, b, c], d);
    assert [a, b, c] + [d] == [a, b, c, d];
  }

  lemma SkippedExpansion()
    ensures IsExpanded([PlainJob("t", []), PlainJob("m", []), PlainJob("j", ["f"])], map["f" := ["t"]],
                       [PlainJob("t", []), PlainJob("m", []), PlainJob("j", ["t"])])
  {
    var aliases: Aliases := map["f" := ["t"]];
    assert Expansions(["f"], aliases) == ["t"] by {
      assert ["f"][..0] == [];
    }
    assert Dedup(["t"]) == ["t"] by {
      assert ["t"][..0] == [];
    }
  }

  lemma SkippedGraph()
    ensures !DependsOn(GraphOf([PlainJob("t", []), PlainJob("m", []), PlainJob("j", ["t"])]), "j", "m")
  {
    var out := [PlainJob("t", []), PlainJob("m", []), PlainJob("j", ["t"])];
    var g := GraphOf(out);
    assert out[0].name == "t" && out[1].name == "m" && out[2].name == "j";
    GraphAt(out, 0);
    GraphAt(out, 2);
    if Reach(g, "t", "m") {
      ClosedSetContains(g, {"t"}, "t", "m");
    }
  }

  /** Dropping a job need not break coverage: here the pipeline's own `m`, which waits for `z`,
      replaces the file's, and the file's `t` still lists `m`. */
  lemma DroppedJobMayStayCovered()
    ensures var file := [PlainJob("m", []), PlainJob("t", ["m"])];
            var items := [Item(PlainJob("z", []), ConflictError), Item(PlainJob("m", ["z"]), ConflictError),
                          Item(file[0], ConflictSkip), Item(file[1], ConflictSkip),
                          Item(PlainJob("j", ["f"]), ConflictError)];
            var jobs := [PlainJob("z", []), PlainJob("m", ["z"]), PlainJob("t", ["m"]), PlainJob("j", ["f"])];
            var out := [PlainJob("z", []), PlainJob("m", ["z"]), PlainJob("t", ["m"]), PlainJob("j", ["t"])];
            && !Conflicts(items) && FirstOnes(items) == jobs && !HoldsFile(jobs, file)
            && Terminals(file) == ["t"] && IsExpanded(jobs, map["f" := Terminals(file)], out)
            && DependsOn(GraphOf(out), "j", "t") && DependsOn(GraphOf(out), "j", "m")
  {
    var file := [PlainJob("m", []), PlainJob("t", ["m"])];
    SkippedFileTerminals(file);
    ThirdOfFiveIsSkipped(
      Item(PlainJob("z", []), ConflictError), Item(PlainJob("m", ["z"]), ConflictError),
      Item(file[0], ConflictSkip), Item(file[1], ConflictSkip), Item(PlainJob("j", ["f"]), ConflictError));
    DroppedNode();
    DroppedExpansion();
    DroppedGraph();
  }

  lemma ThirdOfFiveIsSkipped(a: Item, b: Item, c: Item, d: Item, e: Item)
    requires a.job.name != b.job.name && c.job.name == b.job.name && c.onConflict == ConflictSkip
    requires d.job.name !in {a.job.name, b.job.name} && e.job.name !in {a.job.name, b.job.name, d.job.name}
    ensures !Conflicts([a, b, c, d, e]) && FirstOnes([a, b, c, d, e]) == [a.job, b.job, d.job, e.job]
  {
    ThirdOfThreeIsSkipped(a, b, c);
    ItemGrows([a, b, c], d);
    assert [a, b, c] + [d] == [a, b, c, d];
    ItemGrows([a, b, c, d], e);
    assert [a, b, c, d] + [e] == [a, b, c, d, e];
  }

  lemma TwoAreKept(a: Item, b: Item)
    requires a.job.name != b.job.name
    ensures !Conflicts([a, b]) && FirstOnes([a, b]) == [a.job, b.job]
  {
    assert !Conflicts([]) && FirstOnes([]) == [];
    ItemGrows([], a);
    assert [] + [a] == [a];
    ItemGrows([a], b);
    assert [a] + [b] == [a, b];
  }

  lemma ThirdOfThreeIsSkipped(a: Item, b: Item, c: Item)
    requires a.job.name != b.job.name && c.job.name in {a.job.name, b.job.name} && c.onConflict == ConflictSkip
    ensures !Conflicts([a, b, c]) && FirstOnes([a, b, c]) == [a.job, b.job]
  {
    TwoAreKept(a, b);
    assert a in [a, b] && b in [a, b];
    ItemGrows([a, b], c);
    assert [a, b] + [c] == [a, b, c];
  }

  lemma DroppedNode()
    ensures !HoldsFile([PlainJob("z", []), PlainJob("m", ["z"]), PlainJob("t", ["m"]), PlainJob("j", ["f"])],
                       [PlainJob("m", []), PlainJob("t", ["m"])])
  {
    var jobs := [PlainJob("z", []), PlainJob("m", ["z"]), PlainJob("t", ["m"]), PlainJob("j", ["f"])];
    var file := [PlainJob("m", []), PlainJob("t", ["m"])];
    assert ["z"] != [] && jobs[1].name == "m";
    assert !SameNodeIn(jobs, file[0]);
  }

  lemma DroppedExpansion()
    ensures IsExpanded(
              [PlainJob("z", []), PlainJob("m", ["z"]), PlainJob("t", ["m"]), PlainJob("j", ["f"])], map["f" := ["t"]],
              [PlainJob("z", []), PlainJob("m", ["z"]), PlainJob("t", ["m"]), PlainJob("j", ["t"])])
  {
    var aliases: Aliases := map["f" := ["t"]];
    NoneExpands("z", aliases);
    LoneExpands("m", "z", "z", aliases);
    LoneExpands("t", "m", "m", aliases);
    LoneExpands("j", "f", "t", aliases);
    FourExpanded(aliases, PlainJob("z", []), PlainJob("m", ["z"]), PlainJob("t", ["m"]), PlainJob("j", ["f"]),
                 PlainJob("z", []), PlainJob("m", ["z"]), PlainJob("t", ["m"]), PlainJob("j", ["t"]));
  }

  lemma NoneExpands(name: Name, aliases: Aliases)
    ensures ExpandsTo(aliases, PlainJob(name, []), PlainJob(name, []))
  {
    assert Dedup(Expansions([], aliases)) == [];
  }

  lemma LoneExpands(name: Name, dep: Name, target: Name, aliases: Aliases)
    requires Expansion(dep, aliases) == [target]
    ensures ExpandsTo(aliases, PlainJob(name, [dep]), PlainJob(name, [target]))
  {
    OneDependency(dep, aliases);
    PlainExpands(name, [dep], [target], aliases);
  }

  ghost predicate ExpandsTo(aliases: Aliases, a: Job, b: Job) {
    b == a.(dependsOn := Dedup(Expansions(a.dependsOn, aliases)))
  }

  lemma FourExpanded(aliases: Aliases, a: Job, b: Job, c: Job, d: Job, a': Job, b': Job, c': Job, d': Job)
    requires ExpandsTo(aliases, a, a') && ExpandsTo(aliases, b, b')
    requires ExpandsTo(aliases, c, c') && ExpandsTo(aliases, d, d')
    ensures IsExpanded([a, b, c, d], aliases, [a', b', c', d'])
  {
    ExpandedMore([], aliases, [], a, a');
    assert [] + [a] == [a] && [] + [a'] == [a'];
    ExpandedMore([a], aliases, [a'], b, b');
    assert [a] + [b] == [a, b] && [a'] + [b'] == [a', b'];
    ExpandedMore([a, b], aliases, [a', b'], c, c');
    assert [a, b] + [c] == [a, b, c] && [a', b'] + [c'] == [a', b', c'];
    ExpandedMore([a, b, c], aliases, [a', b', c'], d, d');
    assert [a, b, c] + [d] == [a, b, c, d] && [a', b', c'] + [d'] == [a', b', c', d'];
  }

  lemma ExpandedMore(jobs: seq<Job>, aliases: Aliases, out: seq<Job>, j: Job, x: Job)
    requires IsExpanded(jobs, aliases, out) && ExpandsTo(aliases, j, x)
    ensures IsExpanded(jobs + [j], aliases, out + [x])
  {
  }

  lemma PlainExpands(name: Name, deps: seq<Name>, expanded: seq<Name>, aliases: Aliases)
    requires Dedup(Expansions(deps, aliases)) == expanded
    ensures ExpandsTo(aliases, PlainJob(name, deps), PlainJob(name, expanded))
  {
  }

  lemma OneDependency(d: Name, aliases: Aliases)
    requires |Expansion(d, aliases)| == 1
    ensures Dedup(Expansions([d], aliases)) == Expansion(d, aliases)
  {
    var e := Expansion(d, aliases);
    assert [d][..0] == [] && e[..0] == [];
    assert Expansions([d], aliases) == e;
    assert Dedup(e) == [e[0]];
  }

  lemma DroppedGraph()
    ensures var out := [PlainJob("z", []), PlainJob("m", ["z"]), PlainJob("t", ["m"]), PlainJob("j", ["t"])];
            DependsOn(GraphOf(out), "j", "t") && DependsOn(GraphOf(out), "j", "m")
  {
    var out := [PlainJob("z", []), PlainJob("m", ["z"]), PlainJob("t", ["m"]), PlainJob("j", ["t"])];
    var g := GraphOf(out);
    assert out[0].name == "z" && out[1].name == "m" && out[2].name == "t" && out[3].name == "j";
    GraphAt(out, 2);
    GraphAt(out, 3);
    assert Edge(g, "j", "t") && Edge(g, "t", "m");
    ReachSelf(g, "t");
    ReachEdge(g, "t", "m");
  }
}
