/** Merging, terminal jobs and alias expansion keep the order of the document: each result is a
    selection of positions, in ascending order (pkg/pipeline/merge.go). */
module MergeOrder {
  import opened DependencyGraph
  import opened Wrappers
  import opened Pipeline
  import opened Merge

  // ----- Selecting positions -----

  /** `out` holds the elements of `s` at the positions in `chosen`, in ascending order; `idx` lists
      these positions. */
  ghost predicate Picks<A>(s: seq<A>, chosen: set<nat>, out: seq<A>, idx: seq<nat>) {
    && |idx| == |out|
    && (forall i, k | 0 <= i < k < |idx| :: idx[i] < idx[k])
    && (forall i | 0 <= i < |idx| :: idx[i] < |s| && out[i] == s[idx[i]])
    && (forall k: nat :: k in idx <==> k in chosen)
  }

  lemma PickNext<A>(s: seq<A>, chosen: set<nat>, out: seq<A>, idx: seq<nat>, x: A)
    requires Picks(s, chosen, out, idx)
    ensures Picks(s + [x], chosen, out, idx)
    ensures Picks(s + [x], chosen + {|s|}, out + [x], idx + [|s|])
  {
    var more := idx + [|s|];
    forall k: nat
      ensures k in more <==> k in chosen + {|s|}
    {
      if k in idx {
        var i :| 0 <= i < |idx| && idx[i] == k;
        assert more[i] == k;
      }
      assert more[|idx|] == |s|;
    }
  }

  // ----- Merging -----

  function JobsOf(items: seq<Item>): (jobs: seq<Job>)
    ensures |jobs| == |items| && forall i | 0 <= i < |items| :: jobs[i] == items[i].job
  {
    seq(|items|, i requires 0 <= i < |items| => items[i].job)
  }

  /** The positions of jobs whose name did not come before. */
  ghost function NewNames(items: seq<Item>): set<nat> {
    set k: nat | k < |items| && !NameTaken(items[..k], items[k].job.name)
  }

  lemma NewNamesNext(front: seq<Item>, x: Item)
    ensures NewNames(front + [x]) == NewNames(front) + (if NameTaken(front, x.job.name) then {} else {|front|})
  {
    assert (front + [x])[..|front|] == front;
    forall k: nat | k < |front|
      ensures (front + [x])[..k] == front[..k]
    {
    }
  }

  /** The merged list is the jobs whose name did not come before, in document order. */
  lemma {:induction false} MergedInOrder(items: seq<Item>) returns (idx: seq<nat>)
    ensures Picks(JobsOf(items), NewNames(items), FirstOnes(items), idx)
  {
    if items == [] {
      idx := [];
    } else {
      var front, x := items[..|items| - 1], items[|items| - 1];
      assert items == front + [x];
      idx := MergedInOrder(front);
      assert JobsOf(items) == JobsOf(front) + [x.job];
      PickNext(JobsOf(front), NewNames(front), FirstOnes(front), idx, x.job);
      NewNamesNext(front, x);
      if !NameTaken(front, x.job.name) {
        idx := idx + [|front|];
      }
    }
  }

  /** Document order: the groups one after the other, each in its own order. */
  lemma {:induction false} GroupsInOrder(a: seq<JobGroup>, b: seq<JobGroup>, g: JobGroup)
    ensures Flatten(a + b) == Flatten(a) + Flatten(b)
    ensures JobsOf(Flatten([g])) == g.jobs && forall x | x in Flatten([g]) :: x.onConflict == g.onConflict
    decreases |b|
  {
    assert [g][..0] == [];
    assert Flatten([g]) == Tagged(g.jobs, g.onConflict);
    if b == [] {
      assert a + b == a;
    } else {
      var front := b[..|b| - 1];
      GroupsInOrder(a, front, g);
      assert (a + b)[..|a + b| - 1] == a + front;
    }
  }

  // ----- Terminal jobs -----

  ghost function Undepended(some: seq<Job>, all: seq<Job>): set<nat> {
    set k: nat | k < |some| && !IsDepended(all, some[k].name)
  }

  /** The terminal jobs in document order. */
  lemma {:induction false} TerminalsInOrder(some: seq<Job>, all: seq<Job>) returns (idx: seq<nat>)
    ensures Picks(Names(some), Undepended(some, all), TerminalsAmong(some, all), idx)
  {
    if some == [] {
      idx := [];
    } else {
      var front, x := some[..|some| - 1], some[|some| - 1];
      idx := TerminalsInOrder(front, all);
      assert Names(some) == Names(front) + [x.name];
      PickNext(Names(front), Undepended(front, all), TerminalsAmong(front, all), idx, x.name);
      assert Undepended(some, all)
          == Undepended(front, all) + (if IsDepended(all, x.name) then {} else {|front|});
      if !IsDepended(all, x.name) {
        idx := idx + [|front|];
      }
    }
  }

  // ----- Aliases -----

  ghost function FirstPlaces(names: seq<Name>): set<nat> {
    set k: nat | k < |names| && names[k] !in names[..k]
  }

  lemma FirstPlacesNext(front: seq<Name>, x: Name)
    ensures FirstPlaces(front + [x]) == FirstPlaces(front) + (if x in front then {} else {|front|})
  {
    assert (front + [x])[..|front|] == front;
    forall k: nat | k < |front|
      ensures (front + [x])[..k] == front[..k]
    {
    }
  }

  /** What is left are the first occurrences, in order. */
  lemma {:induction false} DedupInOrder(names: seq<Name>) returns (idx: seq<nat>)
    ensures Picks(names, FirstPlaces(names), Dedup(names), idx)
  {
    if names == [] {
      idx := [];
    } else {
      var front, x := names[..|names| - 1], names[|names| - 1];
      assert names == front + [x];
      idx := DedupInOrder(front);
      PickNext(front, FirstPlaces(front), Dedup(front), idx, x);
      FirstPlacesNext(front, x);
      if x !in front {
        idx := idx + [|front|];
      }
    }
  }

  /** `n` is what the dependency `d` stands for: a terminal of the alias, or `d` itself if it is no
      alias or one without terminals. */
  ghost predicate Means(aliases: Aliases, d: Name, n: Name) {
    if d in aliases && |aliases[d]| > 0 then n in aliases[d] else n == d
  }

  lemma ExpansionsAppend(deps: seq<Name>, d: Name, aliases: Aliases)
    ensures Merge.Expansions(deps + [d], aliases) == Merge.Expansions(deps, aliases) + Expansion(d, aliases)
  {
    assert (deps + [d])[..|deps|] == deps;
  }

  lemma AppendTwice<A>(a: seq<A>, b: seq<A>, c: seq<A>)
    ensures a + (b + c) == a + b + c
  {
  }

  /** Dependencies are expanded one after the other. */
  lemma {:induction false} ExpansionsInOrder(a: seq<Name>, b: seq<Name>, aliases: Aliases)
    ensures Merge.Expansions(a + b, aliases) == Merge.Expansions(a, aliases) + Merge.Expansions(b, aliases)
    decreases |b|
  {
    if b == [] {
      assert a + b == a;
    } else {
      var front, d := b[..|b| - 1], b[|b| - 1];
      ExpansionsInOrder(a, front, aliases);
      assert b == front + [d];
      AppendTwice(a, front, [d]);
      ExpansionsAppend(a + front, d, aliases);
      ExpansionsAppend(front, d, aliases);
      AppendTwice(Merge.Expansions(a, aliases), Merge.Expansions(front, aliases), Expansion(d, aliases));
    }
  }

  /** An alias stands for its terminals in order, anything else for itself. */
  lemma DependencyStandsFor(d: Name, aliases: Aliases)
    ensures d in aliases && aliases[d] != [] ==> Merge.Expansions([d], aliases) == aliases[d]
    ensures d !in aliases || aliases[d] == [] ==> Merge.Expansions([d], aliases) == [d]
  {
    assert [d][..0] == [];
  }

  /** After expansion a job depends on exactly what its dependencies stood for. */
  lemma ExpandedDependencies(jobs: seq<Job>, aliases: Aliases, out: seq<Job>, i: nat)
    requires IsExpanded(jobs, aliases, out) && i < |jobs|
    ensures forall n :: n in out[i].dependsOn <==> exists d :: d in jobs[i].dependsOn && Means(aliases, d, n)
    ensures forall k, m | 0 <= k < m < |out[i].dependsOn| :: out[i].dependsOn[k] != out[i].dependsOn[m]
  {
    var deps := jobs[i].dependsOn;
    DedupKeepsMembers(Merge.Expansions(deps, aliases));
    forall n
      ensures n in Merge.Expansions(deps, aliases) <==> exists d :: d in deps && Means(aliases, d, n)
    {
      ExpansionMembers(deps, aliases, n);
      assert forall d :: n in Expansion(d, aliases) <==> Means(aliases, d, n);
    }
  }
}
