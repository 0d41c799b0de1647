/** The entry file (pkg/parser/parser.go): its nodes are collected like those of an included
    file, but the entry itself is never pushed on the include stack. */
module Entry {
  import opened DependencyGraph
  import opened Wrappers
  import opened Pipeline
  import opened Merge
  import opened Substitute
  import Include
  import opened IncludeVisits
  import opened IncludeResolver

  type Files = Include.Files
  type Node = Include.Node

  /** The entry's nodes give these jobs when nothing is cached and no depth is counted. */
  ghost predicate EntryGives(files: Files, nodes: seq<Node>, items: seq<Item>) {
    && (forall n | n in nodes :: !n.ParamNode?)
    && Include.UncachedItems(files, {}, nodes) == Some(items) && !Conflicts(items)
  }

  ghost predicate EntryResolves(files: Files, nodes: seq<Node>) {
    exists items :: EntryGives(files, nodes, items)
  }

  /** The jobs can be had, no alias is registered twice, and the depth limit is not met. */
  ghost predicate EntryOk(files: Files, nodes: seq<Node>) {
    && EntryResolves(files, nodes)
    && DistinctAliases(EntryVisit(files, nodes).log) && !EntryVisit(files, nodes).deep
  }

  /** An error that names a file names one below some include of the entry. */
  ghost predicate EntryJustified(files: Files, nodes: seq<Node>, e: Include.IncludeError) {
    e.NotFound? || e.CircularInclude? || e.IncludeDepth? ==>
      exists t :: t in Include.Targets(nodes) && Justified(files, t, e)
  }

  ghost predicate EntryFailsRightly(files: Files, nodes: seq<Node>, e: Include.IncludeError) {
    && EntryJustified(files, nodes, e)
    && (AboutFiles(e) ==> !EntryResolves(files, nodes))
    && FailsAsVisited(EntryVisit(files, nodes), [], e)
  }

  /** No file below the entry is the end of a chain of 65 different files. */
  ghost predicate Shallow(files: Files, nodes: seq<Node>) {
    forall t, p | t in Include.Targets(nodes) && Reach(Include.IncludeGraph(files), t, p) ::
      !TooDeep(Include.IncludeGraph(files), p)
  }

  /** A rightful failure is one of an entry that is not all right. */
  lemma FailureIsNotOk(files: Files, nodes: seq<Node>, e: Include.IncludeError)
    requires EntryFailsRightly(files, nodes, e)
    ensures !EntryOk(files, nodes)
    ensures EntryResolves(files, nodes) && DistinctAliases(EntryVisit(files, nodes).log) ==> !Shallow(files, nodes)
  {
    var v := EntryVisit(files, nodes);
    assert [] + v.log == v.log;
    if e.DuplicateAlias? {
      assert Repeated(v.log, e.alias);
    }
    if e.IncludeDepth? {
      var t :| t in Include.Targets(nodes) && Justified(files, t, e);
    }
  }

  /** Resolves the includes of the entry file and merges everything in document order. It succeeds
      exactly if resolution without cache does, no alias is registered twice, and the visit of
      the includes, in which hits do not descend, stays within the depth limit. */
  method ParseEntry(parser: Parser, nodes: seq<Node>, origin: string)
    returns (r: Result<(seq<Job>, Aliases), Include.IncludeError>)
    requires parser.KeysTellApart()
    ensures r.Ok? <==> EntryOk(parser.files, nodes)
    ensures (EntryResolves(parser.files, nodes) && DistinctAliases(EntryVisit(parser.files, nodes).log)
             && Shallow(parser.files, nodes)) ==> r.Ok?
    ensures r.Ok? ==> exists items :: EntryGives(parser.files, nodes, items) && r.value.0 == FirstOnes(items)
    ensures r.Ok? ==> AliasesOk(parser.files, r.value.1, EntryVisit(parser.files, nodes).log)
    ensures r.Err? ==> EntryFailsRightly(parser.files, nodes, r.error)
  {
    var files := parser.files;
    var gc := new GroupCollector(origin);
    var collected, aliases := CollectEntry(parser, nodes, gc);
    if collected.Some? {
      FailureIsNotOk(files, nodes, collected.value);
      return Err(collected.value);
    }
    ghost var items := gc.Items();
    var merged := gc.MergeAll();
    if merged.Err? {
      ConflictIsRight(files, nodes, items, merged.error);
      FailureIsNotOk(files, nodes, merged.error);
      return Err(merged.error);
    }
    assert EntryGives(files, nodes, items);
    return Ok((merged.value, aliases));
  }

  /** The node loop. */
  method CollectEntry(parser: Parser, nodes: seq<Node>, gc: GroupCollector)
    returns (err: Option<Include.IncludeError>, aliases: Aliases)
    requires parser.KeysTellApart() && gc.Items() == []
    modifies gc
    ensures err.None? ==> Include.UncachedItems(parser.files, {}, nodes) == Some(gc.Items())
    ensures err.None? ==> forall n | n in nodes :: !n.ParamNode?
    ensures err.None? ==> !EntryVisit(parser.files, nodes).deep
                          && AliasesOk(parser.files, aliases, EntryVisit(parser.files, nodes).log)
    ensures err.Some? ==> EntryFailsRightly(parser.files, nodes, err.value)
  {
    var files := parser.files;
    var state := new IncludeState();
    for i := 0 to |nodes|
      invariant fresh(state) && parser.StateOk(state) && state.ancestors == [] && state.ancestorSet == {}
      invariant Follows(VisitsAll(files, {}, {}, nodes[..i]), [], state.log, state.seen)
      invariant Collected(files, {}, nodes, i, gc.Items())
      invariant forall k | 0 <= k < i :: !nodes[k].ParamNode?
    {
      ghost var logNow := state.log;
      match nodes[i] {
        case JobNode(j) =>
          CollectedJob(files, {}, nodes, i, gc.Items());
          gc.AddJob(j);
        case IncludeNode(inc) =>
          var resolved := parser.ResolveInclude(inc, state);
          if resolved.Err? {
            NestedAsVisited(files, {}, {}, nodes, i, [], resolved.error);
            EntryIncludeFails(files, nodes, i, resolved.error);
            return Some(resolved.error), map[];
          }
          EntryIncludeStep(files, nodes, i, gc.Items(), resolved.value.0, resolved.value.1);
          gc.AddInclude(resolved.value.0, resolved.value.1);
        case ParamNode(_) =>
          assert nodes[i] in nodes;
          return Some(Include.UnknownNode), map[];
        case SettingNode =>
          CollectedOther(files, {}, nodes, i, gc.Items());
      }
      NextFollows(files, {}, {}, nodes, i, [], logNow, state.log, state.seen);
    }
    assert nodes[..|nodes|] == nodes;
    assert [] + EntryVisit(files, nodes).log == EntryVisit(files, nodes).log;
    return None, state.aliases;
  }

  lemma ConflictIsRight(files: Files, nodes: seq<Node>, items: seq<Item>, e: Include.IncludeError)
    requires Include.UncachedItems(files, {}, nodes) == Some(items) && Conflicts(items) && e == Include.DuplicateJob
    ensures EntryFailsRightly(files, nodes, e)
  {
  }

  lemma EntryIncludeFails(files: Files, nodes: seq<Node>, i: nat, e: Include.IncludeError)
    requires i < |nodes| && nodes[i].IncludeNode?
    requires FailsRightly(files, nodes[i].inc.target, nodes[i].inc.params, e)
    requires FailsAsVisited(EntryVisit(files, nodes), [], e)
    ensures EntryFailsRightly(files, nodes, e)
  {
    Include.TargetMembers(nodes, nodes[i].inc.target);
    assert nodes[i].inc.target in Include.Targets(nodes);
    if AboutFiles(e) {
      NestedFailureSpreads(files, {}, nodes, i);
    }
  }

  lemma EntryIncludeStep(
    files: Files, nodes: seq<Node>, i: nat, items: seq<Item>, jobs: seq<Job>, named: Include.Directive)
    requires i < |nodes| && nodes[i].IncludeNode? && Collected(files, {}, nodes, i, items)
    requires Included(files, nodes[i].inc, jobs, named)
    ensures Collected(files, {}, nodes, i + 1, items + Tagged(jobs, named.onConflict))
  {
    var inc := nodes[i].inc;
    var frag :| Resolves(files, inc.target, inc.params, frag) && jobs == frag.jobs;
    CollectedInclude(files, {}, nodes, i, items, frag);
  }

  /** Success means that no include cycle can be reached from the entry, not even one through
      the entry file itself, although it is never on the stack. */
  lemma ParsedEntryIsAcyclic(files: Files, entry: Include.Path, items: seq<Item>)
    requires entry in files && EntryGives(files, Include.NodesOf(files[entry]), items)
    ensures !Include.LeadsToCycle(Include.IncludeGraph(files), entry)
  {
    var g := Include.IncludeGraph(files);
    forall c | IsCycle(g, c)
      ensures !Reach(g, entry, c[0])
    {
      if Reach(g, entry, c[0]) {
        var t := StepTowards(g, entry, c);
        Include.ItemsNeedIncludes(files, {}, Include.NodesOf(files[entry]), t);
        var params :| Include.Uncached(files, {}, t, params).Some?;
        Include.ResolvableIsAcyclic(files, t, params);
      }
    }
  }

  /** From a node that reaches a cycle, some direct successor does too. */
  lemma StepTowards(g: Graph, n: Name, c: seq<Name>) returns (t: Name)
    requires IsCycle(g, c) && Reach(g, n, c[0])
    ensures Edge(g, n, t) && Reach(g, t, c[0])
  {
    if n == c[0] {
      assert Edge(g, c[0], c[1]);
      t := c[1];
      var p := c[1..];
      forall i | 0 <= i < |p| - 1
        ensures Edge(g, p[i], p[i + 1])
      {
        assert Edge(g, c[i + 1], c[i + 2]);
      }
      assert PathBetween(g, p, t, c[0]);
    } else {
      var p :| PathBetween(g, p, n, c[0]);
      assert Edge(g, p[0], p[1]);
      t := p[1];
      var q := p[1..];
      forall i | 0 <= i < |q| - 1
        ensures Edge(g, q[i], q[i + 1])
      {
        assert Edge(g, p[i + 1], p[i + 2]);
      }
      assert PathBetween(g, q, t, c[0]);
    }
  }

  // ----- What an included file contributes -----

  /** A file that resolves has jobs with different names. */
  lemma ResolvedNamesAreUnique(files: Files, path: Include.Path, params: Combo, frag: Include.Fragment)
    requires Resolves(files, path, params, frag)
    ensures UniqueNames(frag.jobs)
  {
    var items := Include.UncachedItems(files, {} + {path}, Include.NodesOf(files[path])).value;
    FirstOnesAreDistinct(items);
    FinishedNamesAreUnique(files[path], params, FirstOnes(items));
  }

  lemma FinishedNamesAreUnique(f: Include.File, params: Combo, jobs: seq<Job>)
    requires !f.BrokenFile? && UniqueNames(jobs)
    ensures UniqueNames(Include.Finished(f, params, jobs).jobs)
  {
    if f.FragmentFile? {
      SubstitutionKeepsGraph(jobs, Include.ResolvedParams(Include.ParamDefs(f.nodes), params));
    }
  }

  /** The include drops nothing: it may not, or no job before it has a name of its file. */
  ghost predicate DropsNothing(files: Files, nodes: seq<Node>, i: nat)
    requires i < |nodes| && nodes[i].IncludeNode?
  {
    var inc := nodes[i].inc;
    var before, frag := Include.UncachedItems(files, {}, nodes[..i]), Include.Uncached(files, {}, inc.target, inc.params);
    && before.Some? && frag.Some?
    && (inc.onConflict == ConflictError || forall f | f in frag.value.jobs :: !NameTaken(before.value, f.name))
  }

  /** The jobs of an include stand between those before and those after it. */
  lemma {:induction false} IncludeStandsBetween(files: Files, nodes: seq<Node>, items: seq<Item>, i: nat)
    returns (before: seq<Item>, frag: Include.Fragment, after: seq<Item>)
    requires Include.UncachedItems(files, {}, nodes) == Some(items)
    requires i < |nodes| && nodes[i].IncludeNode?
    ensures Include.UncachedItems(files, {}, nodes[..i]) == Some(before)
    ensures Include.Uncached(files, {}, nodes[i].inc.target, nodes[i].inc.params) == Some(frag)
    ensures items == before + Tagged(frag.jobs, nodes[i].inc.onConflict) + after
    decreases |nodes|
  {
    var n := |nodes| - 1;
    if i == n {
      before := Include.UncachedItems(files, {}, nodes[..n]).value;
      frag := Include.Uncached(files, {}, nodes[i].inc.target, nodes[i].inc.params).value;
      after := [];
    } else {
      var front := Include.UncachedItems(files, {}, nodes[..n]).value;
      var rest;
      before, frag, rest := IncludeStandsBetween(files, nodes[..n], front, i);
      assert nodes[..n][..i] == nodes[..i];
      after := rest + items[|front|..];
      assert items == front + items[|front|..];
    }
  }

  /** An include that drops nothing brings in its whole file. */
  lemma KeptIncludeHoldsFile(files: Files, nodes: seq<Node>, items: seq<Item>, i: nat, frag: Include.Fragment)
    requires Include.UncachedItems(files, {}, nodes) == Some(items) && !Conflicts(items)
    requires i < |nodes| && nodes[i].IncludeNode? && DropsNothing(files, nodes, i)
    requires Resolves(files, nodes[i].inc.target, nodes[i].inc.params, frag)
    ensures HoldsFile(FirstOnes(items), frag.jobs)
  {
    var inc := nodes[i].inc;
    var before, frag', after := IncludeStandsBetween(files, nodes, items, i);
    ResolvedNamesAreUnique(files, inc.target, inc.params, frag);
    forall k | 0 <= k < |frag.jobs|
      ensures SameNodeIn(FirstOnes(items), frag.jobs[k])
    {
      assert frag.jobs[k] in frag.jobs;
      TaggedJobIsKept(before, frag.jobs, inc.onConflict, after, k);
      var l :| 0 <= l < |FirstOnes(items)| && FirstOnes(items)[l] == frag.jobs[k];
    }
  }

  /** Includes one inside the other, from one in `nodes` down, none of which drops a job. */
  ghost predicate WholeChain(files: Files, nodes: seq<Node>, chain: seq<Include.Directive>)
    decreases |chain|
  {
    && chain != []
    && (exists i :: WholeAt(files, nodes, i, chain[0]))
    && (|chain| > 1 ==>
          && chain[0].target in files
          && WholeChain(files, Include.NodesOf(files[chain[0].target]), chain[1..]))
  }

  ghost predicate WholeAt(files: Files, nodes: seq<Node>, i: nat, inc: Include.Directive) {
    i < |nodes| && nodes[i] == Include.IncludeNode(inc) && DropsNothing(files, nodes, i)
  }

  lemma HeldTransitively(jobs: seq<Job>, file: seq<Job>, inner: seq<Job>)
    requires HoldsFile(jobs, file) && HoldsFile(file, inner)
    ensures HoldsFile(jobs, inner)
  {
    forall i | 0 <= i < |inner|
      ensures SameNodeIn(jobs, inner[i])
    {
      assert SameNodeIn(file, inner[i]);
      var k :| 0 <= k < |file| && file[k].name == inner[i].name && file[k].dependsOn == inner[i].dependsOn;
      assert SameNodeIn(jobs, file[k]);
    }
  }

  /** Substituting parameters keeps what a file holds. */
  lemma FinishedHolds(f: Include.File, params: Combo, jobs: seq<Job>, inner: seq<Job>)
    requires !f.BrokenFile? && HoldsFile(jobs, inner)
    ensures HoldsFile(Include.Finished(f, params, jobs).jobs, inner)
  {
    var out := Include.Finished(f, params, jobs).jobs;
    if f.FragmentFile? {
      SubstitutionKeepsGraph(jobs, Include.ResolvedParams(Include.ParamDefs(f.nodes), params));
    }
    forall i | 0 <= i < |inner|
      ensures SameNodeIn(out, inner[i])
    {
      assert SameNodeIn(jobs, inner[i]);
      var k :| 0 <= k < |jobs| && jobs[k].name == inner[i].name && jobs[k].dependsOn == inner[i].dependsOn;
      assert out[k].name == jobs[k].name && out[k].dependsOn == jobs[k].dependsOn;
    }
  }

  /** What a file that resolves is made of. */
  lemma ResolvedItems(files: Files, path: Include.Path, params: Combo, frag: Include.Fragment) returns (items: seq<Item>)
    requires Resolves(files, path, params, frag)
    ensures path in files && !files[path].BrokenFile? && !Conflicts(items)
    ensures Include.UncachedItems(files, {}, Include.NodesOf(files[path])) == Some(items)
    ensures frag == Include.Finished(files[path], params, FirstOnes(items))
  {
    items := Include.UncachedItems(files, {} + {path}, Include.NodesOf(files[path])).value;
    Include.FewerAncestorsItems(files, {} + {path}, {}, Include.NodesOf(files[path]));
  }

  /** All jobs of the innermost file of such a chain are in the merged list. */
  lemma {:induction false} ChainHoldsFile(
    files: Files, nodes: seq<Node>, items: seq<Item>, chain: seq<Include.Directive>, frag: Include.Fragment)
    requires Include.UncachedItems(files, {}, nodes) == Some(items) && !Conflicts(items)
    requires WholeChain(files, nodes, chain)
    requires var last := chain[|chain| - 1]; Resolves(files, last.target, last.params, frag)
    ensures HoldsFile(FirstOnes(items), frag.jobs)
    decreases |chain|
  {
    var i :| WholeAt(files, nodes, i, chain[0]);
    var outer := Include.Uncached(files, {}, chain[0].target, chain[0].params).value;
    KeptIncludeHoldsFile(files, nodes, items, i, outer);
    if |chain| > 1 {
      var inner := ResolvedItems(files, chain[0].target, chain[0].params, outer);
      assert chain[1..][|chain| - 2] == chain[|chain| - 1];
      ChainHoldsFile(files, Include.NodesOf(files[chain[0].target]), inner, chain[1..], frag);
      FinishedHolds(files[chain[0].target], chain[0].params, FirstOnes(inner), frag.jobs);
      HeldTransitively(FirstOnes(items), outer.jobs, frag.jobs);
    }
  }

  lemma FirstIsRegistered(
    files: Files, nodes: seq<Node>, inc: Include.Directive, log: seq<Registration>, seen: set<Source>)
    requires (exists i :: WholeAt(files, nodes, i, inc)) && NodesRegistered(files, nodes, log, seen)
    ensures RegistrationOf(files, inc) in log && SourceOf(inc) in seen
  {
    var i: nat :| WholeAt(files, nodes, i, inc);
    assert nodes[i].IncludeNode? && nodes[i].inc == inc;
  }

  /** Every include along a chain has registered its alias. */
  lemma {:induction false} ChainIsRegistered(
    files: Files, nodes: seq<Node>, chain: seq<Include.Directive>, log: seq<Registration>, seen: set<Source>)
    requires WholeChain(files, nodes, chain)
    requires NodesRegistered(files, nodes, log, seen) && AllRegistered(files, log, seen)
    ensures RegistrationOf(files, chain[|chain| - 1]) in log
    decreases |chain|
  {
    FirstIsRegistered(files, nodes, chain[0], log, seen);
    if |chain| > 1 {
      assert NodesRegistered(files, Include.NodesOf(files[SourceOf(chain[0]).path]), log, seen);
      ChainIsRegistered(files, Include.NodesOf(files[chain[0].target]), chain[1..], log, seen);
    }
  }

  lemma EntryRegistersAll(files: Files, nodes: seq<Node>, items: seq<Item>)
    requires EntryGives(files, nodes, items) && !EntryVisit(files, nodes).deep
    ensures var v := EntryVisit(files, nodes);
            NodesRegistered(files, nodes, v.log, v.seen) && AllRegistered(files, v.log, v.seen)
  {
    VisitsAllRegister(files, {}, {}, nodes, []);
    assert [] + EntryVisit(files, nodes).log == EntryVisit(files, nodes).log;
  }

  /** The alias of an include, wherever in the tree of includes it stands, names the terminal jobs
      of its file, hit or miss. */
  lemma ChainAliasStandsFor(
    files: Files, nodes: seq<Node>, items: seq<Item>, aliases: Aliases, chain: seq<Include.Directive>,
    frag: Include.Fragment)
    requires EntryGives(files, nodes, items) && EntryOk(files, nodes)
    requires AliasesOk(files, aliases, EntryVisit(files, nodes).log)
    requires WholeChain(files, nodes, chain)
    requires var last := chain[|chain| - 1]; Resolves(files, last.target, last.params, frag)
    ensures var alias := AliasOf(files, chain[|chain| - 1]);
            alias in aliases && aliases[alias] == Terminals(frag.jobs)
  {
    var v := EntryVisit(files, nodes);
    EntryRegistersAll(files, nodes, items);
    ChainIsRegistered(files, nodes, chain, v.log, v.seen);
    assert TableTells(files, aliases, RegistrationOf(files, chain[|chain| - 1]));
  }

  /** From the entry file to the expanded pipeline: a job that depends on an include, nested or
      not, by its alias or by its file's name, ends up depending on every job of that file. */
  lemma IncludeAliasCoversFile(
    files: Files, nodes: seq<Node>, items: seq<Item>, aliases: Aliases, chain: seq<Include.Directive>,
    frag: Include.Fragment, out: seq<Job>, j: Job, f: Job)
    requires EntryGives(files, nodes, items) && EntryOk(files, nodes)
    requires AliasesOk(files, aliases, EntryVisit(files, nodes).log)
    requires WholeChain(files, nodes, chain)
    requires var last := chain[|chain| - 1]; Resolves(files, last.target, last.params, frag)
    requires !Cyclic(GraphOf(frag.jobs))
    requires IsExpanded(FirstOnes(items), aliases, out) && !Collides(FirstOnes(items), aliases)
    requires j in FirstOnes(items) && AliasOf(files, chain[|chain| - 1]) in j.dependsOn && f in frag.jobs
    ensures DependsOn(GraphOf(out), j.name, f.name)
  {
    var last := chain[|chain| - 1];
    ChainAliasStandsFor(files, nodes, items, aliases, chain, frag);
    FirstOnesAreUnique(items);
    ResolvedNamesAreUnique(files, last.target, last.params, frag);
    ChainHoldsFile(files, nodes, items, chain, frag);
    AliasCoversFile(FirstOnes(items), aliases, out, AliasOf(files, last), frag.jobs, j, f);
  }
}
