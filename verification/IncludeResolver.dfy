/** The stateful include resolver: ancestor stack, cache and aliases (pkg/parser/include.go). */
module IncludeResolver {
  import opened DependencyGraph
  import opened Wrappers
  import Pipeline
  import opened Merge
  import opened Substitute
  import opened Include
  import opened IncludeVisits

  /** `absPath` with `params` resolves, without any cache, to `frag`. */
  ghost predicate Resolves(files: Files, path: Path, params: Combo, frag: Fragment) {
    Uncached(files, {}, path, params) == Some(frag)
  }

  function KeyOf(s: Source, encode: Combo -> string): string {
    CacheKey(s.path, s.params, encode)
  }

  ghost predicate EntryOk(files: Files, encode: Combo -> string, cache: map<string, Fragment>, s: Source) {
    s.path in files && KeyOf(s, encode) in cache && Resolves(files, s.path, s.params, cache[KeyOf(s, encode)])
  }

  ghost predicate IsKeyOf(seen: set<Source>, encode: Combo -> string, key: string) {
    exists s :: s in seen && KeyOf(s, encode) == key
  }

  /** The cache holds, for exactly the sources resolved so far, what uncached resolution gives. */
  ghost predicate CacheOk(
    files: Files, encode: Combo -> string, cache: map<string, Fragment>, seen: set<Source>) {
    && (forall s {:trigger EntryOk(files, encode, cache, s)} | s in seen :: EntryOk(files, encode, cache, s))
    && (forall k {:trigger IsKeyOf(seen, encode, k)} | k in cache :: IsKeyOf(seen, encode, k))
  }

  /** The lookup hits exactly what was resolved before, and gives what resolving it would. */
  lemma CacheHitIsResolution(
    files: Files, encode: Combo -> string, cache: map<string, Fragment>, seen: set<Source>, s: Source)
    requires CacheOk(files, encode, cache, seen) && KeysUnambiguous(files.Keys, encode) && s.path in files
    ensures KeyOf(s, encode) in cache <==> s in seen
    ensures s in seen ==> Resolves(files, s.path, s.params, cache[KeyOf(s, encode)])
  {
    if s in seen {
      assert EntryOk(files, encode, cache, s);
    }
    if KeyOf(s, encode) in cache {
      assert IsKeyOf(seen, encode, KeyOf(s, encode));
      var x :| x in seen && KeyOf(x, encode) == KeyOf(s, encode);
      assert EntryOk(files, encode, cache, x);
      assert CacheKey(x.path, x.params, encode) == CacheKey(s.path, s.params, encode);
    }
  }

  /** Without unambiguous keys a hit can be wrong: once the first of these two files has been
      resolved, the lookup for the second one, which resolves as well, finds the first. */
  lemma CollidingHitIsWrong(encode: Combo -> string, cache: map<string, Fragment>, p: Path, k: string, v: string)
    requires EntryOk(CollidingFiles(encode, p, k, v), encode, cache, Source(p, map[k := v]))
    ensures var files, s := CollidingFiles(encode, p, k, v), Source(WithParams(p, map[k := v], encode), map[]);
            && s.path in files && Uncached(files, {}, s.path, s.params).Some?
            && KeyOf(s, encode) in cache && !Resolves(files, s.path, s.params, cache[KeyOf(s, encode)])
  {
    CollisionGivesWrongFile(encode, p, k, v);
  }

  /** `terminals` are the terminal jobs of what `s` resolves to. */
  ghost predicate StandsForSource(files: Files, s: Source, terminals: seq<Name>) {
    exists frag :: Resolves(files, s.path, s.params, frag) && terminals == Terminals(frag.jobs)
  }

  ghost predicate Has(log: seq<Registration>, a: string) {
    exists r | r in log :: r.alias == a
  }

  ghost predicate TableTells(files: Files, aliases: Aliases, r: Registration) {
    r.alias in aliases && StandsForSource(files, r.source, aliases[r.alias])
  }

  /** The alias table holds exactly the registrations, each with the terminal jobs of its file. */
  ghost predicate AliasesOk(files: Files, aliases: Aliases, log: seq<Registration>) {
    && DistinctAliases(log)
    && (forall a {:trigger Has(log, a)} :: a in aliases <==> Has(log, a))
    && (forall r {:trigger TableTells(files, aliases, r)} | r in log :: TableTells(files, aliases, r))
  }

  lemma NewAlias(files: Files, aliases: Aliases, log: seq<Registration>, r: Registration, frag: Fragment)
    requires AliasesOk(files, aliases, log) && Resolves(files, r.source.path, r.source.params, frag)
    ensures r.alias !in aliases ==> AliasesOk(files, aliases[r.alias := Terminals(frag.jobs)], log + [r])
    ensures r.alias in aliases ==> Repeated(log + [r], r.alias)
  {
    if r.alias in aliases {
      assert Has(log, r.alias);
      AliasTwice(log, r);
    } else {
      assert StandsForSource(files, r.source, Terminals(frag.jobs));
      FreshAlias(files, aliases, log, r, Terminals(frag.jobs));
    }
  }

  lemma AliasTwice(log: seq<Registration>, r: Registration)
    requires Has(log, r.alias)
    ensures Repeated(log + [r], r.alias)
  {
    var x :| x in log && x.alias == r.alias;
    var i :| 0 <= i < |log| && log[i] == x;
    assert (log + [r])[i].alias == (log + [r])[|log|].alias;
  }

  lemma HasMore(log: seq<Registration>, r: Registration, a: string)
    ensures Has(log + [r], a) <==> Has(log, a) || a == r.alias
  {
    assert forall x :: x in log + [r] <==> x in log || x == r;
    assert r in log + [r];
  }

  lemma FreshAlias(files: Files, aliases: Aliases, log: seq<Registration>, r: Registration, terminals: seq<Name>)
    requires AliasesOk(files, aliases, log) && r.alias !in aliases && StandsForSource(files, r.source, terminals)
    ensures AliasesOk(files, aliases[r.alias := terminals], log + [r])
  {
    var longer, after := log + [r], aliases[r.alias := terminals];
    forall a
      ensures a in after <==> Has(longer, a)
    {
      HasMore(log, r, a);
    }
    assert !Has(log, r.alias);
    forall x | x in longer
      ensures TableTells(files, after, x)
    {
      assert x in log ==> TableTells(files, aliases, x) && x.alias != r.alias;
    }
    DistinctMore(log, r);
  }

  lemma DistinctMore(log: seq<Registration>, r: Registration)
    requires DistinctAliases(log) && !Has(log, r.alias)
    ensures DistinctAliases(log + [r])
  {
    forall i | 0 <= i < |log|
      ensures log[i].alias != r.alias
    {
      assert log[i] in log;
    }
  }

  class IncludeState {
    var ancestors: seq<Path>
    var ancestorSet: set<Path>
    var cache: map<string, Fragment>
    var aliases: Aliases
    /** What has been resolved for later hits, and the aliases in the order of registration. */
    ghost var seen: set<Source>
    ghost var log: seq<Registration>

    constructor ()
      ensures ancestors == [] && ancestorSet == {} && cache == map[] && aliases == map[]
      ensures seen == {} && log == []
    {
      ancestors, ancestorSet, cache, aliases := [], {}, map[], map[];
      seen, log := {}, [];
    }

    /** The set holds exactly the paths on the stack, each once. */
    ghost predicate Consistent()
      reads this
    {
      && (forall p :: p in ancestorSet <==> p in ancestors)
      && |ancestorSet| == |ancestors|
      && Distinct(ancestors)
      && |ancestors| <= MAX_INCLUDE_DEPTH
    }

    method Push(absPath: Path) returns (err: Option<IncludeError>)
      requires Consistent()
      modifies this`ancestors, this`ancestorSet
      ensures Consistent()
      ensures old(absPath in ancestorSet) ==> err == Some(CircularInclude(absPath))
      ensures old(absPath !in ancestorSet && |ancestors| >= MAX_INCLUDE_DEPTH) ==> err == Some(IncludeDepth(absPath))
      ensures old(absPath !in ancestorSet && |ancestors| < MAX_INCLUDE_DEPTH) ==>
                err == None && ancestors == old(ancestors) + [absPath]
                && ancestorSet == old(ancestorSet) + {absPath}
      ensures err.Some? ==> ancestors == old(ancestors) && ancestorSet == old(ancestorSet)
    {
      if absPath in ancestorSet {
        return Some(CircularInclude(absPath));
      }
      if |ancestors| >= MAX_INCLUDE_DEPTH {
        return Some(IncludeDepth(absPath));
      }
      ancestors := ancestors + [absPath];
      ancestorSet := ancestorSet + {absPath};
      return None;
    }

    method Pop()
      requires Consistent() && ancestors != []
      modifies this`ancestors, this`ancestorSet
      ensures Consistent() && ancestors == old(ancestors)[..|old(ancestors)| - 1]
      ensures ancestorSet == old(ancestorSet) - {old(ancestors)[|old(ancestors)| - 1]}
    {
      var last := ancestors[|ancestors| - 1];
      ancestors := ancestors[..|ancestors| - 1];
      ancestorSet := ancestorSet - {last};
    }

    method RegisterAlias(alias: string, terminals: seq<Name>, ghost source: Source)
      returns (err: Option<IncludeError>)
      modifies this`aliases, this`log
      ensures old(alias in aliases) ==>
                err == Some(DuplicateAlias(alias)) && aliases == old(aliases) && log == old(log)
      ensures old(alias !in aliases) ==>
                err == None && aliases == old(aliases)[alias := terminals]
                && log == old(log) + [Registration(alias, source)]
    {
      if alias in aliases {
        return Some(DuplicateAlias(alias));
      }
      aliases := aliases[alias := terminals];
      log := log + [Registration(alias, source)];
      return None;
    }
  }

  /** Collects job groups in document order; consecutive inline jobs form one group. */
  class GroupCollector {
    var inline: seq<Pipeline.Job>
    var groups: seq<JobGroup>
    const origin: string

    constructor (origin: string)
      ensures Items() == [] && this.origin == origin
    {
      this.inline, this.groups, this.origin := [], [], origin;
    }

    /** Everything collected so far, in document order. */
    ghost function Items(): seq<Item>
      reads this
    {
      Flatten(groups) + Tagged(inline, ConflictError)
    }

    method AddJob(j: Pipeline.Job)
      modifies this
      ensures Items() == old(Items()) + [Item(j, ConflictError)]
    {
      inline := inline + [j];
      assert Tagged(inline, ConflictError) == Tagged(old(inline), ConflictError) + [Item(j, ConflictError)];
    }

    method AddInclude(jobs: seq<Pipeline.Job>, inc: Directive)
      modifies this
      ensures Items() == old(Items()) + Tagged(jobs, inc.onConflict)
    {
      Flush();
      groups := groups + [JobGroup(jobs, inc.target, inc.onConflict)];
    }

    method Flush()
      modifies this
      ensures Items() == old(Items()) && inline == []
    {
      if |inline| > 0 {
        groups := groups + [JobGroup(inline, origin, ConflictError)];
        inline := [];
      }
    }

    /** Merging the groups is merging the jobs in document order. */
    method MergeAll() returns (r: Result<seq<Pipeline.Job>, IncludeError>)
      modifies this
      ensures r.Err? <==> Conflicts(old(Items()))
      ensures r.Ok? ==> r.value == FirstOnes(old(Items()))
      ensures r.Err? ==> r.error == DuplicateJob
    {
      Flush();
      assert Items() == Flatten(groups);
      var merged := MergeJobs(groups);
      return if merged.Ok? then Ok(merged.value) else Err(DuplicateJob);
    }
  }

  // ----- The resolver -----

  /** An error that says something about the files rather than about this run. */
  predicate AboutFiles(e: IncludeError) {
    !e.IncludeDepth? && !e.DuplicateAlias?
  }

  /** The error names something that is really there, below `path`. */
  ghost predicate Justified(files: Files, path: Path, e: IncludeError) {
    match e
    case NotFound(p) => p !in files && Reach(IncludeGraph(files), path, p)
    case CircularInclude(p) => Reach(IncludeGraph(files), path, p) && OnCycle(IncludeGraph(files), p)
    case IncludeDepth(p) => Reach(IncludeGraph(files), path, p) && TooDeep(IncludeGraph(files), p)
    case _ => true
  }

  ghost predicate OnCycle(g: Graph, p: Path) {
    exists c :: IsCycle(g, c) && c[0] == p
  }

  /** A chain of 65 different files ends at `p`. */
  ghost predicate TooDeep(g: Graph, p: Path) {
    exists w :: IsPath(g, w) && |w| == MAX_INCLUDE_DEPTH + 1 && w[MAX_INCLUDE_DEPTH] == p && Distinct(w)
  }

  /** The stack is a chain of includes that ends at `target`. */
  ghost predicate OnChain(files: Files, ancestors: seq<Path>, target: Path) {
    IsPath(IncludeGraph(files), ancestors + [target])
  }

  lemma CycleFound(files: Files, ancestors: seq<Path>, target: Path, params: Combo)
    requires OnChain(files, ancestors, target) && target in ancestors
    ensures Justified(files, target, CircularInclude(target))
    ensures Uncached(files, {}, target, params).None?
  {
    var k :| 0 <= k < |ancestors| && ancestors[k] == target;
    var w := ancestors + [target];
    var c := w[k..];
    forall i | 0 <= i < |c| - 1
      ensures Edge(IncludeGraph(files), c[i], c[i + 1])
    {
      assert Edge(IncludeGraph(files), w[k + i], w[k + i + 1]);
    }
    assert IsCycle(IncludeGraph(files), c);
    ReachSelf(IncludeGraph(files), target);
    if Uncached(files, {}, target, params).Some? {
      ResolvableIsAcyclic(files, target, params);
    }
  }

  lemma DepthReached(files: Files, ancestors: seq<Path>, target: Path)
    requires OnChain(files, ancestors, target) && |ancestors| == MAX_INCLUDE_DEPTH
    requires Distinct(ancestors) && target !in ancestors
    ensures Justified(files, target, IncludeDepth(target))
  {
    var w := ancestors + [target];
    assert IsPath(IncludeGraph(files), w) && w[MAX_INCLUDE_DEPTH] == target && Distinct(w);
    ReachSelf(IncludeGraph(files), target);
  }

  /** A nested include that resolves on its own also resolves below the file it is in. */
  lemma NestedResolves(files: Files, path: Path, inc: Directive, frag: Fragment)
    requires path in files && inc.target in Include.Targets(NodesOf(files[path]))
    requires Resolves(files, inc.target, inc.params, frag)
    ensures Uncached(files, {path}, inc.target, inc.params) == Some(frag)
  {
    var g := IncludeGraph(files);
    assert Edge(g, path, inc.target);
    if Reach(g, inc.target, path) {
      var q :| PathBetween(g, q, inc.target, path);
      JoinPaths(g, q, [path, inc.target]);
      var c := q + [path, inc.target][1..];
      assert IsCycle(g, c);
      ReachSelf(g, inc.target);
      ResolvableIsAcyclic(files, inc.target, inc.params);
    }
    UnreachedAncestors(files, {}, {path}, inc.target, inc.params);
    assert {} + {path} == {path};
  }

  /** If a nested include does not resolve on its own, the file it is in does not either. */
  lemma {:induction false} NestedFailureSpreads(files: Files, anc: set<Path>, nodes: seq<Node>, i: nat)
    requires i < |nodes| && nodes[i].IncludeNode?
    requires Uncached(files, {}, nodes[i].inc.target, nodes[i].inc.params).None?
    ensures UncachedItems(files, anc, nodes).None?
  {
    if i == |nodes| - 1 {
      var inc := nodes[i].inc;
      if Uncached(files, anc, inc.target, inc.params).Some? {
        FewerAncestors(files, anc, {}, inc.target, inc.params);
      }
    } else {
      NestedFailureSpreads(files, anc, nodes[..|nodes| - 1], i);
    }
  }

  // ----- One file -----

  /** What an error of resolving `path` with `params` is worth. */
  ghost predicate FailsRightly(files: Files, path: Path, params: Combo, e: IncludeError) {
    && Justified(files, path, e)
    && (AboutFiles(e) ==> Uncached(files, {}, path, params).None?)
  }

  lemma FileResolves(files: Files, path: Path, params: Combo, items: seq<Item>)
    requires path in files && Acceptable(files[path], params)
    requires UncachedItems(files, {path}, NodesOf(files[path])) == Some(items) && !Conflicts(items)
    ensures Resolves(files, path, params, Finished(files[path], params, FirstOnes(items)))
  {
    assert {} + {path} == {path};
  }

  lemma ConflictFails(files: Files, path: Path, params: Combo, items: seq<Item>)
    requires path in files && UncachedItems(files, {path}, NodesOf(files[path])) == Some(items) && Conflicts(items)
    ensures FailsRightly(files, path, params, DuplicateJob)
  {
    assert {} + {path} == {path};
  }

  lemma UnacceptableFails(files: Files, path: Path, params: Combo, e: IncludeError)
    requires path in files && !Acceptable(files[path], params)
    requires e in {Unreadable, UnknownNode, EmptyInclude, PipelineNoParams, DuplicateParam, MissingParam, UnknownParam}
    ensures FailsRightly(files, path, params, e)
  {
  }

  lemma CacheGrows(
    files: Files, encode: Combo -> string, cache: map<string, Fragment>, seen: set<Source>, s: Source, frag: Fragment)
    requires CacheOk(files, encode, cache, seen) && KeysUnambiguous(files.Keys, encode)
    requires s.path in files && Resolves(files, s.path, s.params, frag)
    ensures CacheOk(files, encode, cache[KeyOf(s, encode) := frag], seen + {s})
  {
    var after, more := cache[KeyOf(s, encode) := frag], seen + {s};
    forall x | x in more
      ensures EntryOk(files, encode, after, x)
    {
      if x in seen {
        assert EntryOk(files, encode, cache, x);
        assert CacheKey(x.path, x.params, encode) == CacheKey(s.path, s.params, encode) ==> x == s;
      }
    }
    forall k | k in after
      ensures IsKeyOf(more, encode, k)
    {
      if k in cache {
        assert IsKeyOf(seen, encode, k);
        var x :| x in seen && KeyOf(x, encode) == k;
        assert x in more;
      } else {
        assert s in more && KeyOf(s, encode) == k;
      }
    }
  }

  // ----- Following the visits -----

  /** State and log went the way `v` says. */
  ghost predicate Follows(
    v: Visit, logBefore: seq<Registration>, log: seq<Registration>, seen: set<Source>) {
    log == logBefore + v.log && seen == v.seen && !v.deep
  }

  /** A second registration of an alias and the depth limit are met only where the visit says so. */
  ghost predicate FailsAsVisited(v: Visit, logBefore: seq<Registration>, e: IncludeError) {
    && (e.DuplicateAlias? ==> Repeated(logBefore + v.log, e.alias))
    && (e.IncludeDepth? ==> v.deep)
  }

  /** An error of a nested include is one of the whole node list. */
  lemma NestedAsVisited(
    files: Files, anc: set<Path>, seen: set<Source>, nodes: seq<Node>, i: nat,
    logBefore: seq<Registration>, e: IncludeError)
    requires i < |nodes| && nodes[i].IncludeNode?
    requires !VisitsAll(files, anc, seen, nodes[..i]).deep
    requires var before := VisitsAll(files, anc, seen, nodes[..i]);
             FailsAsVisited(IncludeVisit(files, anc, before.seen, nodes[i].inc), logBefore + before.log, e)
    ensures FailsAsVisited(VisitsAll(files, anc, seen, nodes), logBefore, e)
  {
    var before := VisitsAll(files, anc, seen, nodes[..i]);
    var v := IncludeVisit(files, anc, before.seen, nodes[i].inc);
    VisitsStep(files, anc, seen, nodes, i);
    VisitsPrefix(files, anc, seen, nodes, i + 1);
    assert logBefore + before.log + v.log == logBefore + (before.log + v.log);
    if e.DuplicateAlias? {
      RepeatedLonger(logBefore + before.log + v.log, logBefore + VisitsAll(files, anc, seen, nodes).log, e.alias);
    }
  }

  lemma NextFollows(
    files: Files, anc: set<Path>, seen: set<Source>, nodes: seq<Node>, i: nat,
    logBefore: seq<Registration>, logNow: seq<Registration>, logAfter: seq<Registration>, seenAfter: set<Source>)
    requires i < |nodes|
    requires var before := VisitsAll(files, anc, seen, nodes[..i]);
             && logNow == logBefore + before.log && !before.deep
             && if nodes[i].IncludeNode? then
                  Follows(IncludeVisit(files, anc, before.seen, nodes[i].inc), logNow, logAfter, seenAfter)
                else logAfter == logNow && seenAfter == before.seen
    ensures Follows(VisitsAll(files, anc, seen, nodes[..i + 1]), logBefore, logAfter, seenAfter)
  {
    VisitsStep(files, anc, seen, nodes, i);
  }

  // ----- The node loop -----

  /** The nodes before `i` have been collected into `items`. */
  ghost predicate Collected(files: Files, anc: set<Path>, nodes: seq<Node>, i: nat, items: seq<Item>) {
    i <= |nodes| && UncachedItems(files, anc, nodes[..i]) == Some(items)
  }

  lemma CollectedJob(files: Files, anc: set<Path>, nodes: seq<Node>, i: nat, items: seq<Item>)
    requires i < |nodes| && Collected(files, anc, nodes, i, items) && nodes[i].JobNode?
    ensures Collected(files, anc, nodes, i + 1, items + [Item(nodes[i].job, ConflictError)])
  {
    assert nodes[..i + 1][..i] == nodes[..i];
  }

  lemma CollectedOther(files: Files, anc: set<Path>, nodes: seq<Node>, i: nat, items: seq<Item>)
    requires i < |nodes| && Collected(files, anc, nodes, i, items) && (nodes[i].ParamNode? || nodes[i].SettingNode?)
    ensures Collected(files, anc, nodes, i + 1, items)
  {
    assert nodes[..i + 1][..i] == nodes[..i];
  }

  lemma CollectedInclude(files: Files, anc: set<Path>, nodes: seq<Node>, i: nat, items: seq<Item>, frag: Fragment)
    requires i < |nodes| && Collected(files, anc, nodes, i, items) && nodes[i].IncludeNode?
    requires Uncached(files, anc, nodes[i].inc.target, nodes[i].inc.params) == Some(frag)
    ensures Collected(files, anc, nodes, i + 1, items + Tagged(frag.jobs, nodes[i].inc.onConflict))
  {
    assert nodes[..i + 1][..i] == nodes[..i];
  }

  /** The parameters declared before `i`, all different, in a fragment without settings so far. */
  ghost predicate ParamsSoFar(nodes: seq<Node>, i: nat, defs: seq<ParamDef>) {
    && i <= |nodes| && defs == ParamDefs(nodes[..i]) && DistinctParams(defs)
    && forall k | 0 <= k < i :: !nodes[k].SettingNode?
  }

  lemma ParamsStep(nodes: seq<Node>, i: nat, defs: seq<ParamDef>)
    requires i < |nodes| && ParamsSoFar(nodes, i, defs) && !nodes[i].SettingNode?
    ensures !nodes[i].ParamNode? ==> ParamsSoFar(nodes, i + 1, defs)
    ensures nodes[i].ParamNode? && !DeclaresParam(defs, nodes[i].param.name) ==>
              ParamsSoFar(nodes, i + 1, defs + [nodes[i].param])
    ensures nodes[i].ParamNode? && DeclaresParam(defs, nodes[i].param.name) ==> !DistinctParams(ParamDefs(nodes))
  {
    assert nodes[..i + 1][..i] == nodes[..i];
    if nodes[i].ParamNode? {
      var d := nodes[i].param;
      assert (defs + [d])[..|defs|] == defs;
      if DeclaresParam(defs, d.name) {
        DuplicateDeclared(nodes, i);
      }
    }
  }

  lemma {:induction false} DuplicateDeclared(nodes: seq<Node>, i: nat)
    requires i < |nodes| && nodes[i].ParamNode?
    requires DeclaresParam(ParamDefs(nodes[..i]), nodes[i].param.name)
    ensures !DistinctParams(ParamDefs(nodes))
    decreases |nodes|
  {
    var n := |nodes| - 1;
    var front := ParamDefs(nodes[..n]);
    if nodes[n].ParamNode? {
      assert ParamDefs(nodes) == front + [nodes[n].param];
      assert (front + [nodes[n].param])[..|front|] == front;
    } else {
      assert ParamDefs(nodes) == front;
    }
    if i < n {
      assert nodes[..n][..i] == nodes[..i];
      DuplicateDeclared(nodes[..n], i);
      assert !DistinctParams(front);
    }
  }

  /** A successful inclusion by `inc`: the jobs of the resolved file, under its alias. */
  ghost predicate Included(files: Files, inc: Directive, jobs: seq<Job>, named: Directive) {
    && named == inc.(alias := AliasOf(files, inc))
    && exists frag :: Resolves(files, inc.target, inc.params, frag) && jobs == frag.jobs
  }

  lemma ResolvedName(files: Files, path: Path, params: Combo, frag: Fragment)
    requires Resolves(files, path, params, frag)
    ensures path in files && frag.name == NameOf(files, path)
  {
  }

  /** `path` is the last file on the stack, a chain of includes. */
  ghost predicate OnTop(files: Files, ancestors: seq<Path>, path: Path) {
    IsPath(IncludeGraph(files), ancestors) && ancestors[|ancestors| - 1] == path
  }

  ghost predicate IsFragmentWith(f: File, defs: seq<ParamDef>) {
    && f.FragmentFile? && (forall n | n in f.nodes :: !n.SettingNode?)
    && defs == ParamDefs(f.nodes) && DistinctParams(defs)
  }

  lemma PushFails(files: Files, ancestors: seq<Path>, inc: Directive, e: IncludeError)
    requires OnChain(files, ancestors, inc.target) && Distinct(ancestors)
    requires || (e == CircularInclude(inc.target) && inc.target in ancestors)
             || (e == IncludeDepth(inc.target) && inc.target !in ancestors && |ancestors| == MAX_INCLUDE_DEPTH)
    ensures FailsRightly(files, inc.target, inc.params, e)
  {
    if inc.target in ancestors {
      CycleFound(files, ancestors, inc.target, inc.params);
    } else {
      DepthReached(files, ancestors, inc.target);
    }
  }

  lemma MissingFails(files: Files, path: Path, params: Combo)
    requires path !in files
    ensures FailsRightly(files, path, params, NotFound(path))
  {
    ReachSelf(IncludeGraph(files), path);
  }

  lemma SettingFails(files: Files, path: Path, params: Combo, i: nat)
    requires path in files && files[path].FragmentFile?
    requires i < |files[path].nodes| && files[path].nodes[i].SettingNode?
    ensures FailsRightly(files, path, params, UnknownNode)
  {
    assert files[path].nodes[i] in files[path].nodes;
    UnacceptableFails(files, path, params, UnknownNode);
  }

  lemma NextOnChain(files: Files, ancestors: seq<Path>, path: Path, i: nat)
    requires path in files && !files[path].BrokenFile? && OnTop(files, ancestors, path)
    requires i < |files[path].nodes| && files[path].nodes[i].IncludeNode?
    ensures OnChain(files, ancestors, files[path].nodes[i].inc.target)
    ensures files[path].nodes[i].inc.target in Targets(NodesOf(files[path]))
  {
    var t := files[path].nodes[i].inc.target;
    TargetMembers(files[path].nodes, t);
    assert Edge(IncludeGraph(files), path, t);
  }

  lemma NestedErrorIsOurs(files: Files, path: Path, params: Combo, i: nat, e: IncludeError)
    requires path in files && !files[path].BrokenFile?
    requires i < |files[path].nodes| && files[path].nodes[i].IncludeNode?
    requires files[path].nodes[i].inc.target in Targets(NodesOf(files[path]))
    requires FailsRightly(files, files[path].nodes[i].inc.target, files[path].nodes[i].inc.params, e)
    ensures FailsRightly(files, path, params, e)
  {
    ReachedFromFile(files, path, files[path].nodes[i].inc.target, e);
    if AboutFiles(e) {
      NestedFailureSpreads(files, {} + {path}, files[path].nodes, i);
    }
  }

  lemma ReachedFromFile(files: Files, path: Path, target: Path, e: IncludeError)
    requires path in files && target in Targets(NodesOf(files[path])) && Justified(files, target, e)
    ensures Justified(files, path, e)
  {
    var g := IncludeGraph(files);
    ReachEdge(g, path, target);
    if e.NotFound? || e.CircularInclude? || e.IncludeDepth? {
      ReachTrans(g, path, target, e.path);
    }
  }

  /** A successful nested inclusion adds what uncached resolution below `path` gives. */
  lemma IncludedItems(
    files: Files, path: Path, i: nat, items: seq<Item>, jobs: seq<Job>, named: Directive)
    requires path in files && !files[path].BrokenFile? && i < |files[path].nodes|
    requires files[path].nodes[i].IncludeNode?
    requires files[path].nodes[i].inc.target in Targets(NodesOf(files[path]))
    requires Collected(files, {path}, files[path].nodes, i, items)
    requires Included(files, files[path].nodes[i].inc, jobs, named)
    ensures Collected(files, {path}, files[path].nodes, i + 1, items + Tagged(jobs, named.onConflict))
  {
    var inc := files[path].nodes[i].inc;
    var frag :| Resolves(files, inc.target, inc.params, frag) && jobs == frag.jobs;
    NestedResolves(files, path, inc, frag);
    CollectedInclude(files, {path}, files[path].nodes, i, items, frag);
  }

  /** A hit visits nothing, a miss visits the file. */
  ghost function FindVisit(files: Files, anc: set<Path>, seen: set<Source>, s: Source): Visit
    requires s.path in files
  {
    if s in seen then Visit([], seen, false) else FileVisit(files, anc, seen, s)
  }

  /** After a successful push the visit of an include is that of finding its fragment, and the
      registration. */
  lemma PushedVisit(files: Files, anc: set<Path>, seen: set<Source>, inc: Directive)
    requires inc.target in files && inc.target !in anc && |anc| < MAX_INCLUDE_DEPTH
    ensures var v := FindVisit(files, anc + {inc.target}, seen, SourceOf(inc));
            IncludeVisit(files, anc, seen, inc) == Visit(v.log + [RegistrationOf(files, inc)], v.seen, v.deep)
  {
  }

  lemma PushedAsVisited(
    files: Files, anc: set<Path>, seen: set<Source>, inc: Directive, log: seq<Registration>, e: IncludeError)
    requires inc.target in files
    requires || e == CircularInclude(inc.target)
             || (e == IncludeDepth(inc.target) && inc.target !in anc && |anc| >= MAX_INCLUDE_DEPTH)
    ensures FailsAsVisited(IncludeVisit(files, anc, seen, inc), log, e)
  {
  }

  lemma FoundErrorIsOurs(
    files: Files, anc: set<Path>, seen: set<Source>, inc: Directive, log: seq<Registration>, e: IncludeError)
    requires inc.target in files && inc.target !in anc && |anc| < MAX_INCLUDE_DEPTH
    requires FailsAsVisited(FindVisit(files, anc + {inc.target}, seen, SourceOf(inc)), log, e)
    ensures FailsAsVisited(IncludeVisit(files, anc, seen, inc), log, e)
  {
    PushedVisit(files, anc, seen, inc);
    var v := FindVisit(files, anc + {inc.target}, seen, SourceOf(inc));
    if e.DuplicateAlias? {
      RepeatedLonger(log + v.log, log + (v.log + [RegistrationOf(files, inc)]), e.alias);
    }
  }

  lemma RegisteredAfter(
    files: Files, anc: set<Path>, seen: set<Source>, inc: Directive,
    logBefore: seq<Registration>, log: seq<Registration>, seenAfter: set<Source>)
    requires inc.target in files && inc.target !in anc && |anc| < MAX_INCLUDE_DEPTH
    requires Follows(FindVisit(files, anc + {inc.target}, seen, SourceOf(inc)), logBefore, log, seenAfter)
    ensures Follows(IncludeVisit(files, anc, seen, inc), logBefore, log + [RegistrationOf(files, inc)], seenAfter)
  {
    PushedVisit(files, anc, seen, inc);
  }

  lemma TakenFails(
    files: Files, anc: set<Path>, seen: set<Source>, inc: Directive,
    logBefore: seq<Registration>, log: seq<Registration>, seenAfter: set<Source>)
    requires Follows(IncludeVisit(files, anc, seen, inc), logBefore, log + [RegistrationOf(files, inc)], seenAfter)
    requires Repeated(log + [RegistrationOf(files, inc)], AliasOf(files, inc))
    ensures FailsRightly(files, inc.target, inc.params, DuplicateAlias(AliasOf(files, inc)))
    ensures FailsAsVisited(IncludeVisit(files, anc, seen, inc), logBefore, DuplicateAlias(AliasOf(files, inc)))
  {
  }

  class Parser {
    const files: Files
    const encode: Combo -> string

    constructor (files: Files, encode: Combo -> string)
      ensures this.files == files && this.encode == encode
    {
      this.files, this.encode := files, encode;
    }

    /** Which includes a cache key stands for is never in doubt. */
    ghost predicate KeysTellApart() {
      KeysUnambiguous(files.Keys, encode)
    }

    ghost predicate StateOk(state: IncludeState)
      reads state
    {
      && state.Consistent()
      && CacheOk(files, encode, state.cache, state.seen)
      && AliasesOk(files, state.aliases, state.log)
    }

    /** Resolves one include. On a hit as on a miss the result is what uncached resolution
        gives; the stack is restored on every return; aliases and cache go the way the visit of
        the include says. */
    method ResolveInclude(inc: Directive, state: IncludeState)
      returns (r: Result<(seq<Job>, Directive), IncludeError>)
      requires KeysTellApart() && StateOk(state) && OnChain(files, state.ancestors, inc.target)
      modifies state
      ensures StateOk(state)
      ensures state.ancestors == old(state.ancestors) && state.ancestorSet == old(state.ancestorSet)
      ensures r.Ok? ==> Included(files, inc, r.value.0, r.value.1)
      ensures r.Ok? ==> Follows(IncludeVisit(files, old(state.ancestorSet), old(state.seen), inc),
                                old(state.log), state.log, state.seen)
      ensures r.Err? ==> FailsRightly(files, inc.target, inc.params, r.error)
      ensures r.Err? ==> FailsAsVisited(IncludeVisit(files, old(state.ancestorSet), old(state.seen), inc),
                                        old(state.log), r.error)
      decreases MAX_INCLUDE_DEPTH - |state.ancestors|, 0
    {
      var refused := PushTarget(inc, state);
      if refused.Some? {
        return Err(refused.value);
      }
      r := ResolvePushed(inc, state, old(state.ancestorSet));
      state.Pop();
    }

    /** The part between push and pop. */
    method ResolvePushed(inc: Directive, state: IncludeState, ghost anc: set<Path>)
      returns (r: Result<(seq<Job>, Directive), IncludeError>)
      requires KeysTellApart() && StateOk(state) && OnTop(files, state.ancestors, inc.target)
      requires inc.target in files && inc.target !in anc && |anc| < MAX_INCLUDE_DEPTH
      requires state.ancestorSet == anc + {inc.target}
      modifies state
      ensures StateOk(state)
      ensures state.ancestors == old(state.ancestors) && state.ancestorSet == old(state.ancestorSet)
      ensures r.Ok? ==> Included(files, inc, r.value.0, r.value.1)
      ensures r.Ok? ==> Follows(IncludeVisit(files, anc, old(state.seen), inc), old(state.log), state.log, state.seen)
      ensures r.Err? ==> FailsRightly(files, inc.target, inc.params, r.error)
      ensures r.Err? ==> FailsAsVisited(IncludeVisit(files, anc, old(state.seen), inc), old(state.log), r.error)
      decreases MAX_INCLUDE_DEPTH - |state.ancestors|, 4
    {
      var found := FindFragment(inc.target, inc.params, state);
      if found.Err? {
        FoundErrorIsOurs(files, anc, old(state.seen), inc, old(state.log), found.error);
        return Err(found.error);
      }
      RegisteredAfter(files, anc, old(state.seen), inc, old(state.log), state.log, state.seen);
      ghost var logNow := state.log;
      r := Register(inc, found.value, state);
      if r.Err? {
        TakenFails(files, anc, old(state.seen), inc, old(state.log), logNow, state.seen);
      }
    }

    /** Finds the file and puts it on the stack. */
    method PushTarget(inc: Directive, state: IncludeState) returns (err: Option<IncludeError>)
      requires StateOk(state) && OnChain(files, state.ancestors, inc.target)
      modifies state`ancestors, state`ancestorSet
      ensures StateOk(state)
      ensures err.None? ==>
                && state.ancestors == old(state.ancestors) + [inc.target]
                && state.ancestorSet == old(state.ancestorSet) + {inc.target}
                && OnTop(files, state.ancestors, inc.target)
                && inc.target in files && inc.target !in old(state.ancestorSet)
                && |old(state.ancestorSet)| < MAX_INCLUDE_DEPTH
      ensures err.Some? ==>
                && state.ancestors == old(state.ancestors) && state.ancestorSet == old(state.ancestorSet)
                && FailsRightly(files, inc.target, inc.params, err.value)
                && FailsAsVisited(IncludeVisit(files, state.ancestorSet, state.seen, inc), state.log, err.value)
    {
      if inc.target !in files {
        MissingFails(files, inc.target, inc.params);
        return Some(NotFound(inc.target));
      }
      err := state.Push(inc.target);
      if err.Some? {
        PushFails(files, state.ancestors, inc, err.value);
        PushedAsVisited(files, state.ancestorSet, state.seen, inc, state.log, err.value);
      }
    }

    /** Fills an empty alias from the file's name and registers it for the terminal jobs. */
    method Register(inc: Directive, frag: Fragment, state: IncludeState)
      returns (r: Result<(seq<Job>, Directive), IncludeError>)
      requires StateOk(state) && Resolves(files, inc.target, inc.params, frag)
      modifies state`aliases, state`log
      ensures StateOk(state)
      ensures r.Ok? ==> Included(files, inc, r.value.0, r.value.1)
                        && state.log == old(state.log) + [RegistrationOf(files, inc)]
      ensures r.Err? ==> state.log == old(state.log) && r.error == DuplicateAlias(AliasOf(files, inc))
                         && Repeated(old(state.log) + [RegistrationOf(files, inc)], AliasOf(files, inc))
    {
      ResolvedName(files, inc.target, inc.params, frag);
      var named := inc;
      if inc.alias == "" {
        named := inc.(alias := frag.name);
      }
      var terminals := TerminalJobs(frag.jobs);
      NewAlias(files, state.aliases, state.log, RegistrationOf(files, inc), frag);
      var registered := state.RegisterAlias(named.alias, terminals, SourceOf(inc));
      if registered.Some? {
        return Err(registered.value);
      }
      return Ok((frag.jobs, named));
    }

    /** The cached fragment where there is one, the parsed file otherwise. */
    method FindFragment(path: Path, params: Combo, state: IncludeState)
      returns (r: Result<Fragment, IncludeError>)
      requires KeysTellApart() && StateOk(state)
      requires path in files && OnTop(files, state.ancestors, path)
      modifies state
      ensures StateOk(state)
      ensures state.ancestors == old(state.ancestors) && state.ancestorSet == old(state.ancestorSet)
      ensures r.Ok? ==> Resolves(files, path, params, r.value)
      ensures r.Ok? ==> Follows(FindVisit(files, old(state.ancestorSet), old(state.seen), Source(path, params)),
                                old(state.log), state.log, state.seen)
      ensures r.Err? ==> FailsRightly(files, path, params, r.error)
      ensures r.Err? ==> FailsAsVisited(FindVisit(files, old(state.ancestorSet), old(state.seen), Source(path, params)),
                                        old(state.log), r.error)
      decreases MAX_INCLUDE_DEPTH - |state.ancestors|, 3
    {
      var key := CacheKey(path, params, encode);
      CacheHitIsResolution(files, encode, state.cache, state.seen, Source(path, params));
      if key in state.cache {
        return Ok(state.cache[key]);
      }
      r := ParseIncludedFile(path, params, state);
    }

    method ParseIncludedFile(path: Path, params: Combo, state: IncludeState)
      returns (r: Result<Fragment, IncludeError>)
      requires KeysTellApart() && StateOk(state)
      requires path in files && OnTop(files, state.ancestors, path)
      modifies state
      ensures StateOk(state)
      ensures state.ancestors == old(state.ancestors) && state.ancestorSet == old(state.ancestorSet)
      ensures r.Ok? ==> Resolves(files, path, params, r.value)
      ensures r.Ok? ==> Follows(FileVisit(files, old(state.ancestorSet), old(state.seen), Source(path, params)),
                                old(state.log), state.log, state.seen)
      ensures r.Err? ==> FailsRightly(files, path, params, r.error)
      ensures r.Err? ==> FailsAsVisited(FileVisit(files, old(state.ancestorSet), old(state.seen), Source(path, params)),
                                        old(state.log), r.error)
      decreases MAX_INCLUDE_DEPTH - |state.ancestors|, 2
    {
      var refused := CheckKind(path, params);
      if refused.Some? {
        return Err(refused.value);
      }
      var file := files[path];
      var gc := new GroupCollector(path);
      var collected := CollectNodes(path, params, gc, state);
      if collected.Err? {
        return Err(collected.error);
      }
      var finished := FinishFile(path, params, gc, collected.value);
      if finished.Err? {
        return Err(finished.error);
      }
      CacheGrows(files, encode, state.cache, state.seen, Source(path, params), finished.value);
      state.cache := state.cache[CacheKey(path, params, encode) := finished.value];
      state.seen := state.seen + {Source(path, params)};
      return Ok(finished.value);
    }

    /** Merging what was collected and substituting the parameters. */
    method FinishFile(path: Path, params: Combo, gc: GroupCollector, defs: seq<ParamDef>)
      returns (r: Result<Fragment, IncludeError>)
      requires path in files && !files[path].BrokenFile?
      requires files[path].PipelineFile? ==> Acceptable(files[path], params)
      requires files[path].FragmentFile? ==> IsFragmentWith(files[path], defs)
      requires UncachedItems(files, {path}, files[path].nodes) == Some(gc.Items())
      modifies gc
      ensures r.Ok? ==> Resolves(files, path, params, r.value)
      ensures r.Err? ==> FailsRightly(files, path, params, r.error) && AboutFiles(r.error)
    {
      var file := files[path];
      ghost var items := gc.Items();
      var merged := gc.MergeAll();
      if merged.Err? {
        ConflictFails(files, path, params, items);
        return Err(merged.error);
      }
      var frag := Fragment(file.name, merged.value);
      if file.FragmentFile? {
        var resolved := ResolveParams(defs, params);
        if resolved.Err? {
          UnacceptableFails(files, path, params, resolved.error);
          return Err(resolved.error);
        }
        frag := Fragment(file.name, SubstituteParams(merged.value, resolved.value));
      }
      FileResolves(files, path, params, items);
      return Ok(frag);
    }

    /** What can be said of a file before its nodes are looked at one by one. */
    method CheckKind(path: Path, params: Combo) returns (err: Option<IncludeError>)
      requires path in files
      ensures err.Some? ==> FailsRightly(files, path, params, err.value) && AboutFiles(err.value)
      ensures err.None? ==> !files[path].BrokenFile?
      ensures err.None? && files[path].PipelineFile? ==> Acceptable(files[path], params)
    {
      var file := files[path];
      err := None;
      if file.BrokenFile? {
        err := Some(Unreadable);
      } else if file.PipelineFile? {
        if exists n | n in file.nodes :: n.ParamNode? {
          err := Some(UnknownNode);
        } else if file.nodes == [] {
          err := Some(EmptyInclude);
        } else if params != map[] {
          err := Some(PipelineNoParams);
        }
      }
      if err.Some? {
        UnacceptableFails(files, path, params, err.value);
      }
    }

    /** The node loop of a fragment or pipeline file: collects the jobs into `gc` and returns
        the parameters the file declares. */
    method CollectNodes(path: Path, ghost params: Combo, gc: GroupCollector, state: IncludeState)
      returns (r: Result<seq<ParamDef>, IncludeError>)
      requires KeysTellApart() && StateOk(state)
      requires path in files && !files[path].BrokenFile? && OnTop(files, state.ancestors, path)
      requires gc.Items() == []
      modifies state, gc
      ensures StateOk(state)
      ensures state.ancestors == old(state.ancestors) && state.ancestorSet == old(state.ancestorSet)
      ensures r.Ok? ==> UncachedItems(files, {path}, files[path].nodes) == Some(gc.Items())
      ensures r.Ok? && files[path].FragmentFile? ==> IsFragmentWith(files[path], r.value)
      ensures r.Ok? ==> Follows(VisitsAll(files, old(state.ancestorSet), old(state.seen), files[path].nodes),
                                old(state.log), state.log, state.seen)
      ensures r.Err? ==> FailsRightly(files, path, params, r.error)
      ensures r.Err? ==> FailsAsVisited(VisitsAll(files, old(state.ancestorSet), old(state.seen), files[path].nodes),
                                        old(state.log), r.error)
      decreases MAX_INCLUDE_DEPTH - |state.ancestors|, 1
    {
      var nodes := files[path].nodes;
      var isFragment := files[path].FragmentFile?;
      var defs: seq<ParamDef> := [];
      for i := 0 to |nodes|
        invariant StateOk(state)
        invariant state.ancestors == old(state.ancestors) && state.ancestorSet == old(state.ancestorSet)
        invariant Follows(VisitsAll(files, old(state.ancestorSet), old(state.seen), nodes[..i]),
                          old(state.log), state.log, state.seen)
        invariant Collected(files, {path}, nodes, i, gc.Items())
        invariant isFragment ==> ParamsSoFar(nodes, i, defs)
      {
        if isFragment {
          if nodes[i].SettingNode? {
            SettingFails(files, path, params, i);
            return Err(UnknownNode);
          }
          ParamsStep(nodes, i, defs);
        }
        ghost var logNow := state.log;
        match nodes[i] {
          case JobNode(j) =>
            CollectedJob(files, {path}, nodes, i, gc.Items());
            gc.AddJob(j);
          case IncludeNode(inc) =>
            NextOnChain(files, state.ancestors, path, i);
            var resolved := ResolveInclude(inc, state);
            if resolved.Err? {
              NestedErrorIsOurs(files, path, params, i, resolved.error);
              NestedAsVisited(files, old(state.ancestorSet), old(state.seen), nodes, i, old(state.log), resolved.error);
              return Err(resolved.error);
            }
            IncludedItems(files, path, i, gc.Items(), resolved.value.0, resolved.value.1);
            gc.AddInclude(resolved.value.0, resolved.value.1);
          case ParamNode(def) =>
            CollectedOther(files, {path}, nodes, i, gc.Items());
            if isFragment {
              if DeclaresParam(defs, def.name) {
                UnacceptableFails(files, path, params, DuplicateParam);
                return Err(DuplicateParam);
              }
              defs := defs + [def];
            }
          case SettingNode =>
            CollectedOther(files, {path}, nodes, i, gc.Items());
        }
        NextFollows(files, old(state.ancestorSet), old(state.seen), nodes, i,
                    old(state.log), logNow, state.log, state.seen);
      }
      assert nodes[..|nodes|] == nodes;
      assert forall n | n in nodes :: exists k :: 0 <= k < |nodes| && nodes[k] == n;
      return Ok(defs);
    }
  }
}
