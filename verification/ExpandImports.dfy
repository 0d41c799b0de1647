/** Where imported files come from after matrix expansion (pkg/pipeline/expand.go).

    Phase 1 turns every source into the job of the same copy. Phase 2 can only follow a source that
    has a single variant; otherwise the old name is left, which `Validate` rejects. All statements
    hold for the artifacts of a job and of its steps alike. */
module ExpandImports {
  import opened DependencyGraph
  import opened Wrappers
  import opened Pipeline
  import opened Substitute
  import opened ExpandedNames
  import opened Expand
  import opened ExpandGraph

  // ----- Lists of artifacts whose sources are renamed -----

  ghost predicate Renamed(arts: seq<Artifact>, out: seq<Artifact>, f: Name -> Name) {
    |out| == |arts| && forall i | 0 <= i < |arts| :: out[i].from == f(arts[i].from)
  }

  /** The sources of all artifacts, on the job and on its steps, are renamed by `f`. */
  ghost predicate SourcesRenamed(j: Job, out: Job, f: Name -> Name) {
    && Renamed(j.artifacts, out.artifacts, f) && |out.steps| == |j.steps|
    && forall i | 0 <= i < |j.steps| :: Renamed(j.steps[i].artifacts, out.steps[i].artifacts, f)
  }

  lemma RenamedMember(arts: seq<Artifact>, out: seq<Artifact>, f: Name -> Name, w: Name)
    requires Renamed(arts, out, f)
    ensures (exists a :: a in out && a.from == w) <==> exists a :: a in arts && w == f(a.from)
  {
    if a :| a in out && a.from == w {
      var i :| 0 <= i < |out| && out[i] == a;
      assert arts[i] in arts;
    }
    if a :| a in arts && w == f(a.from) {
      var i :| 0 <= i < |arts| && arts[i] == a;
      assert out[i] in out;
    }
  }

  /** A renamed job imports from the renamed sources and from nowhere else. */
  lemma RenamedImports(j: Job, out: Job, f: Name -> Name, w: Name)
    requires SourcesRenamed(j, out, f)
    ensures ImportsFrom(out, w) <==> exists n :: ImportsFrom(j, n) && w == f(n)
  {
    RenamedMember(j.artifacts, out.artifacts, f, w);
    if ImportsFrom(out, w) {
      if a :| a in j.artifacts && w == f(a.from) {
        assert ImportsFrom(j, a.from);
      } else {
        var s :| s in out.steps && exists a :: a in s.artifacts && a.from == w;
        var i :| 0 <= i < |out.steps| && out.steps[i] == s;
        RenamedMember(j.steps[i].artifacts, out.steps[i].artifacts, f, w);
        var a :| a in j.steps[i].artifacts && w == f(a.from);
        assert j.steps[i] in j.steps && ImportsFrom(j, a.from);
      }
    }
    if n :| ImportsFrom(j, n) && w == f(n) {
      RenamedIsImported(j, out, f, n);
    }
  }

  lemma RenamedIsImported(j: Job, out: Job, f: Name -> Name, n: Name)
    requires SourcesRenamed(j, out, f) && ImportsFrom(j, n)
    ensures ImportsFrom(out, f(n))
  {
    RenamedMember(j.artifacts, out.artifacts, f, f(n));
    if !(exists a :: a in j.artifacts && a.from == n) {
      var s :| s in j.steps && exists a :: a in s.artifacts && a.from == n;
      var i :| 0 <= i < |j.steps| && j.steps[i] == s;
      RenamedMember(j.steps[i].artifacts, out.steps[i].artifacts, f, f(n));
      assert out.steps[i] in out.steps;
    }
  }

  function Unchanged(n: Name): Name {
    n
  }

  lemma RenamedOnce(a: Job, b: Job, c: Job, f: Name -> Name)
    requires SourcesRenamed(a, b, Unchanged) && SourcesRenamed(b, c, f)
    ensures SourcesRenamed(a, c, f)
  {
    forall i | 0 <= i < |a.steps|
      ensures Renamed(a.steps[i].artifacts, c.steps[i].artifacts, f)
    {
      assert Renamed(a.steps[i].artifacts, b.steps[i].artifacts, Unchanged);
      assert Renamed(b.steps[i].artifacts, c.steps[i].artifacts, f);
    }
  }

  lemma SubstitutionRenamesNothing(j: Job, combo: Combo)
    ensures SourcesRenamed(j, SubstituteJobVars(j, combo, "matrix."), Unchanged)
  {
    EdgesStay(j, s => Substituted(s, combo, "matrix."));
  }

  /** The job names every source. */
  ghost predicate NamesSources(j: Job) {
    !ImportsFrom(j, "")
  }

  // ----- Phase 1 -----

  function SourceIn(c: Combo): Name -> Name {
    n => if n == "" then "" else Expanded(n, c)
  }

  /** In copy `c` a file that came from `n` comes from the job of `n` in copy `c`. */
  lemma ReplicaRenamesSources(j: Job, c: Combo)
    ensures SourcesRenamed(j, Replica(j, c), SourceIn(c))
  {
    var r := SubstituteJobVars(j, c, "matrix.");
    SubstitutionRenamesNothing(j, c);
    forall i | 0 <= i < |j.steps|
      ensures Renamed(j.steps[i].artifacts, Replica(j, c).steps[i].artifacts, SourceIn(c))
    {
      assert Renamed(j.steps[i].artifacts, r.steps[i].artifacts, Unchanged);
    }
  }

  /** So the source of every file that came from job `b` is the replica of `b` in the same copy. */
  lemma ImportsFromSameCopy(j: Job, c: Combo, b: Job)
    requires b.name != ""
    ensures forall i | 0 <= i < |j.artifacts| && j.artifacts[i].from == b.name ::
              i < |Replica(j, c).artifacts| && Replica(j, c).artifacts[i].from == Replica(b, c).name
    ensures |Replica(j, c).steps| == |j.steps|
    ensures forall k, i | 0 <= k < |j.steps| && 0 <= i < |j.steps[k].artifacts|
                          && j.steps[k].artifacts[i].from == b.name ::
              && i < |Replica(j, c).steps[k].artifacts|
              && Replica(j, c).steps[k].artifacts[i].from == Replica(b, c).name
  {
    ReplicaRenamesSources(j, c);
    forall k, i | 0 <= k < |j.steps| && 0 <= i < |j.steps[k].artifacts| && j.steps[k].artifacts[i].from == b.name
      ensures i < |Replica(j, c).steps[k].artifacts|
      ensures Replica(j, c).steps[k].artifacts[i].from == Replica(b, c).name
    {
      assert Renamed(j.steps[k].artifacts, Replica(j, c).steps[k].artifacts, SourceIn(c));
    }
  }

  /** A job that imports only from its dependencies still does in every copy. */
  lemma ReplicaKeepsImports(j: Job, c: Combo)
    requires NamesSources(j) && ArtifactsFromDeps(j)
    ensures NamesSources(Replica(j, c)) && ArtifactsFromDeps(Replica(j, c))
  {
    var out := Replica(j, c);
    ReplicaRenamesSources(j, c);
    ImportsAreDeps(j);
    ImportsAreDeps(out);
    forall w | ImportsFrom(out, w)
      ensures w != "" && w in out.dependsOn
    {
      RenamedImports(j, out, SourceIn(c), w);
      var n :| ImportsFrom(j, n) && w == SourceIn(c)(n);
      CorrelatedMember(j.dependsOn, c, w);
      PrintedIsNotEmpty(n, c);
    }
  }

  lemma PrintedIsNotEmpty(n: Name, c: Combo)
    ensures Expanded(n, c) != ""
  {
  }

  // ----- Phase 2 -----

  /** What phase 2 makes of a source. */
  function NewSource(n: Name, m: ExpansionMap): Name {
    if n != "" && n in m && |m[n]| == 1 then m[n][0] else n
  }

  function SourceAfter(m: ExpansionMap): Name -> Name {
    n => NewSource(n, m)
  }

  lemma VariantKeepsSources(j: Job, x: Job)
    requires x in VariantsOf(j)
    ensures SourcesRenamed(j, x, Unchanged)
  {
    var i :| 0 <= i < |VariantsOf(j)| && VariantsOf(j)[i] == x;
    if j.matrix.Some? {
      var c := AllCombos(j.matrix.value)[i];
      var r := SubstituteJobVars(j, c, "matrix.");
      SubstitutionRenamesNothing(j, c);
      forall k | 0 <= k < |j.steps|
        ensures Renamed(j.steps[k].artifacts, x.steps[k].artifacts, Unchanged)
      {
        assert Renamed(j.steps[k].artifacts, r.steps[k].artifacts, Unchanged);
      }
    }
  }

  lemma ListRewritten(arts: seq<Artifact>, m: ExpansionMap)
    ensures Renamed(arts, RewriteFroms(arts, m), SourceAfter(m))
  {
  }

  lemma RewriteRenamesSources(x: Job, m: ExpansionMap)
    ensures SourcesRenamed(x, Rewrite(x, m), SourceAfter(m))
  {
    ListRewritten(x.artifacts, m);
    forall i | 0 <= i < |x.steps|
      ensures Renamed(x.steps[i].artifacts, Rewrite(x, m).steps[i].artifacts, SourceAfter(m))
    {
      ListRewritten(x.steps[i].artifacts, m);
      assert Rewrite(x, m).steps[i] == RewriteStep(x.steps[i], m);
    }
  }

  lemma BlownRenamesSources(j: Job, x: Job, m: ExpansionMap)
    requires x in VariantsOf(j)
    ensures SourcesRenamed(j, Rewrite(x, m), SourceAfter(m))
  {
    VariantKeepsSources(j, x);
    RewriteRenamesSources(x, m);
    RenamedOnce(j, x, Rewrite(x, m), SourceAfter(m));
  }

  ghost predicate SingleVariant(jobs: seq<Job>, n: Name) {
    exists b :: b in jobs && b.name == n && |VariantsOf(b)| == 1
  }

  /** The source `n` of `j` is still a dependency after phase 2. */
  ghost predicate SourceSurvives(jobs: seq<Job>, j: Job, n: Name) {
    SingleVariant(jobs, n) || IsVariantOfDependency(jobs, j, n) || n !in GraphOf(jobs)
  }

  lemma SurvivesExactly(jobs: seq<Job>, j: Job, n: Name)
    requires UniqueNames(jobs) && j in jobs && n in j.dependsOn && n != ""
    ensures var m := Expansions(jobs);
            SourceAfter(m)(n) in RewriteDeps(j.dependsOn, m) <==> SourceSurvives(jobs, j, n)
  {
    var m := Expansions(jobs);
    if n in GraphOf(jobs) {
      var b := JobOf(jobs, n);
      ArtifactFollowsSingleVariant(jobs, j, b, Artifact(n, "", ""));
      if k :| k in jobs && k.name == n && |VariantsOf(k)| == 1 {
        NameMeansSame(jobs, b, k);
      }
    } else {
      ExpansionNames(jobs, n);
      RewrittenDependency(jobs, j, n);
    }
  }

  /** A source with a single variant becomes that variant. */
  lemma SourceBecomesVariant(jobs: seq<Job>, b: Job)
    requires UniqueNames(jobs) && b in jobs && b.name != "" && |VariantsOf(b)| == 1
    ensures SourceAfter(Expansions(jobs))(b.name) == VariantsOf(b)[0].name
  {
    ExpansionOf(jobs, b);
  }

  /** Where a job of the result comes from, and what it is. */
  lemma BlownFrom(jobs: seq<Job>, a: Job, x: Job)
    requires a in jobs && x in VariantsOf(a)
    ensures Rewrite(x, Expansions(jobs)) in Blown(jobs)
  {
    AllVariantsMember(jobs, x);
    var i :| 0 <= i < |AllVariants(jobs)| && AllVariants(jobs)[i] == x;
    assert Blown(jobs)[i] in Blown(jobs);
  }

  lemma KeptSourceSurvives(jobs: seq<Job>, j: Job, out: Job, n: Name)
    requires UniqueNames(jobs) && j in jobs && NamesSources(j) && ArtifactsFromDeps(j) && ImportsFrom(j, n)
    requires SourcesRenamed(j, out, SourceAfter(Expansions(jobs)))
    requires out.dependsOn == RewriteDeps(j.dependsOn, Expansions(jobs)) && ArtifactsFromDeps(out)
    ensures SourceSurvives(jobs, j, n)
  {
    ImportsAreDeps(j);
    ImportsAreDeps(out);
    RenamedIsImported(j, out, SourceAfter(Expansions(jobs)), n);
    SurvivesExactly(jobs, j, n);
  }

  lemma SurvivingSourceIsKept(jobs: seq<Job>, j: Job, out: Job, w: Name)
    requires UniqueNames(jobs) && j in jobs && NamesSources(j) && ArtifactsFromDeps(j) && ImportsFrom(out, w)
    requires SourcesRenamed(j, out, SourceAfter(Expansions(jobs)))
    requires out.dependsOn == RewriteDeps(j.dependsOn, Expansions(jobs))
    requires forall n | ImportsFrom(j, n) :: SourceSurvives(jobs, j, n)
    ensures w in out.dependsOn
  {
    ImportsAreDeps(j);
    RenamedImports(j, out, SourceAfter(Expansions(jobs)), w);
    var n :| ImportsFrom(j, n) && w == SourceAfter(Expansions(jobs))(n);
    SurvivesExactly(jobs, j, n);
  }

  /** After phase 2 a variant imports only from its dependencies exactly if every source of its job
      survives. */
  lemma VariantImports(jobs: seq<Job>, j: Job, x: Job)
    requires UniqueNames(jobs) && j in jobs && x in VariantsOf(j) && NamesSources(j) && ArtifactsFromDeps(j)
    ensures ArtifactsFromDeps(Rewrite(x, Expansions(jobs)))
       <==> forall n | ImportsFrom(j, n) :: SourceSurvives(jobs, j, n)
  {
    BlownRenamesSources(j, x, Expansions(jobs));
    VariantKeepsDependencies(j, x);
    ImportsSurvive(jobs, j, Rewrite(x, Expansions(jobs)));
  }

  lemma ImportsSurvive(jobs: seq<Job>, j: Job, out: Job)
    requires UniqueNames(jobs) && j in jobs && NamesSources(j) && ArtifactsFromDeps(j)
    requires SourcesRenamed(j, out, SourceAfter(Expansions(jobs)))
    requires out.dependsOn == RewriteDeps(j.dependsOn, Expansions(jobs))
    ensures ArtifactsFromDeps(out) <==> forall n | ImportsFrom(j, n) :: SourceSurvives(jobs, j, n)
  {
    ImportsAreDeps(out);
    if ArtifactsFromDeps(out) {
      forall n | ImportsFrom(j, n)
        ensures SourceSurvives(jobs, j, n)
      {
        KeptSourceSurvives(jobs, j, out, n);
      }
    }
    if forall n | ImportsFrom(j, n) :: SourceSurvives(jobs, j, n) {
      forall w | ImportsFrom(out, w)
        ensures w in out.dependsOn
      {
        SurvivingSourceIsKept(jobs, j, out, w);
      }
    }
  }

  // ----- Both phases -----

  lemma InstanceKeepsImports(p: Spec, a: Job, c: Combo)
    requires NamesSources(a) && ArtifactsFromDeps(a)
    ensures NamesSources(Instance(p, a, c)) && ArtifactsFromDeps(Instance(p, a, c))
    ensures forall w :: ImportsFrom(Instance(p, a, c), w) <==> exists d :: ImportsFrom(a, d) && w == Target(p, d, c)
  {
    if p.matrix.Some? {
      ReplicaKeepsImports(a, c);
      ReplicaRenamesSources(a, c);
      forall w
        ensures ImportsFrom(Replica(a, c), w) <==> exists d :: ImportsFrom(a, d) && w == Expanded(d, c)
      {
        RenamedImports(a, Replica(a, c), SourceIn(c), w);
      }
    }
  }

  /** The job of the result that a variant `x` of the instance becomes. */
  ghost function Outcome(p: Spec, x: Job): Job {
    Rewrite(x, Expansions(PhaseOne(p).jobs))
  }

  /** A job that imports only from its dependencies does so in the result, in copy `c` and as the
      variant `x`, exactly if each of its sources survives phase 2 in that copy. */
  lemma ImportsSurviveExpansion(p: Spec, a: Job, c: Combo, x: Job)
    requires NamesStayUnique(p) && a in p.jobs && c in PipelineCombos(p) && x in VariantsOf(Instance(p, a, c))
    requires NamesSources(a) && ArtifactsFromDeps(a)
    ensures Outcome(p, x) in PhaseTwo(PhaseOne(p)).jobs && Outcome(p, x).name == x.name
    ensures ArtifactsFromDeps(Outcome(p, x))
       <==> forall d | ImportsFrom(a, d) :: SourceSurvives(PhaseOne(p).jobs, Instance(p, a, c), Target(p, d, c))
  {
    var jobs, y := PhaseOne(p).jobs, Instance(p, a, c);
    InstanceIn(p, a, c);
    InstanceKeepsImports(p, a, c);
    PhaseTwoIsBlown(PhaseOne(p));
    BlownFrom(jobs, y, x);
    VariantImports(jobs, y, x);
  }

  /** Each source of `a` is a job with a single variant in copy `c`. */
  ghost predicate SourcesAreSingle(p: Spec, a: Job, c: Combo) {
    forall d | ImportsFrom(a, d) :: exists b :: b in p.jobs && b.name == d && |VariantsOf(Instance(p, b, c))| == 1
  }

  /** If every source has a single variant, the files come from these variants in the same copy, and
      the job passes the check that it imports only from its dependencies. */
  lemma SingleSourcesSurvive(p: Spec, a: Job, c: Combo, x: Job)
    requires NamesStayUnique(p) && a in p.jobs && c in PipelineCombos(p) && x in VariantsOf(Instance(p, a, c))
    requires NamesSources(a) && ArtifactsFromDeps(a) && SourcesAreSingle(p, a, c)
    ensures Outcome(p, x) in PhaseTwo(PhaseOne(p)).jobs && ArtifactsFromDeps(Outcome(p, x))
    ensures forall b | b in p.jobs && ImportsFrom(a, b.name) && |VariantsOf(Instance(p, b, c))| == 1 ::
              ImportsFrom(Outcome(p, x), VariantsOf(Instance(p, b, c))[0].name)
  {
    var jobs, y := PhaseOne(p).jobs, Instance(p, a, c);
    forall d | ImportsFrom(a, d)
      ensures SourceSurvives(jobs, y, Target(p, d, c))
    {
      var b :| b in p.jobs && b.name == d && |VariantsOf(Instance(p, b, c))| == 1;
      InstanceIn(p, b, c);
      InstanceName(p, b, c);
      assert SingleVariant(jobs, Target(p, d, c));
    }
    ImportsSurviveExpansion(p, a, c, x);
    forall b | b in p.jobs && ImportsFrom(a, b.name) && |VariantsOf(Instance(p, b, c))| == 1
      ensures ImportsFrom(Outcome(p, x), VariantsOf(Instance(p, b, c))[0].name)
    {
      ImportsSingleVariant(p, a, c, x, b);
    }
  }

  lemma ImportsSingleVariant(p: Spec, a: Job, c: Combo, x: Job, b: Job)
    requires NamesStayUnique(p) && a in p.jobs && c in PipelineCombos(p) && x in VariantsOf(Instance(p, a, c))
    requires NamesSources(a) && ArtifactsFromDeps(a)
    requires b in p.jobs && ImportsFrom(a, b.name) && |VariantsOf(Instance(p, b, c))| == 1
    ensures ImportsFrom(Outcome(p, x), VariantsOf(Instance(p, b, c))[0].name)
  {
    var jobs, y, z := PhaseOne(p).jobs, Instance(p, a, c), Instance(p, b, c);
    InstanceIn(p, b, c);
    InstanceName(p, b, c);
    InstanceKeepsImports(p, a, c);
    assert ImportsFrom(y, z.name);
    SourceBecomesVariant(jobs, z);
    BlownRenamesSources(y, x, Expansions(jobs));
    RenamedIsImported(y, Outcome(p, x), SourceAfter(Expansions(jobs)), z.name);
  }
}
