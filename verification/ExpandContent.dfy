/** What the jobs of an expanded pipeline do (pkg/pipeline/expand.go).

    Apart from its name, its dependencies, the jobs its files come from and its cache ids, a job of
    the result is the job it stems from with both combinations filled in, one after the other. */
module ExpandContent {
  import opened DependencyGraph
  import opened Wrappers
  import opened Pipeline
  import opened Substitute
  import opened Expand
  import opened ExpandedNames
  import opened ExpandGraph
  import opened ExpandImports

  // ----- Jobs that differ only in what the graph and the caches are called -----

  ghost predicate SameTargets(caches: seq<Cache>, out: seq<Cache>) {
    |out| == |caches| && forall i | 0 <= i < |caches| :: out[i].target == caches[i].target
  }

  ghost predicate SamePaths(arts: seq<Artifact>, out: seq<Artifact>) {
    && |out| == |arts|
    && forall i | 0 <= i < |arts| :: out[i].source == arts[i].source && out[i].target == arts[i].target
  }

  ghost predicate StepsAlike(s: Step, out: Step) {
    && out.name == s.name && out.run == s.run && out.env == s.env && out.workdir == s.workdir
    && out.mounts == s.mounts && out.exports == s.exports && out.noCache == s.noCache
    && SameTargets(s.caches, out.caches) && SamePaths(s.artifacts, out.artifacts)
  }

  ghost predicate JobsAlike(j: Job, out: Job) {
    && out.image == j.image && out.workdir == j.workdir && out.platform == j.platform
    && out.mounts == j.mounts && out.env == j.env && out.exports == j.exports
    && out.noCache == j.noCache && out.publish == j.publish
    && SameTargets(j.caches, out.caches) && SamePaths(j.artifacts, out.artifacts)
    && |out.steps| == |j.steps|
    && forall i | 0 <= i < |j.steps| :: StepsAlike(j.steps[i], out.steps[i])
  }

  lemma AlikeTransitive(a: Job, b: Job, c: Job)
    requires JobsAlike(a, b) && JobsAlike(b, c)
    ensures JobsAlike(a, c)
  {
    forall i | 0 <= i < |a.steps|
      ensures StepsAlike(a.steps[i], c.steps[i])
    {
      assert StepsAlike(a.steps[i], b.steps[i]) && StepsAlike(b.steps[i], c.steps[i]);
    }
  }

  lemma StepsStayAlike(s: Step, out: Step, sub: string -> string)
    requires StepsAlike(s, out)
    ensures StepsAlike(SubstituteStep(s, sub), SubstituteStep(out, sub))
  {
  }

  lemma SubstitutionKeepsAlike(j: Job, out: Job, sub: string -> string)
    requires JobsAlike(j, out)
    ensures JobsAlike(SubstituteJob(j, sub), SubstituteJob(out, sub))
  {
    forall i | 0 <= i < |j.steps|
      ensures StepsAlike(SubstituteJob(j, sub).steps[i], SubstituteJob(out, sub).steps[i])
    {
      StepsStayAlike(j.steps[i], out.steps[i], sub);
    }
  }

  // ----- Each phase -----

  function Filled(j: Job, c: Combo): Job {
    SubstituteJobVars(j, c, "matrix.")
  }

  lemma CorrelationKeepsPaths(arts: seq<Artifact>, c: Combo)
    ensures SamePaths(arts, CorrelateFroms(arts, c))
  {
  }

  lemma CorrelatedStepIsAlike(s: Step, c: Combo, name: Name)
    ensures StepsAlike(s, CorrelateStep(s, c, name))
  {
    CorrelationKeepsPaths(s.artifacts, c);
  }

  lemma ReplicaIsFilled(j: Job, c: Combo)
    ensures JobsAlike(Filled(j, c), Replica(j, c)) && Replica(j, c).matrix == Filled(j, c).matrix
  {
    var r, out := Filled(j, c), Replica(j, c);
    CorrelationKeepsPaths(r.artifacts, c);
    forall i | 0 <= i < |r.steps|
      ensures StepsAlike(r.steps[i], out.steps[i])
    {
      CorrelatedStepIsAlike(r.steps[i], c, Expanded(j.name, c));
    }
  }

  lemma VariantIsFilled(j: Job, c: Combo)
    ensures JobsAlike(Filled(j, c), Variant(j, c)) && Variant(j, c).matrix == None
  {
  }

  lemma RewriteChangesNoContent(x: Job, m: ExpansionMap)
    ensures JobsAlike(x, Rewrite(x, m)) && Rewrite(x, m).matrix == x.matrix
  {
  }

  // ----- Both phases -----

  ghost function OwnCombos(j: Job): seq<Combo> {
    if j.matrix.None? then [map[]] else AllCombos(j.matrix.value)
  }

  /** The texts of a job of the result, one after the other. */
  function FilledTwice(c: Combo, d: Combo): string -> string {
    s => Substituted(Substituted(s, c, "matrix."), d, "matrix.")
  }

  lemma InstanceIsFilled(p: Spec, a: Job, c: Combo)
    requires c in PipelineCombos(p)
    ensures JobsAlike(Filled(a, c), Instance(p, a, c)) && Instance(p, a, c).matrix == Filled(a, c).matrix
  {
    if p.matrix.Some? {
      ReplicaIsFilled(a, c);
    } else {
      NothingSubstituted(a);
    }
  }

  lemma VariantsAreFilled(j: Job, i: nat)
    requires i < |VariantsOf(j)|
    ensures i < |OwnCombos(j)| && JobsAlike(Filled(j, OwnCombos(j)[i]), VariantsOf(j)[i])
    ensures VariantsOf(j)[i].matrix == None
  {
    if j.matrix.Some? {
      VariantIsFilled(j, OwnCombos(j)[i]);
    } else {
      NothingSubstituted(j);
    }
  }

  lemma TextsFilledTwice(a: Job, c: Combo, d: Combo)
    ensures MapsTo(Texts(a), Texts(Filled(Filled(a, c), d)), FilledTwice(c, d))
  {
    EveryTextIsSubstituted(a, s => Substituted(s, c, "matrix."));
    EveryTextIsSubstituted(Filled(a, c), s => Substituted(s, d, "matrix."));
  }

  lemma AlikeFilled(a: Job, y: Job, d: Combo, x: Job, out: Job)
    requires JobsAlike(a, y) && JobsAlike(Filled(y, d), x) && JobsAlike(x, out)
    ensures JobsAlike(Filled(a, d), out)
  {
    SubstitutionKeepsAlike(a, y, s => Substituted(s, d, "matrix."));
    AlikeTransitive(Filled(a, d), Filled(y, d), x);
    AlikeTransitive(Filled(a, d), x, out);
  }

  /** Every job of the result is a job of the pipeline with the combination of its copy and then its
      own filled in; every text of the job is. */
  lemma ExpandedJobIsFilled(p: Spec, a: Job, c: Combo, i: nat)
    requires a in p.jobs && c in PipelineCombos(p) && i < |VariantsOf(Instance(p, a, c))|
    ensures i < |OwnCombos(Instance(p, a, c))|
    ensures var d := OwnCombos(Instance(p, a, c))[i];
            var out := Outcome(p, VariantsOf(Instance(p, a, c))[i]);
            && out in PhaseTwo(PhaseOne(p)).jobs && JobsAlike(Filled(Filled(a, c), d), out)
            && MapsTo(Texts(a), Texts(Filled(Filled(a, c), d)), FilledTwice(c, d))
  {
    var jobs, y := PhaseOne(p).jobs, Instance(p, a, c);
    VariantsAreFilled(y, i);
    var d, x := OwnCombos(y)[i], VariantsOf(y)[i];
    InstanceIsFilled(p, a, c);
    RewriteChangesNoContent(x, Expansions(jobs));
    AlikeFilled(Filled(a, c), y, d, x, Rewrite(x, Expansions(jobs)));
    TextsFilledTwice(a, c, d);
    InstanceIn(p, a, c);
    PhaseTwoIsBlown(PhaseOne(p));
    BlownFrom(jobs, y, x);
  }

  /** After both phases there is no matrix left. */
  lemma MatricesAreSpent(p: Spec)
    ensures PhaseTwo(PhaseOne(p)).matrix == None && !HasMatrix(PhaseTwo(PhaseOne(p)).jobs)
  {
    var jobs := PhaseOne(p).jobs;
    PhaseTwoIsBlown(PhaseOne(p));
    forall out | out in Blown(jobs)
      ensures out.matrix == None
    {
      var k :| 0 <= k < |Blown(jobs)| && Blown(jobs)[k] == out;
      var x := AllVariants(jobs)[k];
      AllVariantsMember(jobs, x);
      var j :| j in jobs && x in VariantsOf(j);
      var i: nat :| i < |VariantsOf(j)| && VariantsOf(j)[i] == x;
      VariantsAreFilled(j, i);
    }
  }
}
