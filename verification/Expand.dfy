/** Matrix expansion in two phases (pkg/pipeline/expand.go). */
module Expand {
  import opened DependencyGraph
  import opened Wrappers
  import opened Pipeline
  import opened Substitute
  import opened ExpandedNames
  import opened Matrix

  datatype Spec = Spec(jobs: seq<Job>, matrix: Option<seq<Dimension>>)

  /** What `Combinations` returns when it does not overflow. */
  function AllCombos(dims: seq<Dimension>): (r: seq<Combo>)
    ensures dims != [] ==> DecodedUpTo(r, dims, Size(dims))
  {
    if dims == [] then [] else seq(Size(dims), i requires 0 <= i < Size(dims) => Decode(dims, i))
  }

  function CacheId(baseId: string, jobName: Name): string {
    baseId + "--" + jobName
  }

  function NamespaceCaches(caches: seq<Cache>, jobName: Name): seq<Cache> {
    MapSeq(caches, (c: Cache) => c.(id := CacheId(c.id, jobName)))
  }

  // ----- Phase 1: the pipeline matrix -----

  function CorrelateDeps(deps: seq<Name>, combo: Combo): seq<Name> {
    MapSeq(deps, (d: Name) => Expanded(d, combo))
  }

  function CorrelateFrom(a: Artifact, combo: Combo): Artifact {
    if a.from == "" then a else a.(from := Expanded(a.from, combo))
  }

  function CorrelateFroms(arts: seq<Artifact>, combo: Combo): seq<Artifact> {
    MapSeq(arts, (a: Artifact) => CorrelateFrom(a, combo))
  }

  function CorrelateStep(s: Step, combo: Combo, jobName: Name): Step {
    s.(artifacts := CorrelateFroms(s.artifacts, combo), caches := NamespaceCaches(s.caches, jobName))
  }

  /** The replica of `j` in the copy of the pipeline for `combo`. */
  function Replica(j: Job, combo: Combo): Job {
    var r := SubstituteJobVars(j, combo, "matrix.");
    var name := Expanded(j.name, combo);
    r.(name := name,
       dependsOn := CorrelateDeps(j.dependsOn, combo),
       artifacts := CorrelateFroms(r.artifacts, combo),
       caches := NamespaceCaches(r.caches, name),
       steps := MapSeq(r.steps, (s: Step) => CorrelateStep(s, combo, name)))
  }

  /** One copy of the pipeline. */
  function Copy(jobs: seq<Job>, combo: Combo): (r: seq<Job>)
    ensures |r| == |jobs| && forall i | 0 <= i < |jobs| :: r[i] == Replica(jobs[i], combo)
  {
    seq(|jobs|, i requires 0 <= i < |jobs| => Replica(jobs[i], combo))
  }

  function Copies(jobs: seq<Job>, combos: seq<Combo>): seq<Job> {
    if combos == [] then [] else
      Copies(jobs, combos[..|combos| - 1]) + Copy(jobs, combos[|combos| - 1])
  }

  method CorrelateArtifactFroms(arts: seq<Artifact>, combo: Combo) returns (r: seq<Artifact>)
    ensures r == CorrelateFroms(arts, combo)
  {
    r := arts;
    for i := 0 to |arts|
      invariant |r| == |arts|
      invariant forall k | 0 <= k < i :: r[k] == CorrelateFrom(arts[k], combo)
      invariant forall k | i <= k < |arts| :: r[k] == arts[k]
    {
      if arts[i].from == "" {
        continue;
      }
      var from := ExpandedName(arts[i].from, combo);
      r := r[i := arts[i].(from := from)];
    }
  }

  method NamespaceAll(caches: seq<Cache>, jobName: Name) returns (r: seq<Cache>)
    ensures r == NamespaceCaches(caches, jobName)
  {
    r := caches;
    for j := 0 to |caches|
      invariant |r| == |caches|
      invariant forall k | 0 <= k < j :: r[k] == caches[k].(id := CacheId(caches[k].id, jobName))
      invariant forall k | j <= k < |caches| :: r[k] == caches[k]
    {
      r := r[j := r[j].(id := CacheId(r[j].id, jobName))];
    }
  }

  method ReplicateCorrelated(j: Job, combo: Combo) returns (job: Job)
    ensures job == Replica(j, combo)
  {
    var r := SubstituteJobVars(j, combo, "matrix.");
    var name := ExpandedName(j.name, combo);
    var artifacts := CorrelateArtifactFroms(r.artifacts, combo);
    var caches := NamespaceAll(r.caches, name);
    var steps := r.steps;
    for si := 0 to |steps|
      invariant |steps| == |r.steps|
      invariant forall k | 0 <= k < si :: steps[k] == CorrelateStep(r.steps[k], combo, name)
      invariant forall k | si <= k < |steps| :: steps[k] == r.steps[k]
    {
      var stepArtifacts := CorrelateArtifactFroms(steps[si].artifacts, combo);
      var stepCaches := NamespaceAll(steps[si].caches, name);
      steps := steps[si := steps[si].(artifacts := stepArtifacts, caches := stepCaches)];
    }
    assert steps == MapSeq(r.steps, (s: Step) => CorrelateStep(s, combo, name));
    return r.(name := name, dependsOn := CorrelateDeps(j.dependsOn, combo), artifacts := artifacts,
              caches := caches, steps := steps);
  }

  /** A dimension of the pipeline matrix is also one of some job. */
  ghost predicate DimsCollide(dims: seq<Dimension>, jobs: seq<Job>) {
    exists j | j in jobs :: j.matrix.Some? && SharesDim(dims, j.matrix.value)
  }

  predicate SharesDim(a: seq<Dimension>, b: seq<Dimension>) {
    exists d | d in b :: HasDim(a, d.name)
  }

  method CheckDimCollisions(dims: seq<Dimension>, jobs: seq<Job>) returns (err: Option<Error>)
    ensures err == if DimsCollide(dims, jobs) then Some(DuplicateDim) else None
  {
    var pipelineDims: set<string> := {};
    for i := 0 to |dims|
      invariant forall n :: n in pipelineDims <==> HasDim(dims[..i], n)
    {
      assert dims[..i + 1] == dims[..i] + [dims[i]];
      pipelineDims := pipelineDims + {dims[i].name};
    }
    assert dims[..|dims|] == dims;
    for i := 0 to |jobs|
      invariant forall k | 0 <= k < i :: jobs[k].matrix.Some? ==> !SharesDim(dims, jobs[k].matrix.value)
    {
      if jobs[i].matrix.None? {
        continue;
      }
      var jobDims := jobs[i].matrix.value;
      for j := 0 to |jobDims|
        invariant forall k | 0 <= k < j :: !HasDim(dims, jobDims[k].name)
      {
        if jobDims[j].name in pipelineDims {
          assert jobDims[j] in jobDims && jobs[i] in jobs;
          return Some(DuplicateDim);
        }
      }
    }
    return None;
  }

  /** The pipeline matrix can be expanded. */
  ghost predicate PipelineMatrixOk(p: Spec, rules: Rules) {
    p.matrix.Some? ==> ValidMatrix(p.matrix.value, rules) && !DimsCollide(p.matrix.value, p.jobs)
  }

  /** An invalid matrix is reported before a collision. */
  ghost predicate PipelineMatrixFault(p: Spec, rules: Rules, e: Error) {
    p.matrix.Some?
    && if ValidMatrix(p.matrix.value, rules) then e == DuplicateDim else MatrixFault(p.matrix.value, rules, e)
  }

  function PhaseOne(p: Spec): Spec {
    if p.matrix.None? then p else Spec(Copies(p.jobs, AllCombos(p.matrix.value)), None)
  }

  lemma CopiesStep(jobs: seq<Job>, combos: seq<Combo>, c: nat)
    requires c < |combos|
    ensures Copies(jobs, combos[..c + 1]) == Copies(jobs, combos[..c]) + Copy(jobs, combos[c])
  {
    assert combos[..c + 1][..c] == combos[..c];
  }

  lemma CopyStep(jobs: seq<Job>, combo: Combo, i: nat)
    requires i < |jobs|
    ensures Copy(jobs[..i + 1], combo) == Copy(jobs[..i], combo) + [Replica(jobs[i], combo)]
  {
  }

  /** The inner loop: one more copy of the pipeline. */
  method AppendCopy(expanded: seq<Job>, jobs: seq<Job>, combo: Combo) returns (r: seq<Job>)
    ensures r == expanded + Copy(jobs, combo)
  {
    r := expanded;
    for i := 0 to |jobs|
      invariant r == expanded + Copy(jobs[..i], combo)
    {
      var job := ReplicateCorrelated(jobs[i], combo);
      CopyStep(jobs, combo, i);
      r := r + [job];
    }
    assert jobs[..|jobs|] == jobs;
  }

  /** On a valid matrix the overflow guard never fires. */
  method CheckedCombinations(dims: seq<Dimension>, rules: Rules) returns (combos: seq<Combo>)
    requires ValidMatrix(dims, rules)
    ensures combos == AllCombos(dims)
  {
    ValidMatrixNeverOverflows(dims, rules);
    var all := Combinations(dims);
    combos := all.value;
  }

  method ExpandPipeline(p: Spec, rules: Rules) returns (r: Result<Spec, Error>)
    ensures r.Ok? <==> PipelineMatrixOk(p, rules)
    ensures r.Ok? ==> r.value == PhaseOne(p)
    ensures r.Err? ==> PipelineMatrixFault(p, rules, r.error)
  {
    if p.matrix.None? {
      return Ok(p);
    }
    var dims := p.matrix.value;
    var invalid := ValidateMatrix(dims, rules);
    if invalid.Some? {
      return Err(invalid.value);
    }
    var collision := CheckDimCollisions(dims, p.jobs);
    if collision.Some? {
      return Err(collision.value);
    }
    var combos := CheckedCombinations(dims, rules);
    var expanded: seq<Job> := [];
    for c := 0 to |combos|
      invariant expanded == Copies(p.jobs, combos[..c])
    {
      CopiesStep(p.jobs, combos, c);
      expanded := AppendCopy(expanded, p.jobs, combos[c]);
    }
    assert combos[..|combos|] == combos;
    return Ok(Spec(expanded, None));
  }

  // ----- Phase 2: the job matrices -----

  type ExpansionMap = map<Name, seq<Name>>

  function NamespaceStep(s: Step, jobName: Name): Step {
    s.(caches := NamespaceCaches(s.caches, jobName))
  }

  /** The variant of a matrix job for `combo`, its dependencies not rewritten yet. */
  function Variant(j: Job, combo: Combo): Job {
    var r := SubstituteJobVars(j, combo, "matrix.");
    var name := Expanded(j.name, combo);
    r.(name := name,
       matrix := None,
       caches := NamespaceCaches(r.caches, name),
       steps := MapSeq(r.steps, (s: Step) => NamespaceStep(s, name)))
  }

  function VariantsFor(j: Job, combos: seq<Combo>): (r: seq<Job>)
    ensures |r| == |combos| && forall i | 0 <= i < |combos| :: r[i] == Variant(j, combos[i])
  {
    seq(|combos|, i requires 0 <= i < |combos| => Variant(j, combos[i]))
  }

  /** A job without a matrix is its own only variant. */
  function VariantsOf(j: Job): seq<Job> {
    if j.matrix.None? then [j] else VariantsFor(j, AllCombos(j.matrix.value))
  }

  function AllVariants(jobs: seq<Job>): seq<Job> {
    if jobs == [] then [] else AllVariants(jobs[..|jobs| - 1]) + VariantsOf(jobs[|jobs| - 1])
  }

  function Expansions(jobs: seq<Job>): ExpansionMap {
    if jobs == [] then map[] else
      var last := jobs[|jobs| - 1];
      Expansions(jobs[..|jobs| - 1])[last.name := Names(VariantsOf(last))]
  }

  function VariantNames(dep: Name, m: ExpansionMap): seq<Name> {
    if dep in m then m[dep] else [dep]
  }

  function RewriteDeps(deps: seq<Name>, m: ExpansionMap): seq<Name> {
    if deps == [] then [] else
      RewriteDeps(deps[..|deps| - 1], m) + VariantNames(deps[|deps| - 1], m)
  }

  function RewriteFrom(a: Artifact, m: ExpansionMap): Artifact {
    if a.from != "" && a.from in m && |m[a.from]| == 1 then a.(from := m[a.from][0]) else a
  }

  function RewriteFroms(arts: seq<Artifact>, m: ExpansionMap): seq<Artifact> {
    MapSeq(arts, (a: Artifact) => RewriteFrom(a, m))
  }

  function RewriteStep(s: Step, m: ExpansionMap): Step {
    s.(artifacts := RewriteFroms(s.artifacts, m))
  }

  function Rewrite(j: Job, m: ExpansionMap): Job {
    j.(dependsOn := RewriteDeps(j.dependsOn, m),
       artifacts := RewriteFroms(j.artifacts, m),
       steps := MapSeq(j.steps, (s: Step) => RewriteStep(s, m)))
  }

  function RewriteAll(jobs: seq<Job>, m: ExpansionMap): (r: seq<Job>)
    ensures |r| == |jobs| && forall i | 0 <= i < |jobs| :: r[i] == Rewrite(jobs[i], m)
  {
    seq(|jobs|, i requires 0 <= i < |jobs| => Rewrite(jobs[i], m))
  }

  predicate HasMatrix(jobs: seq<Job>) {
    exists j | j in jobs :: j.matrix.Some?
  }

  function PhaseTwo(p: Spec): Spec {
    if !HasMatrix(p.jobs) then p else
      p.(jobs := RewriteAll(AllVariants(p.jobs), Expansions(p.jobs)))
  }

  ghost predicate JobMatrixOk(j: Job, rules: Rules) {
    j.matrix.Some? ==> ValidMatrix(j.matrix.value, rules)
  }

  ghost predicate JobMatrixFault(j: Job, rules: Rules, e: Error) {
    j.matrix.Some? && MatrixFault(j.matrix.value, rules, e)
  }

  /** The error is that of the first job with a faulty matrix. */
  ghost predicate FirstJobFault(jobs: seq<Job>, rules: Rules, e: Error) {
    exists i :: 0 <= i < |jobs| && MatricesOk(jobs[..i], rules) && JobMatrixFault(jobs[i], rules, e)
  }

  // Substituting nothing changes nothing.

  ghost predicate Identity(sub: string -> string) {
    forall s :: sub(s) == s
  }

  lemma IdentityLists(
    sub: string -> string, mounts: seq<Mount>, caches: seq<Cache>, env: seq<EnvVar>, exports: seq<Export>,
    artifacts: seq<Artifact>)
    requires Identity(sub)
    ensures SubstituteMounts(mounts, sub) == mounts
    ensures SubstituteCaches(caches, sub) == caches
    ensures SubstituteEnv(env, sub) == env
    ensures SubstituteExports(exports, sub) == exports
    ensures SubstituteArtifacts(artifacts, sub) == artifacts
  {
    assert forall m | m in mounts :: m == Mount(m.source, m.target, m.readOnly);
    assert forall c | c in caches :: c == Cache(c.id, c.target);
    assert forall e | e in env :: e == EnvVar(e.key, e.value);
    assert forall e | e in exports :: e == Export(e.path, e.local);
    assert forall a | a in artifacts :: a == Artifact(a.from, a.source, a.target);
  }

  lemma IdentityStep(s: Step, sub: string -> string)
    requires Identity(sub)
    ensures SubstituteStep(s, sub) == s
  {
    assert MapSeq(s.run, sub) == s.run;
    IdentityLists(sub, s.mounts, s.caches, s.env, s.exports, s.artifacts);
  }

  lemma IdentityDims(dims: seq<Dimension>, sub: string -> string)
    requires Identity(sub)
    ensures SubstituteDims(dims, sub) == dims
  {
    forall i | 0 <= i < |dims|
      ensures SubstituteDims(dims, sub)[i] == dims[i]
    {
      assert MapSeq(dims[i].values, sub) == dims[i].values;
    }
  }

  lemma IdentityJob(j: Job, sub: string -> string)
    requires Identity(sub)
    ensures SubstituteJob(j, sub) == j
  {
    if j.matrix.Some? {
      IdentityDims(j.matrix.value, sub);
    }
    IdentityLists(sub, j.mounts, j.caches, j.env, j.exports, j.artifacts);
    forall i | 0 <= i < |j.steps|
      ensures SubstituteStep(j.steps[i], sub) == j.steps[i]
    {
      IdentityStep(j.steps[i], sub);
    }
    assert MapSeq(j.steps, (s: Step) => SubstituteStep(s, sub)) == j.steps;
  }

  lemma NothingSubstituted(j: Job)
    ensures SubstituteJobVars(j, map[], "matrix.") == j
  {
    IdentityJob(j, s => Substituted(s, map[], "matrix."));
  }

  method ReplicateVariant(j: Job, combo: Combo) returns (variant: Job)
    ensures variant == Variant(j, combo)
  {
    var r := SubstituteJobVars(j, combo, "matrix.");
    var name := ExpandedName(j.name, combo);
    var caches := NamespaceAll(r.caches, name);
    var steps := r.steps;
    for si := 0 to |steps|
      invariant |steps| == |r.steps|
      invariant forall k | 0 <= k < si :: steps[k] == NamespaceStep(r.steps[k], name)
      invariant forall k | si <= k < |steps| :: steps[k] == r.steps[k]
    {
      var stepCaches := NamespaceAll(steps[si].caches, name);
      steps := steps[si := steps[si].(caches := stepCaches)];
    }
    assert steps == MapSeq(r.steps, (s: Step) => NamespaceStep(s, name));
    return r.(name := name, matrix := None, caches := caches, steps := steps);
  }

  /** The inner loop: one variant for each combination. */
  method ReplicateAll(j: Job, combos: seq<Combo>) returns (variants: seq<Job>)
    ensures variants == VariantsFor(j, combos)
  {
    variants := [];
    for c := 0 to |combos|
      invariant variants == VariantsFor(j, combos[..c])
    {
      var variant := ReplicateVariant(j, combos[c]);
      assert VariantsFor(j, combos[..c + 1]) == VariantsFor(j, combos[..c]) + [variant];
      variants := variants + [variant];
    }
    assert combos[..|combos|] == combos;
  }

  method ExpandJob(j: Job, rules: Rules) returns (r: Result<seq<Job>, Error>)
    ensures r.Ok? <==> JobMatrixOk(j, rules)
    ensures r.Ok? ==> r.value == VariantsOf(j)
    ensures r.Err? ==> JobMatrixFault(j, rules, r.error)
  {
    if j.matrix.None? {
      NothingSubstituted(j);
      return Ok([SubstituteJobVars(j, map[], "matrix.")]);
    }
    var dims := j.matrix.value;
    var invalid := ValidateMatrix(dims, rules);
    if invalid.Some? {
      return Err(invalid.value);
    }
    var combos := CheckedCombinations(dims, rules);
    var variants := ReplicateAll(j, combos);
    return Ok(variants);
  }

  method RewriteArtifactFroms(arts: seq<Artifact>, m: ExpansionMap) returns (r: seq<Artifact>)
    ensures r == RewriteFroms(arts, m)
  {
    r := arts;
    for i := 0 to |arts|
      invariant |r| == |arts|
      invariant forall k | 0 <= k < i :: r[k] == RewriteFrom(arts[k], m)
      invariant forall k | i <= k < |arts| :: r[k] == arts[k]
    {
      if r[i].from == "" {
        continue;
      }
      if r[i].from in m && |m[r[i].from]| == 1 {
        r := r[i := r[i].(from := m[r[i].from][0])];
      }
    }
  }

  method RewriteJob(j: Job, m: ExpansionMap) returns (r: Job)
    ensures r == Rewrite(j, m)
  {
    var artifacts := RewriteArtifactFroms(j.artifacts, m);
    var steps := j.steps;
    for si := 0 to |steps|
      invariant |steps| == |j.steps|
      invariant forall k | 0 <= k < si :: steps[k] == RewriteStep(j.steps[k], m)
      invariant forall k | si <= k < |steps| :: steps[k] == j.steps[k]
    {
      var stepArtifacts := RewriteArtifactFroms(steps[si].artifacts, m);
      steps := steps[si := steps[si].(artifacts := stepArtifacts)];
    }
    assert steps == MapSeq(j.steps, (s: Step) => RewriteStep(s, m));
    return j.(dependsOn := RewriteDeps(j.dependsOn, m), artifacts := artifacts, steps := steps);
  }

  ghost predicate MatricesOk(jobs: seq<Job>, rules: Rules) {
    forall j | j in jobs :: JobMatrixOk(j, rules)
  }

  lemma VariantsStep(jobs: seq<Job>, i: nat)
    requires i < |jobs|
    ensures AllVariants(jobs[..i + 1]) == AllVariants(jobs[..i]) + VariantsOf(jobs[i])
    ensures Expansions(jobs[..i + 1]) == Expansions(jobs[..i])[jobs[i].name := Names(VariantsOf(jobs[i]))]
  {
    assert jobs[..i + 1][..i] == jobs[..i];
  }

  lemma MatricesStep(jobs: seq<Job>, i: nat, rules: Rules)
    requires i < |jobs|
    ensures MatricesOk(jobs[..i + 1], rules) <==> MatricesOk(jobs[..i], rules) && JobMatrixOk(jobs[i], rules)
    ensures MatricesOk(jobs, rules) ==> JobMatrixOk(jobs[i], rules)
  {
    assert jobs[..i + 1] == jobs[..i] + [jobs[i]];
  }

  /** The first loop: every job's variants, and which names stand for it. */
  method ExpandEach(jobs: seq<Job>, rules: Rules) returns (r: Result<(seq<Job>, ExpansionMap), Error>)
    ensures r.Ok? <==> MatricesOk(jobs, rules)
    ensures r.Ok? ==> r.value == (AllVariants(jobs), Expansions(jobs))
    ensures r.Err? ==> FirstJobFault(jobs, rules, r.error)
  {
    var m: ExpansionMap := map[];
    var expanded: seq<Job> := [];
    for i := 0 to |jobs|
      invariant m == Expansions(jobs[..i]) && expanded == AllVariants(jobs[..i])
      invariant MatricesOk(jobs[..i], rules)
    {
      VariantsStep(jobs, i);
      MatricesStep(jobs, i, rules);
      var variants := ExpandJob(jobs[i], rules);
      if variants.Err? {
        return Err(variants.error);
      }
      m := m[jobs[i].name := Names(variants.value)];
      expanded := expanded + variants.value;
    }
    assert jobs[..|jobs|] == jobs;
    return Ok((expanded, m));
  }

  method ExpandJobs(p: Spec, rules: Rules) returns (r: Result<Spec, Error>)
    ensures r.Ok? <==> MatricesOk(p.jobs, rules)
    ensures r.Ok? ==> r.value == PhaseTwo(p)
    ensures r.Err? ==> FirstJobFault(p.jobs, rules, r.error)
  {
    if !HasMatrix(p.jobs) {
      return Ok(p);
    }
    var each := ExpandEach(p.jobs, rules);
    if each.Err? {
      return Err(each.error);
    }
    var (variants, m) := each.value;
    var expanded := variants;
    for i := 0 to |expanded|
      invariant |expanded| == |variants|
      invariant forall k | 0 <= k < i :: expanded[k] == Rewrite(variants[k], m)
      invariant forall k | i <= k < |expanded| :: expanded[k] == variants[k]
    {
      var job := RewriteJob(expanded[i], m);
      expanded := expanded[i := job];
    }
    assert expanded == RewriteAll(variants, m);
    return Ok(p.(jobs := expanded));
  }

  /** Both phases; a pipeline without any matrix is returned as it is. */
  method Expand(p: Spec, rules: Rules) returns (r: Result<Spec, Error>)
    ensures r.Ok? <==> PipelineMatrixOk(p, rules) && MatricesOk(PhaseOne(p).jobs, rules)
    ensures r.Ok? ==> r.value == PhaseTwo(PhaseOne(p))
    ensures r.Err? ==> if PipelineMatrixOk(p, rules) then FirstJobFault(PhaseOne(p).jobs, rules, r.error)
                       else PipelineMatrixFault(p, rules, r.error)
    ensures p.matrix.None? && !HasMatrix(p.jobs) ==> r == Ok(p)
  {
    if p.matrix.None? && !HasMatrix(p.jobs) {
      return Ok(p);
    }
    var first := ExpandPipeline(p, rules);
    if first.Err? {
      return Err(first.error);
    }
    r := ExpandJobs(first.value, rules);
  }
}
