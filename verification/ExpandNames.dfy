/** When expanded names stay unique, and what follows for caches and artifacts
    (pkg/pipeline/expand.go): bracket-free job names and dimensions without separators. */
module ExpandNames {
  import opened DependencyGraph
  import opened Wrappers
  import opened Pipeline
  import opened Substitute
  import opened ExpandedNames
  import opened Strings
  import opened Matrix
  import opened Expand
  import opened ExpandGraph

  // ----- Combinations that give readable names -----

  ghost function DimNames(dims: seq<Dimension>): set<string> {
    set d | d in dims :: d.name
  }

  /** Dimension names without separators, distinct values without commas. */
  ghost predicate CleanDims(dims: seq<Dimension>) {
    && DistinctDims(dims) && DistinctValues(dims)
    && forall d | d in dims :: ',' !in d.name && '=' !in d.name && forall v | v in d.values :: ',' !in v
  }

  ghost predicate GoodCombos(combos: seq<Combo>, keys: set<string>) {
    && (forall c | c in combos :: Clean(c) && c.Keys == keys)
    && (forall i, k | 0 <= i < k < |combos| :: combos[i] != combos[k])
  }

  lemma CombosAreGood(dims: seq<Dimension>)
    requires dims != [] && CleanDims(dims)
    ensures GoodCombos(AllCombos(dims), DimNames(dims)) && DimNames(dims) != {}
  {
    var combos := AllCombos(dims);
    CombinationsAreTheProduct(dims, combos);
    assert dims[0].name in DimNames(dims);
    forall c | c in combos
      ensures Clean(c) && c.Keys == DimNames(dims)
    {
      assert IsCombination(dims, c);
      forall k | k in c
        ensures ',' !in k && '=' !in k && ',' !in c[k]
      {
        assert HasDim(dims, k);
        var d :| d in dims && d.name == k;
      }
    }
  }

  // ----- Phase 1 -----

  ghost predicate PlainNames(jobs: seq<Job>) {
    UniqueNames(jobs) && forall j | j in jobs :: '[' !in j.name
  }

  lemma {:induction false} UniqueAppend(a: seq<Job>, b: seq<Job>)
    requires UniqueNames(a) && UniqueNames(b)
    requires forall x, y | x in a && y in b :: x.name != y.name
    ensures UniqueNames(a + b)
  {
  }

  /** The name of a replica tells job and combination. */
  lemma ReplicaNamesDiffer(a: Name, c: Combo, b: Name, d: Combo)
    requires '[' !in a && '[' !in b && Clean(c) && Clean(d)
    requires Expanded(a, c) == Expanded(b, d)
    ensures a == b && c == d
  {
    PlainBase(a, c);
    PlainBase(b, d);
    PrintInjective(a, c, b, d);
  }

  lemma {:induction false} CopiesUnique(jobs: seq<Job>, combos: seq<Combo>, keys: set<string>)
    requires PlainNames(jobs) && GoodCombos(combos, keys)
    ensures UniqueNames(Copies(jobs, combos))
  {
    if combos != [] {
      var front, last := combos[..|combos| - 1], combos[|combos| - 1];
      assert combos == front + [last];
      CopiesUnique(jobs, front, keys);
      CopyUnique(jobs, last);
      forall x, y | x in Copies(jobs, front) && y in Copy(jobs, last)
        ensures x.name != y.name
      {
        var j, c := CopiesComeFrom(jobs, front, x);
        var k := CopyComesFrom(jobs, last, y);
        OtherCopyOtherName(j, c, k, last);
      }
      UniqueAppend(Copies(jobs, front), Copy(jobs, last));
    }
  }

  lemma OtherCopyOtherName(j: Job, c: Combo, k: Job, d: Combo)
    requires '[' !in j.name && '[' !in k.name && Clean(c) && Clean(d) && c != d
    ensures Replica(j, c).name != Replica(k, d).name
  {
    if Expanded(j.name, c) == Expanded(k.name, d) {
      ReplicaNamesDiffer(j.name, c, k.name, d);
    }
  }

  lemma CopyUnique(jobs: seq<Job>, c: Combo)
    requires PlainNames(jobs) && Clean(c)
    ensures UniqueNames(Copy(jobs, c))
  {
    forall i, k | 0 <= i < k < |jobs|
      ensures Copy(jobs, c)[i].name != Copy(jobs, c)[k].name
    {
      if Copy(jobs, c)[i].name == Copy(jobs, c)[k].name {
        ReplicaNamesDiffer(jobs[i].name, c, jobs[k].name, c);
      }
    }
  }

  // ----- Phase 2 -----

  ghost function Restrict(m: Combo, keys: set<string>): Combo {
    map k | k in m && k in keys :: m[k]
  }

  /** The name of the job a variant comes from: only the pipeline's dimensions are kept. */
  ghost function OriginName(keys: set<string>, v: Name): Name {
    var q := Parse(v);
    if keys == {} then q.name else Print(q.name, Restrict(q.dims, keys))
  }

  /** A name as phase 1 leaves it: plain, or with exactly the pipeline's dimensions. */
  ghost predicate WellNamed(keys: set<string>, n: Name) {
    && '[' !in Parse(n).name && Parse(n).dims.Keys == keys
    && n == if keys == {} then Parse(n).name else Print(Parse(n).name, Parse(n).dims)
  }

  /** The job's own dimensions are clean and none of the pipeline's. */
  ghost predicate JobDimsOk(keys: set<string>, j: Job) {
    j.matrix.Some? ==>
      j.matrix.value != [] && CleanDims(j.matrix.value) && DimNames(j.matrix.value) !! keys
  }

  lemma ExpandedOrigin(keys: set<string>, n: Name, c: Combo)
    requires WellNamed(keys, n) && Clean(c) && c.Keys !! keys
    ensures Parse(Expanded(n, c)) == Parsed(Parse(n).name, Parse(n).dims + c)
    ensures OriginName(keys, Expanded(n, c)) == n
  {
    var q := Parse(n);
    ParsedIsClean(n);
    CleanUnion(q.dims, c);
    RoundTrip(q.name, q.dims + c);
    RestrictUnion(q.dims, c, keys);
  }

  lemma RestrictUnion(m: Combo, c: Combo, keys: set<string>)
    requires m.Keys == keys && c.Keys !! keys
    ensures Restrict(m + c, keys) == m
  {
  }

  lemma OwnOrigin(keys: set<string>, n: Name)
    requires WellNamed(keys, n)
    ensures OriginName(keys, n) == n
  {
    assert Restrict(Parse(n).dims, keys) == Parse(n).dims;
  }

  /** A variant is the job itself or the job expanded by one of its combinations. */
  ghost predicate IsVariantName(j: Job, v: Name) {
    if j.matrix.None? then v == j.name
    else exists c :: c in AllCombos(j.matrix.value) && v == Expanded(j.name, c)
  }

  lemma VariantName(j: Job, v: Name)
    requires v in Names(VariantsOf(j))
    ensures IsVariantName(j, v)
  {
    var vs := VariantsOf(j);
    var i :| 0 <= i < |vs| && Names(vs)[i] == v;
    if j.matrix.Some? {
      assert AllCombos(j.matrix.value)[i] in AllCombos(j.matrix.value);
    }
  }

  /** Every variant leads back to its job. */
  lemma VariantOrigin(keys: set<string>, j: Job, v: Name)
    requires WellNamed(keys, j.name) && JobDimsOk(keys, j) && v in Names(VariantsOf(j))
    ensures OriginName(keys, v) == j.name
  {
    VariantName(j, v);
    if j.matrix.None? {
      OwnOrigin(keys, j.name);
    } else {
      CombosAreGood(j.matrix.value);
      var c :| c in AllCombos(j.matrix.value) && v == Expanded(j.name, c);
      ExpandedOrigin(keys, j.name, c);
    }
  }

  lemma UnionCancels(m: Combo, c: Combo, d: Combo)
    requires c.Keys == d.Keys && c.Keys !! m.Keys && m + c == m + d
    ensures c == d
  {
    forall k | k in c
      ensures c[k] == d[k]
    {
      assert (m + c)[k] == c[k] && (m + d)[k] == d[k];
    }
  }

  lemma OtherCombinationOtherName(keys: set<string>, name: Name, c: Combo, d: Combo)
    requires WellNamed(keys, name) && Clean(c) && Clean(d) && c.Keys == d.Keys && c.Keys !! keys && c != d
    ensures Expanded(name, c) != Expanded(name, d)
  {
    ExpandedOrigin(keys, name, c);
    ExpandedOrigin(keys, name, d);
    if Expanded(name, c) == Expanded(name, d) {
      UnionCancels(Parse(name).dims, c, d);
    }
  }

  lemma VariantsUnique(keys: set<string>, j: Job)
    requires WellNamed(keys, j.name) && JobDimsOk(keys, j)
    ensures UniqueNames(VariantsOf(j))
  {
    if j.matrix.Some? {
      var combos := AllCombos(j.matrix.value);
      CombosAreGood(j.matrix.value);
      forall i, k | 0 <= i < k < |combos|
        ensures Expanded(j.name, combos[i]) != Expanded(j.name, combos[k])
      {
        assert combos[i] in combos && combos[k] in combos;
        OtherCombinationOtherName(keys, j.name, combos[i], combos[k]);
      }
    }
  }

  lemma OtherJobOtherVariants(keys: set<string>, j: Job, x: Job, k: Job, y: Job)
    requires WellNamed(keys, j.name) && JobDimsOk(keys, j) && WellNamed(keys, k.name) && JobDimsOk(keys, k)
    requires x in VariantsOf(j) && y in VariantsOf(k) && j.name != k.name
    ensures x.name != y.name
  {
    NameIn(VariantsOf(j), x);
    NameIn(VariantsOf(k), y);
    VariantOrigin(keys, j, x.name);
    VariantOrigin(keys, k, y.name);
  }

  lemma {:induction false} AllVariantsUnique(jobs: seq<Job>, keys: set<string>)
    requires UniqueNames(jobs)
    requires forall j | j in jobs :: WellNamed(keys, j.name) && JobDimsOk(keys, j)
    ensures UniqueNames(AllVariants(jobs))
  {
    if jobs != [] {
      var front, last := jobs[..|jobs| - 1], jobs[|jobs| - 1];
      assert jobs == front + [last];
      AllVariantsUnique(front, keys);
      VariantsUnique(keys, last);
      forall x, y | x in AllVariants(front) && y in VariantsOf(last)
        ensures x.name != y.name
      {
        AllVariantsMember(front, x);
        var j :| j in front && x in VariantsOf(j);
        EarlierName(front, last, j);
        OtherJobOtherVariants(keys, j, x, last, y);
      }
      UniqueAppend(AllVariants(front), VariantsOf(last));
    }
  }

  /** A matrix job's own name is not one of its variants' names. */
  lemma MatrixJobLosesItsName(keys: set<string>, j: Job)
    requires WellNamed(keys, j.name) && JobDimsOk(keys, j) && j.matrix.Some?
    ensures j.name !in Names(VariantsOf(j))
  {
    CombosAreGood(j.matrix.value);
    forall c | c in AllCombos(j.matrix.value)
      ensures Expanded(j.name, c) != j.name
    {
      ExpandedOrigin(keys, j.name, c);
      assert (Parse(j.name).dims + c).Keys == keys + c.Keys;
    }
    if j.name in Names(VariantsOf(j)) {
      VariantName(j, j.name);
    }
  }

  /** With such names an imported file's job stays a dependency exactly if it has one variant. */
  lemma ArtifactNeedsSingleVariant(jobs: seq<Job>, keys: set<string>, j: Job, b: Job, art: Artifact)
    requires UniqueNames(jobs) && j in jobs && b in jobs
    requires forall k | k in jobs :: WellNamed(keys, k.name) && JobDimsOk(keys, k)
    requires b.name in j.dependsOn && art.from == b.name && art.from != ""
    ensures var m := Expansions(jobs);
            RewriteFrom(art, m).from in RewriteDeps(j.dependsOn, m) <==> |VariantsOf(b)| == 1
  {
    ArtifactFollowsSingleVariant(jobs, j, b, art);
    if |VariantsOf(b)| != 1 {
      MatrixJobLosesItsName(keys, b);
      if k :| k in jobs && k.name in j.dependsOn && b.name in Names(VariantsOf(k)) {
        VariantOrigin(keys, k, b.name);
        OwnOrigin(keys, b.name);
        NameMeansSame(jobs, k, b);
      }
    }
  }

  // ----- Both phases -----

  ghost function PipelineKeys(p: Spec): set<string> {
    if p.matrix.None? then {} else DimNames(p.matrix.value)
  }

  /** A pipeline with bracket-free names whose dimensions, after substitution, are clean. */
  ghost predicate Expandable(p: Spec) {
    && PlainNames(p.jobs)
    && (p.matrix.Some? ==> CleanDims(p.matrix.value))
    && (forall j | j in PhaseOne(p).jobs && j.matrix.Some? :: CleanDims(j.matrix.value))
  }

  lemma PlainIsWellNamed(n: Name)
    requires '[' !in n
    ensures WellNamed({}, n)
  {
    assert FirstIndex(n, '[') == |n|;
  }

  lemma ReplicaIsWellNamed(keys: set<string>, n: Name, c: Combo)
    requires '[' !in n && Clean(c) && c.Keys == keys && keys != {}
    ensures WellNamed(keys, Expanded(n, c))
  {
    PlainBase(n, c);
    RoundTrip(n, c);
  }

  lemma ReplicaDims(p: Spec, a: Job, c: Combo)
    requires p.matrix.Some? && !DimsCollide(p.matrix.value, p.jobs) && a in p.jobs && a.matrix.Some?
    ensures Replica(a, c).matrix.Some?
    ensures DimNames(Replica(a, c).matrix.value) !! PipelineKeys(p)
  {
    var dims, out := a.matrix.value, Replica(a, c).matrix.value;
    assert !SharesDim(p.matrix.value, dims);
    forall d | d in out
      ensures d.name !in PipelineKeys(p)
    {
      var i :| 0 <= i < |out| && out[i] == d;
      assert dims[i] in dims && dims[i].name == d.name;
    }
  }

  lemma PhaseOneJobIsReady(p: Spec, rules: Rules, j: Job)
    requires ExpandSucceeds(p, rules) && Expandable(p) && j in PhaseOne(p).jobs
    ensures WellNamed(PipelineKeys(p), j.name) && JobDimsOk(PipelineKeys(p), j)
  {
    assert JobMatrixOk(j, rules);
    if p.matrix.None? {
      PlainIsWellNamed(j.name);
    } else {
      var combos := AllCombos(p.matrix.value);
      CombosAreGood(p.matrix.value);
      var a, c := CopiesComeFrom(p.jobs, combos, j);
      ReplicaIsWellNamed(PipelineKeys(p), a.name, c);
      if a.matrix.Some? {
        ReplicaDims(p, a, c);
      }
    }
  }

  /** Clean names and values keep names unique through both phases. */
  lemma ExpandableStaysUnique(p: Spec, rules: Rules)
    requires ExpandSucceeds(p, rules) && Expandable(p)
    ensures NamesStayUnique(p)
  {
    var jobs := PhaseOne(p).jobs;
    forall j | j in jobs
      ensures WellNamed(PipelineKeys(p), j.name) && JobDimsOk(PipelineKeys(p), j)
    {
      PhaseOneJobIsReady(p, rules, j);
    }
    if p.matrix.Some? {
      CombosAreGood(p.matrix.value);
      CopiesUnique(p.jobs, AllCombos(p.matrix.value), PipelineKeys(p));
    }
    AllVariantsUnique(jobs, PipelineKeys(p));
    PhaseTwoIsBlown(PhaseOne(p));
    UniqueVariantsUniqueBlown(jobs);
  }

  lemma UniqueVariantsUniqueBlown(jobs: seq<Job>)
    requires UniqueNames(AllVariants(jobs))
    ensures UniqueNames(Blown(jobs))
  {
  }

  // ----- Caches -----

  /** Every cache id of the job and its steps. */
  function CacheIds(j: Job): (ids: seq<string>) {
    Ids(j.caches) + StepIds(j.steps)
  }

  function Ids(caches: seq<Cache>): (ids: seq<string>)
    ensures |ids| == |caches| && forall i | 0 <= i < |caches| :: ids[i] == caches[i].id
  {
    seq(|caches|, i requires 0 <= i < |caches| => caches[i].id)
  }

  function StepIds(steps: seq<Step>): seq<string> {
    if steps == [] then [] else StepIds(steps[..|steps| - 1]) + Ids(steps[|steps| - 1].caches)
  }

  ghost predicate BracketFree(m: Combo) {
    forall k | k in m :: '[' !in k && '[' !in m[k]
  }

  lemma {:induction false} JoinedIsBracketFree(keys: seq<string>, m: Combo)
    requires BracketFree(m) && forall k | k in keys :: k in m
    ensures '[' !in Joined(keys, m)
  {
    if keys != [] {
      JoinedIsBracketFree(keys[..|keys| - 1], m);
      assert keys[|keys| - 1] in m;
    }
  }

  /** What comes before the last opening bracket is determined. */
  lemma LastBracketSplits(a: string, x: string, b: string, y: string)
    requires '[' !in x && '[' !in y && a + "[" + x == b + "[" + y
    ensures a == b && x == y
  {
    BracketAt(a, x);
    BracketAt(b, y);
    NoBracketAfter(a, x, |b|);
    NoBracketAfter(b, y, |a|);
  }

  lemma BracketAt(a: string, x: string)
    ensures var s := a + "[" + x; s[|a|] == '[' && s[..|a|] == a && s[|a| + 1..] == x
  {
    assert (a + "[")[|a|] == '[';
  }

  lemma NoBracketAfter(a: string, x: string, i: nat)
    requires '[' !in x
    ensures |a| < i < |a| + 1 + |x| ==> (a + "[" + x)[i] != '['
  {
    if |a| < i < |a| + 1 + |x| {
      assert (a + "[" + x)[i] == x[i - |a| - 1];
    }
  }

  /** The suffix without its opening bracket. */
  function Tail(m: Combo): string {
    Joined(Sorted(m.Keys), m) + "]"
  }

  lemma TailIsBracketFree(m: Combo)
    requires BracketFree(m)
    ensures '[' !in Tail(m)
  {
    JoinedIsBracketFree(Sorted(m.Keys), m);
  }

  lemma CacheIdSplits(x: string, base: Name, m: Combo)
    ensures CacheId(x, Print(base, m)) == (x + "--" + base) + "[" + Tail(m)
    ensures Print(base, m) == base + "[" + Tail(m)
  {
  }

  /** Whatever the ids were, under two different variant names of a job they differ. */
  lemma CacheIdsDiffer(x: string, y: string, base: Name, m: Combo, l: Combo)
    requires BracketFree(m) && BracketFree(l) && Print(base, m) != Print(base, l)
    ensures CacheId(x, Print(base, m)) != CacheId(y, Print(base, l))
  {
    TailIsBracketFree(m);
    TailIsBracketFree(l);
    CacheIdSplits(x, base, m);
    CacheIdSplits(y, base, l);
    if CacheId(x, Print(base, m)) == CacheId(y, Print(base, l)) {
      LastBracketSplits(x + "--" + base, Tail(m), y + "--" + base, Tail(l));
    }
  }

  predicate EndsWith(s: string, t: string) {
    |t| <= |s| && s[|s| - |t|..] == t
  }

  /** Neither name, with the separator before it, is an ending of the other. */
  predicate NamesApart(a: Name, b: Name) {
    !EndsWith("--" + a, "--" + b) && !EndsWith("--" + b, "--" + a)
  }

  ghost predicate SomeIdsCollide(a: Name, b: Name) {
    exists x, y :: CacheId(x, a) == CacheId(y, b)
  }

  lemma IdEndsWith(x: string, a: Name)
    ensures EndsWith(CacheId(x, a), "--" + a) && CacheId(x, a) == x + ("--" + a)
  {
    assert CacheId(x, a) == x + ("--" + a);
  }

  lemma EndingOfEnding(s: string, t: string, u: string)
    requires EndsWith(s, t) && EndsWith(s, u) && |t| <= |u|
    ensures EndsWith(u, t)
  {
    assert u[|u| - |t|..] == s[|s| - |t|..];
  }

  lemma EndingCollides(a: Name, b: Name)
    requires EndsWith("--" + a, "--" + b)
    ensures SomeIdsCollide(a, b)
  {
    var s, t := "--" + a, "--" + b;
    var z := s[..|s| - |t|];
    assert s == z + t;
    IdEndsWith("", a);
    IdEndsWith(z, b);
    assert "" + s == s;
    assert CacheId("", a) == CacheId(z, b);
  }

  /** Two names can give the same cache id exactly if one, after a separator, ends with the other. */
  lemma CacheIdsCollideExactly(a: Name, b: Name)
    ensures SomeIdsCollide(a, b) <==> !NamesApart(a, b)
  {
    if x, y :| CacheId(x, a) == CacheId(y, b) {
      IdEndsWith(x, a);
      IdEndsWith(y, b);
      var s := CacheId(x, a);
      if |a| <= |b| {
        EndingOfEnding(s, "--" + a, "--" + b);
      } else {
        EndingOfEnding(s, "--" + b, "--" + a);
      }
    }
    if EndsWith("--" + a, "--" + b) {
      EndingCollides(a, b);
    } else if EndsWith("--" + b, "--" + a) {
      EndingCollides(b, a);
      var x, y :| CacheId(x, b) == CacheId(y, a);
      assert CacheId(y, a) == CacheId(x, b);
    }
  }

  /** Different variant names of one base are apart if keys and values have no opening bracket. */
  lemma BracketFreeNamesAreApart(base: Name, m: Combo, l: Combo)
    requires BracketFree(m) && BracketFree(l) && Print(base, m) != Print(base, l)
    ensures NamesApart(Print(base, m), Print(base, l))
  {
    CacheIdsCollideExactly(Print(base, m), Print(base, l));
    if x, y :| CacheId(x, Print(base, m)) == CacheId(y, Print(base, l)) {
      CacheIdsDiffer(x, y, base, m, l);
    }
  }

  /** `id` was namespaced with the job's name. */
  ghost predicate Namespaced(id: string, name: Name) {
    exists x :: id == CacheId(x, name)
  }

  lemma {:induction false} StepIdsNamespaced(steps: seq<Step>, name: Name)
    requires forall s | s in steps :: forall c | c in s.caches :: Namespaced(c.id, name)
    ensures forall id | id in StepIds(steps) :: Namespaced(id, name)
  {
    if steps != [] {
      var last := steps[|steps| - 1];
      StepIdsNamespaced(steps[..|steps| - 1], name);
      forall id | id in Ids(last.caches)
        ensures Namespaced(id, name)
      {
        var i :| 0 <= i < |last.caches| && last.caches[i].id == id;
        assert last in steps && last.caches[i] in last.caches;
      }
    }
  }

  lemma NamespacedCaches(caches: seq<Cache>, name: Name, c: Cache)
    requires c in NamespaceCaches(caches, name)
    ensures Namespaced(c.id, name)
  {
    var i :| 0 <= i < |caches| && NamespaceCaches(caches, name)[i] == c;
    assert c.id == CacheId(caches[i].id, name);
  }

  lemma AllNamespaced(j: Job, name: Name)
    requires forall c | c in j.caches :: Namespaced(c.id, name)
    requires forall s | s in j.steps :: forall c | c in s.caches :: Namespaced(c.id, name)
    ensures forall id | id in CacheIds(j) :: Namespaced(id, name)
  {
    StepIdsNamespaced(j.steps, name);
    forall id | id in Ids(j.caches)
      ensures Namespaced(id, name)
    {
      var i :| 0 <= i < |j.caches| && j.caches[i].id == id;
      assert j.caches[i] in j.caches;
    }
  }

  lemma VariantIds(j: Job, c: Combo)
    ensures forall id | id in CacheIds(Variant(j, c)) :: Namespaced(id, Expanded(j.name, c))
  {
    var r, out, name := SubstituteJobVars(j, c, "matrix."), Variant(j, c), Expanded(j.name, c);
    forall x | x in out.caches
      ensures Namespaced(x.id, name)
    {
      NamespacedCaches(r.caches, name, x);
    }
    forall s, x | s in out.steps && x in s.caches
      ensures Namespaced(x.id, name)
    {
      var i :| 0 <= i < |out.steps| && out.steps[i] == s;
      NamespacedCaches(r.steps[i].caches, name, x);
    }
    AllNamespaced(out, name);
  }

  lemma ReplicaIds(j: Job, c: Combo)
    ensures forall id | id in CacheIds(Replica(j, c)) :: Namespaced(id, Expanded(j.name, c))
  {
    var r, out, name := SubstituteJobVars(j, c, "matrix."), Replica(j, c), Expanded(j.name, c);
    forall x | x in out.caches
      ensures Namespaced(x.id, name)
    {
      NamespacedCaches(r.caches, name, x);
    }
    forall s, x | s in out.steps && x in s.caches
      ensures Namespaced(x.id, name)
    {
      var i :| 0 <= i < |out.steps| && out.steps[i] == s;
      NamespacedCaches(r.steps[i].caches, name, x);
    }
    AllNamespaced(out, name);
  }

  lemma NamespacesDiffer(id: string, id': string, a: Name, b: Name)
    requires NamesApart(a, b) && Namespaced(id, a) && Namespaced(id', b)
    ensures id != id'
  {
    CacheIdsCollideExactly(a, b);
    var x :| id == CacheId(x, a);
    var y :| id' == CacheId(y, b);
    assert CacheId(x, a) != CacheId(y, b);
  }

  /** Two variants of a job whose names are apart have no cache in common, on the job or on any
      step, whatever placeholders the ids had. */
  lemma VariantCachesDiffer(j: Job, c: Combo, d: Combo, id: string, id': string)
    requires NamesApart(Expanded(j.name, c), Expanded(j.name, d))
    requires id in CacheIds(Variant(j, c)) && id' in CacheIds(Variant(j, d))
    ensures id != id'
  {
    VariantIds(j, c);
    VariantIds(j, d);
    NamespacesDiffer(id, id', Expanded(j.name, c), Expanded(j.name, d));
  }

  /** The same for the replicas of a job in two copies of the pipeline. */
  lemma ReplicaCachesDiffer(j: Job, c: Combo, d: Combo, id: string, id': string)
    requires NamesApart(Expanded(j.name, c), Expanded(j.name, d))
    requires id in CacheIds(Replica(j, c)) && id' in CacheIds(Replica(j, d))
    ensures id != id'
  {
    ReplicaIds(j, c);
    ReplicaIds(j, d);
    NamespacesDiffer(id, id', Expanded(j.name, c), Expanded(j.name, d));
  }

  /** Bracket-free keys and values keep the names of a job's variants and replicas apart. */
  lemma ExpandedNamesApart(name: Name, c: Combo, d: Combo)
    requires Expanded(name, c) != Expanded(name, d)
    requires BracketFree(Parse(name).dims + c) && BracketFree(Parse(name).dims + d)
    ensures NamesApart(Expanded(name, c), Expanded(name, d))
  {
    BracketFreeNamesAreApart(Parse(name).name, Parse(name).dims + c, Parse(name).dims + d);
  }
}
