/** The include resolver (pkg/parser/include.go).

    Files are already parsed: a finite map from absolute path to a list of nodes. Resolution is
    specified without cache, stack limit or aliases by `Uncached`; the stateful resolver is
    proved against it. */
module Include {
  import opened DependencyGraph
  import opened Wrappers
  import Pipeline
  import opened Merge
  import opened Substitute

  type Job = Pipeline.Job
  type Path = string

  const MAX_INCLUDE_DEPTH: nat := 64

  datatype ParamDef = ParamDef(name: string, default_: string, required: bool)

  datatype Directive = Directive(target: Path, alias: string, onConflict: Conflict, params: Combo)

  /** A setting is a matrix, env or defaults node: ignored in an included pipeline file. */
  datatype Node = JobNode(job: Job) | IncludeNode(inc: Directive) | ParamNode(param: ParamDef) | SettingNode

  datatype File =
    | FragmentFile(name: string, nodes: seq<Node>)
    | PipelineFile(name: string, nodes: seq<Node>)
    | BrokenFile

  type Files = map<Path, File>

  datatype Fragment = Fragment(name: string, jobs: seq<Job>)

  datatype IncludeError =
    | NotFound(path: Path)
    | CircularInclude(path: Path)
    | IncludeDepth(path: Path)
    | DuplicateAlias(alias: string)
    | Unreadable
    | UnknownNode
    | EmptyInclude
    | PipelineNoParams
    | DuplicateParam
    | MissingParam
    | UnknownParam
    | DuplicateJob

  // ----- Parameters -----

  function ParamDefs(nodes: seq<Node>): seq<ParamDef> {
    if nodes == [] then [] else
      var last := nodes[|nodes| - 1];
      ParamDefs(nodes[..|nodes| - 1]) + (if last.ParamNode? then [last.param] else [])
  }

  predicate DeclaresParam(defs: seq<ParamDef>, name: string) {
    exists d | d in defs :: d.name == name
  }

  predicate DistinctParams(defs: seq<ParamDef>) {
    defs == [] || (DistinctParams(defs[..|defs| - 1])
                   && !DeclaresParam(defs[..|defs| - 1], defs[|defs| - 1].name))
  }

  predicate ParamsAccepted(defs: seq<ParamDef>, provided: Combo) {
    && (forall d | d in defs && d.required :: d.name in provided)
    && (forall k | k in provided :: DeclaresParam(defs, k))
  }

  /** Provided values win over defaults. */
  function ResolvedParams(defs: seq<ParamDef>, provided: Combo): Combo {
    if defs == [] then map[] else
      var d := defs[|defs| - 1];
      ResolvedParams(defs[..|defs| - 1], provided)
        [d.name := if d.name in provided then provided[d.name] else d.default_]
  }

  /** `ValidateParams`: declared once, provided if required, and nothing else provided. */
  method CheckParams(defs: seq<ParamDef>, provided: Combo) returns (err: Option<IncludeError>)
    ensures err.None? <==> DistinctParams(defs) && ParamsAccepted(defs, provided)
    ensures err == Some(DuplicateParam) ==> !DistinctParams(defs)
    ensures err.Some? ==> err.value in {DuplicateParam, MissingParam, UnknownParam}
  {
    var known: set<string> := {};
    for i := 0 to |defs|
      invariant DistinctParams(defs[..i])
      invariant forall n :: n in known <==> DeclaresParam(defs[..i], n)
      invariant forall d | d in defs[..i] && d.required :: d.name in provided
    {
      assert defs[..i + 1][..i] == defs[..i] && defs[..i + 1] == defs[..i] + [defs[i]];
      if defs[i].name in known {
        DuplicateStays(defs, i);
        return Some(DuplicateParam);
      }
      known := known + {defs[i].name};
      if defs[i].required && defs[i].name !in provided {
        return Some(MissingParam);
      }
    }
    assert defs[..|defs|] == defs;
    if k :| k in provided && k !in known {
      return Some(UnknownParam);
    }
    return None;
  }

  lemma {:induction false} DuplicateStays(defs: seq<ParamDef>, i: nat)
    requires i < |defs| && DeclaresParam(defs[..i], defs[i].name)
    ensures !DistinctParams(defs)
    decreases |defs|
  {
    var n := |defs| - 1;
    if i < n {
      assert defs[..n][..i] == defs[..i];
      DuplicateStays(defs[..n], i);
    }
  }

  method ResolveParams(defs: seq<ParamDef>, provided: Combo) returns (r: Result<Combo, IncludeError>)
    ensures r.Ok? <==> DistinctParams(defs) && ParamsAccepted(defs, provided)
    ensures r.Ok? ==> r.value == ResolvedParams(defs, provided)
    ensures r == Err(DuplicateParam) ==> !DistinctParams(defs)
    ensures r.Err? ==> r.error in {DuplicateParam, MissingParam, UnknownParam}
  {
    var refused := CheckParams(defs, provided);
    if refused.Some? {
      return Err(refused.value);
    }
    var resolved: Combo := map[];
    for i := 0 to |defs|
      invariant resolved == ResolvedParams(defs[..i], provided)
    {
      assert defs[..i + 1][..i] == defs[..i];
      var name := defs[i].name;
      resolved := resolved[name := if name in provided then provided[name] else defs[i].default_];
    }
    assert defs[..|defs|] == defs;
    return Ok(resolved);
  }

  lemma {:induction false} ParamDefMembers(nodes: seq<Node>, d: ParamDef)
    ensures d in ParamDefs(nodes) <==> ParamNode(d) in nodes
  {
    if nodes != [] {
      var front, last := nodes[..|nodes| - 1], nodes[|nodes| - 1];
      ParamDefMembers(front, d);
      assert nodes == front + [last];
    }
  }

  lemma {:induction false} ResolvedKeys(defs: seq<ParamDef>, provided: Combo, n: string)
    ensures n in ResolvedParams(defs, provided) <==> DeclaresParam(defs, n)
  {
    if defs != [] {
      var front, last := defs[..|defs| - 1], defs[|defs| - 1];
      ResolvedKeys(front, provided, n);
      assert forall d :: d in defs <==> d in front || d == last;
    }
  }

  /** The declared parameters and no others have a value: the provided one where there is one, the
      default otherwise. */
  lemma {:induction false} ResolvedExactly(defs: seq<ParamDef>, provided: Combo)
    requires DistinctParams(defs)
    ensures forall n :: n in ResolvedParams(defs, provided) <==> exists d :: d in defs && d.name == n
    ensures forall d | d in defs ::
              && (d.name in provided ==> ResolvedParams(defs, provided)[d.name] == provided[d.name])
              && (d.name !in provided ==> ResolvedParams(defs, provided)[d.name] == d.default_)
  {
    forall n
      ensures n in ResolvedParams(defs, provided) <==> exists d :: d in defs && d.name == n
    {
      ResolvedKeys(defs, provided, n);
    }
    if defs != [] {
      var front, last := defs[..|defs| - 1], defs[|defs| - 1];
      ResolvedExactly(front, provided);
      assert !DeclaresParam(front, last.name);
      assert forall d :: d in defs <==> d in front || d == last;
    }
  }

  // ----- Resolution without cache -----

  function Targets(nodes: seq<Node>): seq<Path> {
    if nodes == [] then [] else
      var last := nodes[|nodes| - 1];
      Targets(nodes[..|nodes| - 1]) + (if last.IncludeNode? then [last.inc.target] else [])
  }

  lemma {:induction false} TargetMembers(nodes: seq<Node>, p: Path)
    ensures p in Targets(nodes) <==> exists i :: 0 <= i < |nodes| && nodes[i].IncludeNode? && nodes[i].inc.target == p
  {
    if nodes != [] {
      var front := nodes[..|nodes| - 1];
      TargetMembers(front, p);
      if p in Targets(front) {
        var i :| 0 <= i < |front| && front[i].IncludeNode? && front[i].inc.target == p;
        assert nodes[i] == front[i];
      }
    }
  }

  function NodesOf(f: File): seq<Node> {
    if f.BrokenFile? then [] else f.nodes
  }

  /** Which file includes which. */
  function IncludeGraph(files: Files): Graph {
    map p | p in files :: Targets(NodesOf(files[p]))
  }

  /** The file has only nodes its kind allows, and takes these parameters. */
  predicate Acceptable(f: File, params: Combo) {
    match f
    case BrokenFile => false
    case PipelineFile(_, nodes) =>
      nodes != [] && (forall n | n in nodes :: !n.ParamNode?) && params == map[]
    case FragmentFile(_, nodes) =>
      && (forall n | n in nodes :: !n.SettingNode?)
      && DistinctParams(ParamDefs(nodes))
      && ParamsAccepted(ParamDefs(nodes), params)
  }

  function Finished(f: File, params: Combo, jobs: seq<Job>): Fragment
    requires !f.BrokenFile?
  {
    match f
    case PipelineFile(name, _) => Fragment(name, jobs)
    case FragmentFile(name, nodes) =>
      Fragment(name, SubstituteParams(jobs, ResolvedParams(ParamDefs(nodes), params)))
  }

  /** What including `path` with `params` gives, `anc` being the files on the way there. */
  ghost function Uncached(files: Files, anc: set<Path>, path: Path, params: Combo): Option<Fragment>
    decreases |files.Keys - anc|, 1, 0
  {
    if path !in files || path in anc || !Acceptable(files[path], params) then None
    else
      assert files.Keys - (anc + {path}) == files.Keys - anc - {path};
      var items := UncachedItems(files, anc + {path}, NodesOf(files[path]));
      if items.None? || Conflicts(items.value) then None
      else Some(Finished(files[path], params, FirstOnes(items.value)))
  }

  /** The jobs of a node list in document order, includes resolved. */
  ghost function UncachedItems(files: Files, anc: set<Path>, nodes: seq<Node>): Option<seq<Item>>
    decreases |files.Keys - anc|, 2, |nodes|
  {
    if nodes == [] then Some([])
    else
      var front := UncachedItems(files, anc, nodes[..|nodes| - 1]);
      if front.None? then None
      else
        match nodes[|nodes| - 1]
        case JobNode(j) => Some(front.value + [Item(j, ConflictError)])
        case IncludeNode(inc) =>
          var frag := Uncached(files, anc, inc.target, inc.params);
          if frag.None? then None else Some(front.value + Tagged(frag.value.jobs, inc.onConflict))
        case _ => front
  }

  ghost function Joint(a: Option<seq<Item>>, b: Option<seq<Item>>): Option<seq<Item>> {
    if a.Some? && b.Some? then Some(a.value + b.value) else None
  }

  lemma AppendNode(files: Files, anc: set<Path>, nodes: seq<Node>, n: Node)
    ensures UncachedItems(files, anc, nodes + [n])
         == Joint(UncachedItems(files, anc, nodes), UncachedItems(files, anc, [n]))
  {
    assert (nodes + [n])[..|nodes|] == nodes;
    NodeAlone(files, anc, n);
    JointWithNone(UncachedItems(files, anc, nodes));
  }

  /** What one node brings: its job, which must not repeat a name, or the jobs of the file it
      includes, with the strategy the include gives. */
  ghost function ItemsOf(files: Files, anc: set<Path>, n: Node): Option<seq<Item>> {
    match n
    case JobNode(j) => Some([Item(j, ConflictError)])
    case IncludeNode(inc) =>
      var frag := Uncached(files, anc, inc.target, inc.params);
      if frag.None? then None else Some(Tagged(frag.value.jobs, inc.onConflict))
    case _ => Some([])
  }

  lemma NodeAlone(files: Files, anc: set<Path>, n: Node)
    ensures UncachedItems(files, anc, [n]) == ItemsOf(files, anc, n)
  {
    assert [n][..0] == [];
    assert UncachedItems(files, anc, []) == Some([]);
    if ItemsOf(files, anc, n).Some? {
      assert [] + ItemsOf(files, anc, n).value == ItemsOf(files, anc, n).value;
    }
  }

  lemma JointTwice(a: Option<seq<Item>>, b: Option<seq<Item>>, c: Option<seq<Item>>)
    ensures Joint(a, Joint(b, c)) == Joint(Joint(a, b), c)
  {
    if a.Some? && b.Some? && c.Some? {
      assert a.value + (b.value + c.value) == a.value + b.value + c.value;
    }
  }

  lemma JointWithNone(a: Option<seq<Item>>)
    ensures Joint(a, Some([])) == a
  {
    if a.Some? {
      assert a.value + [] == a.value;
    }
  }

  /** Document order: the items of a node list are those of its nodes, one after the other. */
  lemma {:induction false} ItemsInOrder(files: Files, anc: set<Path>, a: seq<Node>, b: seq<Node>)
    ensures UncachedItems(files, anc, a + b) == Joint(UncachedItems(files, anc, a), UncachedItems(files, anc, b))
    decreases |b|
  {
    if b == [] {
      assert a + b == a;
      JointWithNone(UncachedItems(files, anc, a));
    } else {
      var front, n := b[..|b| - 1], b[|b| - 1];
      ItemsInOrder(files, anc, a, front);
      assert b == front + [n] && a + b == (a + front) + [n];
      AppendNode(files, anc, a + front, n);
      AppendNode(files, anc, front, n);
      JointTwice(UncachedItems(files, anc, a), UncachedItems(files, anc, front), UncachedItems(files, anc, [n]));
    }
  }

  // ----- Parameters in a resolved fragment -----

  /** The jobs of a file before its parameters are put in. */
  ghost function JobsAsWritten(files: Files, anc: set<Path>, path: Path): seq<Job>
    requires path in files
  {
    var items := UncachedItems(files, anc + {path}, NodesOf(files[path]));
    if items.None? then [] else FirstOnes(items.value)
  }

  ghost function ValuesIn(f: File, params: Combo): Combo {
    ResolvedParams(ParamDefs(NodesOf(f)), params)
  }

  lemma ParamsSubstituted(jobs: seq<Job>, values: Combo, i: nat)
    requires i < |jobs|
    ensures var out, sub := SubstituteParams(jobs, values)[i], (s: string) => Substituted(s, values, "param.");
            MapsTo(Texts(jobs[i]), Texts(out), sub) && SameEdges(jobs[i], out) && SameRest(jobs[i], out)
  {
    var sub := (s: string) => Substituted(s, values, "param.");
    if values != map[] {
      EveryTextIsSubstituted(jobs[i], s => Substituted(s, values, "param."));
      RestIsKept(jobs[i], s => Substituted(s, values, "param."));
    }
  }

  /** A resolved fragment has the jobs of its file with the parameters filled in: every text keeps
      what is written between placeholders and has the value of the parameter in the place of
      each, the provided value or else the default. Nothing but texts changes. */
  lemma FragmentCarriesParams(
    files: Files, anc: set<Path>, path: Path, params: Combo, frag: Fragment, i: nat, m: nat, pieces: seq<Piece>)
    requires Uncached(files, anc, path, params) == Some(frag) && files[path].FragmentFile?
    requires i < |JobsAsWritten(files, anc, path)|
    ensures |frag.jobs| == |JobsAsWritten(files, anc, path)|
    ensures var j, out := JobsAsWritten(files, anc, path)[i], frag.jobs[i];
            && SameEdges(j, out) && SameRest(j, out) && |Texts(out)| == |Texts(j)|
            && (m < |Texts(j)| && Texts(j)[m] == Written(pieces, "param.")
                && PrefixFree(ValuesIn(files[path], params).Keys, "param.")
                && IsTemplate(pieces, ValuesIn(files[path], params))
                ==> Texts(out)[m] == Filled(pieces, ValuesIn(files[path], params)))
    ensures forall d | ParamNode(d) in NodesOf(files[path]) ::
              && d.name in ValuesIn(files[path], params)
              && ValuesIn(files[path], params)[d.name] == if d.name in params then params[d.name] else d.default_
  {
    var values, j := ValuesIn(files[path], params), JobsAsWritten(files, anc, path)[i];
    ParamsSubstituted(JobsAsWritten(files, anc, path), values, i);
    if m < |Texts(j)| && Texts(j)[m] == Written(pieces, "param.")
       && PrefixFree(values.Keys, "param.") && IsTemplate(pieces, values) {
      TemplateIsFilled(pieces, values, "param.");
    }
    ResolvedExactly(ParamDefs(NodesOf(files[path])), params);
    forall d | ParamNode(d) in NodesOf(files[path])
      ensures d in ParamDefs(NodesOf(files[path]))
    {
      ParamDefMembers(NodesOf(files[path]), d);
    }
  }

  lemma {:induction false} ItemsNeedIncludes(files: Files, anc: set<Path>, nodes: seq<Node>, p: Path)
    requires UncachedItems(files, anc, nodes).Some? && p in Targets(nodes)
    ensures exists params :: Uncached(files, anc, p, params).Some?
  {
    var last := nodes[|nodes| - 1];
    if last.IncludeNode? && last.inc.target == p {
      assert Uncached(files, anc, p, last.inc.params).Some?;
    } else {
      ItemsNeedIncludes(files, anc, nodes[..|nodes| - 1], p);
    }
  }

  /** Fewer ancestors never change a successful resolution. */
  lemma {:induction false} FewerAncestors(files: Files, anc: set<Path>, less: set<Path>, path: Path, params: Combo)
    requires less <= anc && Uncached(files, anc, path, params).Some?
    ensures Uncached(files, less, path, params) == Uncached(files, anc, path, params)
    decreases |files.Keys - anc|, 1, 0
  {
    assert files.Keys - (anc + {path}) == files.Keys - anc - {path};
    FewerAncestorsItems(files, anc + {path}, less + {path}, NodesOf(files[path]));
  }

  lemma {:induction false} FewerAncestorsItems(files: Files, anc: set<Path>, less: set<Path>, nodes: seq<Node>)
    requires less <= anc && UncachedItems(files, anc, nodes).Some?
    ensures UncachedItems(files, less, nodes) == UncachedItems(files, anc, nodes)
    decreases |files.Keys - anc|, 2, |nodes|
  {
    if nodes != [] {
      FewerAncestorsItems(files, anc, less, nodes[..|nodes| - 1]);
      var last := nodes[|nodes| - 1];
      if last.IncludeNode? {
        FewerAncestors(files, anc, less, last.inc.target, last.inc.params);
      }
    }
  }

  // ----- Success means no include cycle -----

  ghost predicate Distinct(p: seq<Path>) {
    forall i, k | 0 <= i < k < |p| :: p[i] != p[k]
  }

  /** Along every chain of includes from a resolvable file no file comes twice, none is an
      ancestor and all exist. */
  lemma {:induction false} ResolvableChains(files: Files, anc: set<Path>, path: Path, params: Combo, p: seq<Path>)
    requires Uncached(files, anc, path, params).Some?
    requires IsPath(IncludeGraph(files), p) && p[0] == path
    ensures Distinct(p) && forall i | 0 <= i < |p| :: p[i] in files && p[i] !in anc
    decreases |p|
  {
    if |p| > 1 {
      var g := IncludeGraph(files);
      assert Edge(g, p[0], p[1]);
      ItemsNeedIncludes(files, anc + {path}, NodesOf(files[path]), p[1]);
      var params' :| Uncached(files, anc + {path}, p[1], params').Some?;
      var rest := p[1..];
      forall i | 0 <= i < |rest| - 1
        ensures Edge(g, rest[i], rest[i + 1])
      {
        assert Edge(g, p[i + 1], p[i + 2]);
      }
      ResolvableChains(files, anc + {path}, p[1], params', rest);
      forall i | 1 <= i < |p|
        ensures p[i] in files && p[i] !in anc && p[i] != p[0]
      {
        assert p[i] == rest[i - 1];
      }
      forall i, k | 0 <= i < k < |p|
        ensures p[i] != p[k]
      {
        if i > 0 {
          assert p[i] == rest[i - 1] && p[k] == rest[k - 1];
        }
      }
    }
  }

  /** A cycle of includes can be reached from `path`. */
  ghost predicate LeadsToCycle(g: Graph, path: Path) {
    exists c :: IsCycle(g, c) && Reach(g, path, c[0])
  }

  lemma CycleRepeats(p: seq<Path>, c: seq<Path>)
    requires p != [] && |c| > 1 && p[|p| - 1] == c[0] == c[|c| - 1]
    ensures !Distinct(p + c[1..])
  {
    var q := p + c[1..];
    assert q[|p| - 1] == q[|q| - 1];
  }

  /** No cycle of includes can be reached from a file that resolves, and nothing is missing. */
  lemma ResolvableIsAcyclic(files: Files, path: Path, params: Combo)
    requires Uncached(files, {}, path, params).Some?
    ensures !LeadsToCycle(IncludeGraph(files), path)
    ensures forall x | Reach(IncludeGraph(files), path, x) :: x in files
  {
    var g := IncludeGraph(files);
    forall c | IsCycle(g, c)
      ensures !Reach(g, path, c[0])
    {
      if Reach(g, path, c[0]) {
        var p :| PathBetween(g, p, path, c[0]);
        JoinPaths(g, p, c);
        var q := p + c[1..];
        CycleRepeats(p, c);
        ResolvableChains(files, {}, path, params, q);
      }
    }
    forall x | Reach(g, path, x)
      ensures x in files
    {
      var p :| PathBetween(g, p, path, x);
      ResolvableChains(files, {}, path, params, p);
    }
  }

  /** Ancestors that the file does not lead to do not matter. */
  lemma {:induction false} UnreachedAncestors(
    files: Files, anc: set<Path>, more: set<Path>, path: Path, params: Combo)
    requires Uncached(files, anc, path, params).Some?
    requires forall a | a in more :: !Reach(IncludeGraph(files), path, a)
    ensures Uncached(files, anc + more, path, params) == Uncached(files, anc, path, params)
    decreases |files.Keys - anc|, 1, 0
  {
    ReachSelf(IncludeGraph(files), path);
    assert files.Keys - (anc + {path}) == files.Keys - anc - {path};
    assert anc + more + {path} == anc + {path} + more;
    forall t, a | t in Targets(NodesOf(files[path])) && a in more
      ensures !Reach(IncludeGraph(files), t, a)
    {
      if Reach(IncludeGraph(files), t, a) {
        ReachEdge(IncludeGraph(files), path, t);
        ReachTrans(IncludeGraph(files), path, t, a);
      }
    }
    UnreachedAncestorsItems(files, anc + {path}, more, NodesOf(files[path]));
  }

  lemma {:induction false} UnreachedAncestorsItems(files: Files, anc: set<Path>, more: set<Path>, nodes: seq<Node>)
    requires UncachedItems(files, anc, nodes).Some?
    requires forall t, a | t in Targets(nodes) && a in more :: !Reach(IncludeGraph(files), t, a)
    ensures UncachedItems(files, anc + more, nodes) == UncachedItems(files, anc, nodes)
    decreases |files.Keys - anc|, 2, |nodes|
  {
    if nodes != [] {
      UnreachedAncestorsItems(files, anc, more, nodes[..|nodes| - 1]);
      var last := nodes[|nodes| - 1];
      if last.IncludeNode? {
        UnreachedAncestors(files, anc, more, last.inc.target, last.inc.params);
      }
    }
  }

  // ----- Cache keys -----

  /** `url.Values.Encode`: on different parameter maps the encodings differ. */
  ghost predicate Injective(encode: Combo -> string) {
    forall a, b :: encode(a) == encode(b) ==> a == b
  }

  function CacheKey(path: Path, params: Combo, encode: Combo -> string): string {
    if params == map[] then path else path + "?" + encode(params)
  }

  /** Encoded parameters have no question mark: the encoding escapes it. */
  ghost predicate NoMark(encode: Combo -> string) {
    forall a :: '?' !in encode(a)
  }

  /** On these paths a key determines path and parameters. */
  ghost predicate KeysUnambiguous(paths: set<Path>, encode: Combo -> string) {
    forall p, q, a, b | p in paths && q in paths && CacheKey(p, a, encode) == CacheKey(q, b, encode) ::
      p == q && a == b
  }

  /** One of the paths is another one followed by encoded parameters. */
  ghost predicate PathsCollide(paths: set<Path>, encode: Combo -> string) {
    exists p, a :: p in paths && a != map[] && WithParams(p, a, encode) in paths
  }

  function WithParams(p: Path, a: Combo, encode: Combo -> string): string {
    p + "?" + encode(a)
  }

  /** After the last question mark of a key come the parameters. */
  lemma LastMarkSplits(p: string, x: string, q: string, y: string)
    requires '?' !in x && '?' !in y && p + "?" + x == q + "?" + y
    ensures p == q && x == y
  {
    var k, l := p + "?" + x, q + "?" + y;
    MarkAt(p, x);
    MarkAt(q, y);
    NoMarkAfter(p, x, |q|);
    NoMarkAfter(q, y, |p|);
    assert k == l && |p| == |q|;
  }

  lemma MarkAt(p: string, x: string)
    ensures var k := p + "?" + x; k[|p|] == '?' && k[..|p|] == p && k[|p| + 1..] == x
  {
    assert (p + "?")[|p|] == '?';
  }

  lemma NoMarkAfter(p: string, x: string, i: nat)
    requires '?' !in x
    ensures |p| < i < |p| + 1 + |x| ==> (p + "?" + x)[i] != '?'
  {
    if |p| < i < |p| + 1 + |x| {
      assert (p + "?" + x)[i] == x[i - |p| - 1];
    }
  }

  lemma SameKey(paths: set<Path>, encode: Combo -> string, p: Path, a: Combo, q: Path, b: Combo)
    requires Injective(encode) && NoMark(encode) && !PathsCollide(paths, encode)
    requires p in paths && q in paths && CacheKey(p, a, encode) == CacheKey(q, b, encode)
    ensures p == q && a == b
  {
    assert a != map[] ==> CacheKey(p, a, encode) == WithParams(p, a, encode);
    assert b != map[] ==> CacheKey(q, b, encode) == WithParams(q, b, encode);
    if a != map[] && b != map[] {
      LastMarkSplits(p, encode(a), q, encode(b));
    }
  }

  /** The keys of a set of paths are unambiguous exactly if no path is another one followed by a
      question mark and encoded parameters. */
  lemma KeysUnambiguousExactly(paths: set<Path>, encode: Combo -> string)
    requires Injective(encode) && NoMark(encode)
    ensures KeysUnambiguous(paths, encode) <==> !PathsCollide(paths, encode)
  {
    if PathsCollide(paths, encode) {
      var p, a :| p in paths && a != map[] && WithParams(p, a, encode) in paths;
      var q := WithParams(p, a, encode);
      assert CacheKey(q, map[], encode) == CacheKey(p, a, encode) && |q| > |p|;
    } else {
      forall p, q, a, b | p in paths && q in paths && CacheKey(p, a, encode) == CacheKey(q, b, encode)
        ensures p == q && a == b
      {
        SameKey(paths, encode, p, a, q, b);
      }
    }
  }

  /** A fragment with one parameter, and a file named like it with that parameter set. */
  function CollidingFiles(encode: Combo -> string, p: Path, k: string, v: string): Files {
    var q := WithParams(p, map[k := v], encode);
    map[p := FragmentFile("p", [ParamNode(ParamDef(k, "", true)), JobNode(PlainJob("x", []))]),
        q := PipelineFile("q", [JobNode(PlainJob("y", []))])]
  }

  /** The two share a key although they resolve to different jobs. */
  lemma CollisionGivesWrongFile(encode: Combo -> string, p: Path, k: string, v: string)
    ensures var a: Combo := map[k := v];
            var q, files := WithParams(p, a, encode), CollidingFiles(encode, p, k, v);
            && p != q && CacheKey(q, map[], encode) == CacheKey(p, a, encode)
            && Uncached(files, {}, q, map[]).Some? && Uncached(files, {}, p, a).Some?
            && Uncached(files, {}, q, map[]) != Uncached(files, {}, p, a)
  {
    var a: Combo := map[k := v];
    var q, files := WithParams(p, a, encode), CollidingFiles(encode, p, k, v);
    assert |q| > |p|;
    FragmentResolves(files, p, "p", ParamDef(k, "", true), PlainJob("x", []), a);
    PipelineResolves(files, q, "q", PlainJob("y", []));
  }

  lemma FragmentResolves(files: Files, p: Path, name: string, d: ParamDef, j: Job, a: Combo)
    requires p in files && files[p] == FragmentFile(name, [ParamNode(d), JobNode(j)]) && a.Keys == {d.name}
    ensures Uncached(files, {}, p, a).Some? && Uncached(files, {}, p, a).value.name == name
  {
    OneParamOneJob(files, {} + {p}, d, j);
    NoConflictAlone(Item(j, ConflictError));
    OneParamAccepted(d, a);
  }

  lemma PipelineResolves(files: Files, q: Path, name: string, j: Job)
    requires q in files && files[q] == PipelineFile(name, [JobNode(j)])
    ensures Uncached(files, {}, q, map[]).Some? && Uncached(files, {}, q, map[]).value.name == name
  {
    OneJob(files, {} + {q}, j);
    NoConflictAlone(Item(j, ConflictError));
  }

  lemma OneParamAccepted(d: ParamDef, a: Combo)
    requires a.Keys == {d.name}
    ensures DistinctParams([d]) && ParamsAccepted([d], a)
  {
    assert [d][..0] == [] && DistinctParams([]) && !DeclaresParam([], d.name);
    assert d in [d];
  }

  lemma OneJob(files: Files, anc: set<Path>, j: Job)
    ensures UncachedItems(files, anc, [JobNode(j)]) == Some([Item(j, ConflictError)])
  {
    assert [JobNode(j)][..0] == [];
    assert [] + [Item(j, ConflictError)] == [Item(j, ConflictError)];
  }

  lemma OneParamOneJob(files: Files, anc: set<Path>, d: ParamDef, j: Job)
    ensures UncachedItems(files, anc, [ParamNode(d), JobNode(j)]) == Some([Item(j, ConflictError)])
    ensures ParamDefs([ParamNode(d), JobNode(j)]) == [d]
  {
    var nodes := [ParamNode(d), JobNode(j)];
    assert nodes[..1] == [ParamNode(d)] && nodes[..1][..0] == [];
    assert ParamDefs(nodes[..1]) == [d];
    assert UncachedItems(files, anc, nodes[..1]) == Some([]);
    assert [] + [Item(j, ConflictError)] == [Item(j, ConflictError)];
  }

  lemma NoConflictAlone(x: Item)
    ensures !Conflicts([x])
  {
    ItemGrows([], x);
    assert [] + [x] == [x] && !NameTaken([], x.job.name);
  }
}
