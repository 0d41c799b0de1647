/** What a resolution visits: which aliases it registers, which includes it resolves for later
    hits, and whether it meets the depth limit (pkg/parser/include.go).

    A cache hit does not descend, so none of this can be read off the include graph alone; it is
    computed here from the files, without any jobs, stack or table. */
module IncludeVisits {
  import opened DependencyGraph
  import opened Wrappers
  import opened Substitute
  import opened Include

  datatype Source = Source(path: Path, params: Combo)

  /** An alias and the include it was registered for. */
  datatype Registration = Registration(alias: string, source: Source)

  /** The registrations in order, everything resolved so far, and whether the limit was met. */
  datatype Visit = Visit(log: seq<Registration>, seen: set<Source>, deep: bool)

  function SourceOf(inc: Directive): Source {
    Source(inc.target, inc.params)
  }

  function NameOf(files: Files, path: Path): string {
    if path in files && !files[path].BrokenFile? then files[path].name else ""
  }

  /** The alias an include goes by: its own, or the name of the included file. */
  function AliasOf(files: Files, inc: Directive): string {
    if inc.alias == "" then NameOf(files, inc.target) else inc.alias
  }

  function RegistrationOf(files: Files, inc: Directive): Registration {
    Registration(AliasOf(files, inc), SourceOf(inc))
  }

  /** Resolving `s` below the files `anc`: an include on the stack or missing ends it, one met at
      the depth limit does too, and one resolved before is not looked into again. */
  ghost function Visits(files: Files, anc: set<Path>, seen: set<Source>, s: Source): Visit
    decreases |files.Keys - anc|, 1, 0
  {
    if s.path !in files || s.path in anc then Visit([], seen, false)
    else if |anc| >= MAX_INCLUDE_DEPTH then Visit([], seen, true)
    else if s in seen then Visit([], seen, false)
    else
      assert files.Keys - (anc + {s.path}) == files.Keys - anc - {s.path};
      var v := VisitsAll(files, anc + {s.path}, seen, NodesOf(files[s.path]));
      Visit(v.log, v.seen + {s}, v.deep)
  }

  ghost function VisitsAll(files: Files, anc: set<Path>, seen: set<Source>, nodes: seq<Node>): Visit
    decreases |files.Keys - anc|, 2, |nodes|
  {
    if nodes == [] then Visit([], seen, false)
    else
      var front, last := VisitsAll(files, anc, seen, nodes[..|nodes| - 1]), nodes[|nodes| - 1];
      if !last.IncludeNode? then front
      else
        var v := Visits(files, anc, front.seen, SourceOf(last.inc));
        Visit(front.log + v.log + [RegistrationOf(files, last.inc)], v.seen, front.deep || v.deep)
  }

  /** Resolving an include and registering its alias. */
  ghost function IncludeVisit(files: Files, anc: set<Path>, seen: set<Source>, inc: Directive): Visit {
    var v := Visits(files, anc, seen, SourceOf(inc));
    Visit(v.log + [RegistrationOf(files, inc)], v.seen, v.deep)
  }

  /** Parsing a file that is already on top of the stack. */
  ghost function FileVisit(files: Files, anc: set<Path>, seen: set<Source>, s: Source): Visit
    requires s.path in files
  {
    var v := VisitsAll(files, anc, seen, NodesOf(files[s.path]));
    Visit(v.log, v.seen + {s}, v.deep)
  }

  ghost function EntryVisit(files: Files, nodes: seq<Node>): Visit {
    VisitsAll(files, {}, {}, nodes)
  }

  ghost predicate Repeated(log: seq<Registration>, a: string) {
    exists i, k :: 0 <= i < k < |log| && log[i].alias == a && log[k].alias == a
  }

  ghost predicate DistinctAliases(log: seq<Registration>) {
    forall i, k | 0 <= i < k < |log| :: log[i].alias != log[k].alias
  }

  lemma RepeatedLonger(log: seq<Registration>, longer: seq<Registration>, a: string)
    requires Repeated(log, a) && log <= longer
    ensures Repeated(longer, a)
  {
  }

  lemma VisitsStep(files: Files, anc: set<Path>, seen: set<Source>, nodes: seq<Node>, i: nat)
    requires i < |nodes|
    ensures var before, after := VisitsAll(files, anc, seen, nodes[..i]), VisitsAll(files, anc, seen, nodes[..i + 1]);
            if nodes[i].IncludeNode? then
              var v := IncludeVisit(files, anc, before.seen, nodes[i].inc);
              after == Visit(before.log + v.log, v.seen, before.deep || v.deep)
            else after == before
  {
    assert nodes[..i + 1][..i] == nodes[..i];
  }

  /** The nodes before `i` are visited first. */
  lemma {:induction false} VisitsPrefix(files: Files, anc: set<Path>, seen: set<Source>, nodes: seq<Node>, i: nat)
    requires i <= |nodes|
    ensures var part, all := VisitsAll(files, anc, seen, nodes[..i]), VisitsAll(files, anc, seen, nodes);
            part.log <= all.log && (part.deep ==> all.deep)
    decreases |nodes|
  {
    if i == |nodes| {
      assert nodes[..i] == nodes;
    } else {
      var n := |nodes| - 1;
      VisitsPrefix(files, anc, seen, nodes[..n], i);
      assert nodes[..n][..i] == nodes[..i] && nodes[..n + 1] == nodes;
      VisitsStep(files, anc, seen, nodes, n);
    }
  }

  // ----- Everything below what was resolved is registered -----

  /** Every include in the nodes has been registered and resolved. */
  ghost predicate NodesRegistered(files: Files, nodes: seq<Node>, log: seq<Registration>, seen: set<Source>) {
    forall i | 0 <= i < |nodes| && nodes[i].IncludeNode? ::
      RegistrationOf(files, nodes[i].inc) in log && SourceOf(nodes[i].inc) in seen
  }

  ghost predicate AllRegistered(files: Files, log: seq<Registration>, seen: set<Source>) {
    forall s | s in seen :: s.path in files && NodesRegistered(files, NodesOf(files[s.path]), log, seen)
  }

  lemma RegisteredStays(
    files: Files, log: seq<Registration>, seen: set<Source>, longer: seq<Registration>, more: set<Source>)
    requires AllRegistered(files, log, seen) && log <= longer
    ensures forall s | s in seen && seen <= more :: NodesRegistered(files, NodesOf(files[s.path]), longer, more)
  {
    assert forall r | r in log :: r in longer;
  }

  /** A file that resolves without meeting the limit leaves all includes below it registered. */
  lemma {:induction false} VisitsRegister(
    files: Files, anc: set<Path>, seen: set<Source>, s: Source, log: seq<Registration>)
    requires Uncached(files, anc, s.path, s.params).Some? && !Visits(files, anc, seen, s).deep
    requires AllRegistered(files, log, seen)
    ensures var v := Visits(files, anc, seen, s);
            s in v.seen && seen <= v.seen && AllRegistered(files, log + v.log, v.seen)
    decreases |files.Keys - anc|, 1, 0
  {
    var v := Visits(files, anc, seen, s);
    if s in seen {
      assert log + v.log == log;
    } else {
      assert files.Keys - (anc + {s.path}) == files.Keys - anc - {s.path};
      var nodes := NodesOf(files[s.path]);
      VisitsAllRegister(files, anc + {s.path}, seen, nodes, log);
      var w := VisitsAll(files, anc + {s.path}, seen, nodes);
      RegisteredStays(files, log + w.log, w.seen, log + w.log, w.seen + {s});
    }
  }

  /** Visiting `nodes` after `log` and `seen` as `v` leaves everything registered. */
  ghost predicate Registers(files: Files, nodes: seq<Node>, log: seq<Registration>, seen: set<Source>, v: Visit) {
    && seen <= v.seen && AllRegistered(files, log + v.log, v.seen)
    && NodesRegistered(files, nodes, log + v.log, v.seen)
  }

  lemma {:induction false} VisitsAllRegister(
    files: Files, anc: set<Path>, seen: set<Source>, nodes: seq<Node>, log: seq<Registration>)
    requires UncachedItems(files, anc, nodes).Some? && !VisitsAll(files, anc, seen, nodes).deep
    requires AllRegistered(files, log, seen)
    ensures Registers(files, nodes, log, seen, VisitsAll(files, anc, seen, nodes))
    decreases |files.Keys - anc|, 2, |nodes|
  {
    if nodes == [] {
      assert log + [] == log;
    } else {
      var n := |nodes| - 1;
      var front, last := nodes[..n], nodes[n];
      var before := VisitsAll(files, anc, seen, front);
      VisitsAllRegister(files, anc, seen, front, log);
      assert nodes == front + [last];
      if last.IncludeNode? {
        VisitsRegister(files, anc, before.seen, SourceOf(last.inc), log + before.log);
        var v := Visits(files, anc, before.seen, SourceOf(last.inc));
        OneMoreRegistered(files, front, log, seen, before, v, last.inc);
      } else {
        OtherNodeRegistered(files, front, last, log, seen, before);
      }
    }
  }

  lemma OtherNodeRegistered(
    files: Files, front: seq<Node>, last: Node, log: seq<Registration>, seen: set<Source>, before: Visit)
    requires Registers(files, front, log, seen, before) && !last.IncludeNode?
    ensures Registers(files, front + [last], log, seen, before)
  {
  }

  lemma OneMoreRegistered(
    files: Files, front: seq<Node>, log: seq<Registration>, seen: set<Source>, before: Visit, v: Visit, inc: Directive)
    requires Registers(files, front, log, seen, before)
    requires before.seen <= v.seen && SourceOf(inc) in v.seen
    requires AllRegistered(files, log + before.log + v.log, v.seen)
    ensures Registers(files, front + [IncludeNode(inc)], log, seen,
                      Visit(before.log + v.log + [RegistrationOf(files, inc)], v.seen, before.deep || v.deep))
  {
    var r := RegistrationOf(files, inc);
    var longer := log + before.log + v.log + [r];
    assert longer == log + (before.log + v.log + [r]);
    assert log + before.log + v.log <= longer && r in longer;
    assert forall x | x in log + before.log :: x in longer;
    RegisteredStays(files, log + before.log + v.log, v.seen, longer, v.seen);
  }
}
