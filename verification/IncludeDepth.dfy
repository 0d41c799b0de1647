/** The depth limit and the cache (pkg/parser/include.go): the limit counts the files on the stack,
    and a hit does not put any there. Hence a chain of includes may be longer than the limit, if
    its tail has been resolved before. */
module IncludeDepth {
  import opened DependencyGraph
  import opened Wrappers
  import Pipeline
  import opened Merge
  import opened Include
  import opened IncludeVisits
  import opened Entry

  /** The path of the `k`-th file of the chain. */
  function PathAt(k: nat): Path {
    seq(k, _ => 'a')
  }

  function SourceAt(k: nat): Source {
    Source(PathAt(k), map[])
  }

  function IncludeAt(k: nat, alias: string, c: Conflict): Node {
    IncludeNode(Directive(PathAt(k), alias, c, map[]))
  }

  function LastJob(): Pipeline.Job {
    PlainJob("x", [])
  }

  function FileAt(k: nat, n: nat): File {
    PipelineFile(PathAt(k), if k < n then [IncludeAt(k + 1, "", ConflictError)] else [JobNode(LastJob())])
  }

  ghost predicate LinkAt(files: Files, k: nat, n: nat) {
    PathAt(k) in files && files[PathAt(k)] == FileAt(k, n)
  }

  /** Files 1 to `n`, each including the next; the last has the only job. */
  ghost predicate IsChain(files: Files, n: nat) {
    forall k: nat {:trigger LinkAt(files, k, n)} | 1 <= k <= n :: LinkAt(files, k, n)
  }

  ghost function ChainFiles(n: nat): (files: Files)
    ensures IsChain(files, n)
  {
    var paths := set k | 1 <= k <= n :: PathAt(k);
    map p | p in paths :: FileAt(|p|, n)
  }

  lemma PathsDiffer(i: nat, k: nat)
    requires i != k
    ensures PathAt(i) != PathAt(k)
  {
    assert |PathAt(i)| == i && |PathAt(k)| == k;
  }

  ghost predicate NotIn(anc: set<Path>, i: nat) {
    PathAt(i) !in anc
  }

  /** None of the files from `k` to `e` is in `anc`. */
  ghost predicate Clear(anc: set<Path>, k: nat, e: nat) {
    forall i: nat {:trigger NotIn(anc, i)} | k <= i <= e :: NotIn(anc, i)
  }

  ghost predicate NotSeen(seen: set<Source>, i: nat) {
    SourceAt(i) !in seen
  }

  ghost predicate Fresh(seen: set<Source>, k: nat, e: nat) {
    forall i: nat {:trigger NotSeen(seen, i)} | k <= i < e :: NotSeen(seen, i)
  }

  lemma ClearBelow(anc: set<Path>, k: nat, e: nat)
    requires Clear(anc, k, e)
    ensures Clear(anc + {PathAt(k)}, k + 1, e)
  {
    forall i: nat | k + 1 <= i <= e
      ensures NotIn(anc + {PathAt(k)}, i)
    {
      assert NotIn(anc, i);
      PathsDiffer(i, k);
    }
  }

  /** The aliases registered below file `k` down to file `e`, innermost first. */
  ghost function Registered(k: nat, e: nat): (log: seq<Registration>)
    requires k <= e
    ensures |log| == e - k
    ensures forall i | 0 <= i < e - k :: log[i] == Registration(PathAt(e - i), SourceAt(e - i))
  {
    seq(e - k, i requires 0 <= i < e - k => Registration(PathAt(e - i), SourceAt(e - i)))
  }

  ghost predicate SeenBetween(before: set<Source>, after: set<Source>, k: nat, e: nat) {
    && SourceAt(k) in after && before <= after
    && forall s | s in after && s !in before :: exists i :: k <= i <= e && s == SourceAt(i)
  }

  lemma OneInclude(files: Files, anc: set<Path>, seen: set<Source>, node: Node)
    requires node.IncludeNode?
    ensures VisitsAll(files, anc, seen, [node]) == IncludeVisit(files, anc, seen, node.inc)
  {
    assert [node][..0] == [];
    var v := Visits(files, anc, seen, SourceOf(node.inc));
    assert [] + v.log + [RegistrationOf(files, node.inc)] == v.log + [RegistrationOf(files, node.inc)];
  }

  /** Visiting file `k` when file `e` is the last one or known already: everything on the way is
      registered, and the limit is not met if the stack has room for the files before `e`. */
  lemma {:induction false} ChainVisit(files: Files, n: nat, anc: set<Path>, seen: set<Source>, k: nat, e: nat)
    requires IsChain(files, n) && 1 <= k <= e <= n && Clear(anc, k, e) && Fresh(seen, k, e)
    requires SourceAt(e) in seen || e == n
    requires |anc| + (e - k) < MAX_INCLUDE_DEPTH
    ensures var v := Visits(files, anc, seen, SourceAt(k));
            !v.deep && v.log == Registered(k, e) && SeenBetween(seen, v.seen, k, e)
    decreases e - k
  {
    assert NotIn(anc, k) && LinkAt(files, k, n);
    if k < e {
      assert NotSeen(seen, k);
      ClearBelow(anc, k, e);
      ChainVisit(files, n, anc + {PathAt(k)}, seen, k + 1, e);
      VisitGoesOn(files, n, anc, seen, k);
      OneMoreLink(seen, Visits(files, anc + {PathAt(k)}, seen, SourceAt(k + 1)).seen, k, e);
    } else if SourceAt(e) !in seen {
      LastVisit(files, n, anc, seen);
    }
  }

  /** A file on the way adds the registration of the next one, and itself. */
  lemma VisitGoesOn(files: Files, n: nat, anc: set<Path>, seen: set<Source>, k: nat)
    requires LinkAt(files, k, n) && LinkAt(files, k + 1, n) && k < n
    requires PathAt(k) !in anc && SourceAt(k) !in seen && |anc| < MAX_INCLUDE_DEPTH
    ensures var inner := Visits(files, anc + {PathAt(k)}, seen, SourceAt(k + 1));
            Visits(files, anc, seen, SourceAt(k))
            == Visit(inner.log + [Registration(PathAt(k + 1), SourceAt(k + 1))], inner.seen + {SourceAt(k)}, inner.deep)
  {
    OneInclude(files, anc + {PathAt(k)}, seen, IncludeAt(k + 1, "", ConflictError));
  }

  lemma OneMoreLink(before: set<Source>, inner: set<Source>, k: nat, e: nat)
    requires k < e && SeenBetween(before, inner, k + 1, e)
    ensures SeenBetween(before, inner + {SourceAt(k)}, k, e)
    ensures Registered(k, e) == Registered(k + 1, e) + [Registration(PathAt(k + 1), SourceAt(k + 1))]
  {
  }

  lemma LastVisit(files: Files, n: nat, anc: set<Path>, seen: set<Source>)
    requires LinkAt(files, n, n) && PathAt(n) !in anc && SourceAt(n) !in seen && |anc| < MAX_INCLUDE_DEPTH
    ensures Visits(files, anc, seen, SourceAt(n)) == Visit([], seen + {SourceAt(n)}, false)
  {
    var nodes := [JobNode(LastJob())];
    assert nodes[..0] == [];
    assert VisitsAll(files, anc + {PathAt(n)}, seen, nodes) == Visit([], seen, false);
  }

  /** From an empty cache a chain that does not fit on the stack meets the limit. */
  lemma {:induction false} TooLongVisit(files: Files, n: nat, anc: set<Path>, k: nat)
    requires IsChain(files, n) && 1 <= k <= n && Clear(anc, k, n) && |anc| + (n - k) >= MAX_INCLUDE_DEPTH
    ensures Visits(files, anc, {}, SourceAt(k)).deep
    decreases n - k
  {
    assert NotIn(anc, k) && LinkAt(files, k, n);
    if |anc| < MAX_INCLUDE_DEPTH {
      ClearBelow(anc, k, n);
      TooLongVisit(files, n, anc + {PathAt(k)}, k + 1);
      assert LinkAt(files, k + 1, n);
      VisitGoesOn(files, n, anc, {}, k);
    }
  }

  // ----- The jobs -----

  lemma {:induction false} ChainResolves(files: Files, n: nat, anc: set<Path>, k: nat)
    requires IsChain(files, n) && 1 <= k <= n && Clear(anc, k, n)
    ensures Uncached(files, anc, PathAt(k), map[]) == Some(Fragment(PathAt(k), [LastJob()]))
    decreases n - k
  {
    assert NotIn(anc, k) && LinkAt(files, k, n);
    if k < n {
      ClearBelow(anc, k, n);
      ChainResolves(files, n, anc + {PathAt(k)}, k + 1);
      OneIncludeItems(files, anc + {PathAt(k)}, IncludeAt(k + 1, "", ConflictError), LastJob());
    } else {
      OneJob(files, anc + {PathAt(k)}, LastJob());
    }
    FileGivesJob(files, anc, k, n);
  }

  lemma FileGivesJob(files: Files, anc: set<Path>, k: nat, n: nat)
    requires LinkAt(files, k, n) && PathAt(k) !in anc
    requires UncachedItems(files, anc + {PathAt(k)}, NodesOf(FileAt(k, n))) == Some([Item(LastJob(), ConflictError)])
    ensures Uncached(files, anc, PathAt(k), map[]) == Some(Fragment(PathAt(k), [LastJob()]))
  {
    NoConflictAlone(Item(LastJob(), ConflictError));
    AloneIsFirst(Item(LastJob(), ConflictError));
  }

  lemma AloneIsFirst(x: Item)
    ensures FirstOnes([x]) == [x.job]
  {
    ItemGrows([], x);
    assert [] + [x] == [x] && FirstOnes([]) == [] && !NameTaken([], x.job.name);
  }

  lemma OneIncludeItems(files: Files, anc: set<Path>, node: Node, j: Pipeline.Job)
    requires node.IncludeNode?
    requires var frag := Uncached(files, anc, node.inc.target, node.inc.params); frag.Some? && frag.value.jobs == [j]
    ensures UncachedItems(files, anc, [node]) == Some([Item(j, node.inc.onConflict)])
  {
    assert [node][..0] == [];
    assert [] + Tagged([j], node.inc.onConflict) == [Item(j, node.inc.onConflict)];
  }

  // ----- A chain of any length -----

  /** How far a tail may reach back from the last file resolved before it. */
  const STRIDE: nat := MAX_INCLUDE_DEPTH - 1

  /** Aliases that are no file's name. */
  function OwnAlias(k: nat): string {
    seq(k, _ => 'b')
  }

  /** Includes of longer and longer tails of the chain, the last one from file `k`. */
  function Tails(n: nat, k: nat): seq<Node>
    decreases n - k
  {
    (if n <= k + STRIDE then [] else Tails(n, k + STRIDE)) + [IncludeAt(k, OwnAlias(k), ConflictSkip)]
  }

  /** Nodes before the last one are collected first. */
  lemma LastIncludeItems(files: Files, front: seq<Node>, items: seq<Item>, last: Node, j: Pipeline.Job)
    requires last.IncludeNode? && UncachedItems(files, {}, front) == Some(items)
    requires var frag := Uncached(files, {}, last.inc.target, last.inc.params); frag.Some? && frag.value.jobs == [j]
    ensures UncachedItems(files, {}, front + [last]) == Some(items + [Item(j, last.inc.onConflict)])
  {
    assert (front + [last])[..|front|] == front;
    assert Tagged([j], last.inc.onConflict) == [Item(j, last.inc.onConflict)];
  }

  ghost predicate AllSkip(items: seq<Item>) {
    forall x | x in items :: x.onConflict == ConflictSkip
  }

  lemma SkipsGrow(items: seq<Item>, x: Item)
    requires AllSkip(items) && x.onConflict == ConflictSkip
    ensures AllSkip(items + [x])
  {
  }

  lemma {:induction false} TailsItems(files: Files, n: nat, k: nat) returns (items: seq<Item>)
    requires IsChain(files, n) && 1 <= k <= n
    ensures UncachedItems(files, {}, Tails(n, k)) == Some(items) && AllSkip(items)
    decreases n - k
  {
    ChainResolves(files, n, {}, k);
    var last := IncludeAt(k, OwnAlias(k), ConflictSkip);
    var front: seq<Item> := [];
    if n <= k + STRIDE {
      LastIncludeItems(files, [], front, last, LastJob());
    } else {
      front := TailsItems(files, n, k + STRIDE);
      LastIncludeItems(files, Tails(n, k + STRIDE), front, last, LastJob());
    }
    SkipsGrow(front, Item(LastJob(), ConflictSkip));
    items := front + [Item(LastJob(), ConflictSkip)];
  }

  lemma {:induction false} TailsAreIncludes(n: nat, k: nat)
    ensures forall node | node in Tails(n, k) :: node.IncludeNode?
    decreases n - k
  {
    if n > k + STRIDE {
      TailsAreIncludes(n, k + STRIDE);
    }
  }

  lemma {:induction false} SkippedNeverConflicts(items: seq<Item>)
    requires AllSkip(items)
    ensures !Conflicts(items)
  {
    if items != [] {
      var n := |items| - 1;
      SkippedNeverConflicts(items[..n]);
      ItemGrows(items[..n], items[n]);
      assert items == items[..n] + [items[n]];
    }
  }

  /** An alias that comes up when the chain is resolved from file `k` on. */
  predicate AliasFrom(a: string, k: nat) {
    (a == PathAt(|a|) && |a| > k) || (a == OwnAlias(|a|) && |a| >= k)
  }

  ghost predicate AliasesFrom(log: seq<Registration>, k: nat) {
    forall i | 0 <= i < |log| :: AliasFrom(log[i].alias, k)
  }

  ghost predicate Apart(log: seq<Registration>, more: seq<Registration>) {
    forall i, k | 0 <= i < |log| && 0 <= k < |more| :: log[i].alias != more[k].alias
  }

  lemma DistinctJoin(log: seq<Registration>, more: seq<Registration>)
    requires DistinctAliases(log) && DistinctAliases(more) && Apart(log, more)
    ensures DistinctAliases(log + more)
  {
    var all := log + more;
    forall i, k | 0 <= i < k < |all|
      ensures all[i].alias != all[k].alias
    {
      if i < |log| <= k {
        assert log[i].alias != more[k - |log|].alias;
      }
    }
  }

  lemma NamesDiffer(i: nat, k: nat)
    requires i > 0
    ensures PathAt(i) != OwnAlias(k)
  {
    assert PathAt(i)[0] == 'a';
    if k > 0 {
      assert OwnAlias(k)[0] == 'b';
    }
  }

  /** What one more tail registers: the files it passes and its own alias. */
  lemma TailRegisters(k: nat, e: nat)
    requires 1 <= k <= e
    ensures var more := Registered(k, e) + [Registration(OwnAlias(k), SourceAt(k))];
            && DistinctAliases(more)
            && forall i | 0 <= i < |more| :: more[i].alias == if i < e - k then PathAt(e - i) else OwnAlias(k)
  {
    var more := Registered(k, e) + [Registration(OwnAlias(k), SourceAt(k))];
    forall i, l | 0 <= i < l < |more|
      ensures more[i].alias != more[l].alias
    {
      if l < e - k {
        PathsDiffer(e - i, e - l);
      } else {
        NamesDiffer(e - i, k);
      }
    }
  }

  lemma TailsApart(log: seq<Registration>, k: nat, e: nat)
    requires 1 <= k <= e && AliasesFrom(log, e) && k < e
    ensures Apart(log, Registered(k, e) + [Registration(OwnAlias(k), SourceAt(k))])
  {
    TailRegisters(k, e);
    var more := Registered(k, e) + [Registration(OwnAlias(k), SourceAt(k))];
    forall i, l | 0 <= i < |log| && 0 <= l < |more|
      ensures log[i].alias != more[l].alias
    {
      var a := log[i].alias;
      assert AliasFrom(a, e);
      assert |more[l].alias| <= e;
      if a == OwnAlias(|a|) && l < e - k {
        NamesDiffer(e - l, |a|);
      }
    }
  }

  lemma TailsFrom(log: seq<Registration>, k: nat, e: nat)
    requires 1 <= k <= e && AliasesFrom(log, e)
    ensures AliasesFrom(log + (Registered(k, e) + [Registration(OwnAlias(k), SourceAt(k))]), k)
  {
    TailRegisters(k, e);
    var more := Registered(k, e) + [Registration(OwnAlias(k), SourceAt(k))];
    forall i | 0 <= i < |more|
      ensures AliasFrom(more[i].alias, k)
    {
    }
    forall i | 0 <= i < |log|
      ensures AliasFrom(log[i].alias, k)
    {
      assert AliasFrom(log[i].alias, e);
    }
  }

  lemma HeadIsFresh(seen: set<Source>, n: nat, m: nat)
    requires m <= n && SeenBetween({}, seen, m, n)
    ensures Fresh(seen, 0, m)
  {
    forall i: nat | 0 <= i < m
      ensures NotSeen(seen, i)
    {
      forall l | m <= l <= n
        ensures SourceAt(i) != SourceAt(l)
      {
        PathsDiffer(i, l);
      }
    }
  }

  /** `v` has resolved the chain from file `k` on, with a new alias at every step. */
  ghost predicate TailsResolved(v: Visit, k: nat, n: nat) {
    && !v.deep && SeenBetween({}, v.seen, k, n)
    && DistinctAliases(v.log) && AliasesFrom(v.log, k)
  }

  lemma LastVisitAdds(files: Files, front: seq<Node>, k: nat)
    requires k > 0
    ensures var before := EntryVisit(files, front);
            var v := Visits(files, {}, before.seen, SourceAt(k));
            EntryVisit(files, front + [IncludeAt(k, OwnAlias(k), ConflictSkip)])
            == Visit(before.log + (v.log + [Registration(OwnAlias(k), SourceAt(k))]), v.seen, before.deep || v.deep)
  {
    var nodes := front + [IncludeAt(k, OwnAlias(k), ConflictSkip)];
    assert nodes[..|front|] == front;
    var before := EntryVisit(files, front);
    var v := Visits(files, {}, before.seen, SourceAt(k));
    var r := Registration(OwnAlias(k), SourceAt(k));
    assert |OwnAlias(k)| == k && RegistrationOf(files, nodes[|front|].inc) == r;
    assert before.log + v.log + [r] == before.log + (v.log + [r]);
  }

  lemma SeenMore(before: set<Source>, after: set<Source>, k: nat, e: nat, n: nat)
    requires k <= e <= n && SeenBetween({}, before, e, n) && SeenBetween(before, after, k, e)
    ensures SeenBetween({}, after, k, n)
  {
  }

  /** Each tail stops where the one before it began, so it always fits on the stack. */
  lemma {:induction false} TailsVisit(files: Files, n: nat, k: nat)
    requires IsChain(files, n) && 1 <= k <= n
    ensures TailsResolved(EntryVisit(files, Tails(n, k)), k, n)
    decreases n - k
  {
    if n <= k + STRIDE {
      LastVisitAdds(files, [], k);
      ChainVisit(files, n, {}, {}, k, n);
      TailRegisters(k, n);
      TailsFrom([], k, n);
      var more := Registered(k, n) + [Registration(OwnAlias(k), SourceAt(k))];
      assert [] + more == more && [] + [IncludeAt(k, OwnAlias(k), ConflictSkip)] == Tails(n, k);
    } else {
      var e := k + STRIDE;
      TailsVisit(files, n, e);
      var before := EntryVisit(files, Tails(n, e));
      HeadIsFresh(before.seen, n, e);
      assert Fresh(before.seen, k, e) by {
        assert forall i: nat {:trigger NotSeen(before.seen, i)} | k <= i < e :: NotSeen(before.seen, i);
      }
      LastVisitAdds(files, Tails(n, e), k);
      ChainVisit(files, n, {}, before.seen, k, e);
      SeenMore(before.seen, Visits(files, {}, before.seen, SourceAt(k)).seen, k, e, n);
      TailRegisters(k, e);
      TailsApart(before.log, k, e);
      TailsFrom(before.log, k, e);
      DistinctJoin(before.log, Registered(k, e) + [Registration(OwnAlias(k), SourceAt(k))]);
    }
  }

  ghost function WholePath(n: nat): (w: seq<Path>)
    ensures |w| == n && forall i | 0 <= i < n :: w[i] == PathAt(i + 1)
  {
    seq(n, i requires 0 <= i < n => PathAt(i + 1))
  }

  lemma ChainEdge(files: Files, n: nat, k: nat)
    requires IsChain(files, n) && 1 <= k < n
    ensures Edge(IncludeGraph(files), PathAt(k), PathAt(k + 1))
  {
    assert LinkAt(files, k, n);
    var nodes := [IncludeAt(k + 1, "", ConflictError)];
    assert NodesOf(files[PathAt(k)]) == nodes && nodes[0].IncludeNode?;
    TargetMembers(nodes, PathAt(k + 1));
  }

  lemma WholePathIsChain(files: Files, n: nat)
    requires IsChain(files, n) && n > 0
    ensures IsPath(IncludeGraph(files), WholePath(n)) && Distinct(WholePath(n))
  {
    var g, w := IncludeGraph(files), WholePath(n);
    forall i | 0 <= i < n - 1
      ensures Edge(g, w[i], w[i + 1])
    {
      ChainEdge(files, n, i + 1);
    }
    forall i, k | 0 <= i < k < n
      ensures w[i] != w[k]
    {
      PathsDiffer(i + 1, k + 1);
    }
  }

  /** The limit bounds the stack, not the longest chain of includes: a chain of any length is accepted
      when its tails are included back to front, although the chain alone, from its head, is refused
      if it has more files than the limit. */
  lemma LimitBoundsTheStackOnly(n: nat)
    requires n > 0
    ensures EntryOk(ChainFiles(n), Tails(n, 1))
    ensures IsPath(IncludeGraph(ChainFiles(n)), WholePath(n)) && Distinct(WholePath(n))
    ensures n > MAX_INCLUDE_DEPTH <==> !EntryOk(ChainFiles(n), [IncludeAt(1, OwnAlias(1), ConflictSkip)])
  {
    var files := ChainFiles(n);
    var items := TailsItems(files, n, 1);
    SkippedNeverConflicts(items);
    TailsAreIncludes(n, 1);
    assert EntryGives(files, Tails(n, 1), items);
    TailsVisit(files, n, 1);
    WholePathIsChain(files, n);
    if n > MAX_INCLUDE_DEPTH {
      TooLongVisit(files, n, {}, 1);
      OneInclude(files, {}, {}, IncludeAt(1, OwnAlias(1), ConflictSkip));
    } else {
      assert [] + [IncludeAt(1, OwnAlias(1), ConflictSkip)] == Tails(n, 1);
    }
  }
}
