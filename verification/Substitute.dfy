/** Placeholder substitution in job fields (pkg/pipeline/params.go, expand.go).

    Go hands the replacement pairs to strings.NewReplacer in map order, which is unspecified. */
module Substitute {
  import opened Wrappers
  import opened Pipeline
  import Strings

  datatype Pair = Pair(key: string, value: string)

  type Combo = map<string, string>

  predicate IsPrefixOf(a: string, b: string) {
    |a| <= |b| && b[..|a|] == a
  }

  /** The first pair, in argument order, that matches at the start of the text. */
  function FirstMatch(text: string, pairs: seq<Pair>): (r: Option<Pair>)
    ensures r.Some? ==> r.value in pairs && IsPrefixOf(r.value.key, text)
    ensures r.None? ==> forall p | p in pairs :: !IsPrefixOf(p.key, text)
  {
    if pairs == [] then None
    else if IsPrefixOf(pairs[0].key, text) then Some(pairs[0])
    else FirstMatch(text, pairs[1..])
  }

  /** A single left-to-right pass: what is inserted is not looked at again. */
  function Replace(text: string, pairs: seq<Pair>): string {
    if text == "" then "" else
      var m := FirstMatch(text, pairs);
      if m.Some? && m.value.key != "" then m.value.value + Replace(text[|m.value.key|..], pairs)
      else [text[0]] + Replace(text[1..], pairs)
  }

  function Placeholder(prefix: string, key: string): (p: string)
    ensures p != ""
  {
    "${" + prefix + key + "}"
  }

  /** The pairs of a combination, in one possible order of its keys. */
  ghost predicate IsOrdering(pairs: seq<Pair>, combo: Combo, prefix: string) {
    && (forall p | p in pairs :: exists k :: k in combo && p == Pair(Placeholder(prefix, k), combo[k]))
    && (forall k | k in combo :: Pair(Placeholder(prefix, k), combo[k]) in pairs)
  }

  /** No placeholder starts another one. */
  ghost predicate PrefixFree(keys: set<string>, prefix: string) {
    forall k, l | k in keys && l in keys && IsPrefixOf(Placeholder(prefix, k), Placeholder(prefix, l)) :: k == l
  }

  lemma PlaceholderInjective(prefix: string, k: string, l: string)
    requires Placeholder(prefix, k) == Placeholder(prefix, l)
    ensures k == l
  {
    var n := 2 + |prefix|;
    assert Placeholder(prefix, k)[n..|Placeholder(prefix, k)| - 1] == k;
    assert Placeholder(prefix, l)[n..|Placeholder(prefix, l)| - 1] == l;
  }

  lemma PrefixMeans(prefix: string, k: string, l: string)
    ensures IsPrefixOf(Placeholder(prefix, k), Placeholder(prefix, l)) <==> k == l || IsPrefixOf(k + "}", l)
  {
    var p, q, n := Placeholder(prefix, k), Placeholder(prefix, l), 2 + |prefix|;
    assert p == "${" + prefix + (k + "}") && q == "${" + prefix + (l + "}");
    assert p[n..] == k + "}" && q[n..] == l + "}";
    if IsPrefixOf(p, q) {
      assert q[n..|p|] == k + "}";
      if |k| < |l| {
        assert l[..|k| + 1] == q[n..|p|];
      } else {
        assert p == q;
        PlaceholderInjective(prefix, k, l);
      }
    }
    if IsPrefixOf(k + "}", l) {
      assert q == "${" + prefix + (k + "}") + (l[|k| + 1..] + "}");
      assert q[..|p|] == p;
    }
  }

  lemma BraceInside(k: string, l: string)
    requires IsPrefixOf(k + "}", l)
    ensures '}' in l
  {
    assert l[|k|] == l[..|k| + 1][|k|];
  }

  /** Keys without a closing brace have prefix-free placeholders. */
  lemma BraceFreeKeysArePrefixFree(keys: set<string>, prefix: string)
    requires forall k | k in keys :: '}' !in k
    ensures PrefixFree(keys, prefix)
  {
    forall k, l | k in keys && l in keys && IsPrefixOf(Placeholder(prefix, k), Placeholder(prefix, l))
      ensures k == l
    {
      PrefixMeans(prefix, k, l);
      if k != l {
        BraceInside(k, l);
      }
    }
  }

  lemma TwoPrefixes(a: string, b: string, text: string)
    requires IsPrefixOf(a, text) && IsPrefixOf(b, text) && |a| <= |b|
    ensures IsPrefixOf(a, b)
  {
    assert b[..|a|] == text[..|b|][..|a|] == text[..|a|];
  }

  /** With prefix-free placeholders at most one pair matches anywhere. */
  lemma MatchIsUnique(text: string, combo: Combo, prefix: string, p: Pair, q: Pair, ps: seq<Pair>, qs: seq<Pair>)
    requires PrefixFree(combo.Keys, prefix) && IsOrdering(ps, combo, prefix) && IsOrdering(qs, combo, prefix)
    requires p in ps && q in qs && IsPrefixOf(p.key, text) && IsPrefixOf(q.key, text)
    ensures p == q
  {
    var k :| k in combo && p == Pair(Placeholder(prefix, k), combo[k]);
    var l :| l in combo && q == Pair(Placeholder(prefix, l), combo[l]);
    if |p.key| <= |q.key| {
      TwoPrefixes(p.key, q.key, text);
    } else {
      TwoPrefixes(q.key, p.key, text);
    }
  }

  lemma MatchIgnoresOrder(text: string, combo: Combo, prefix: string, ps: seq<Pair>, qs: seq<Pair>)
    requires PrefixFree(combo.Keys, prefix) && IsOrdering(ps, combo, prefix) && IsOrdering(qs, combo, prefix)
    ensures FirstMatch(text, ps) == FirstMatch(text, qs)
  {
    var a, b := FirstMatch(text, ps), FirstMatch(text, qs);
    assert forall p :: p in ps <==> p in qs;
    if a.Some? && b.Some? {
      MatchIsUnique(text, combo, prefix, a.value, b.value, ps, qs);
    }
  }

  lemma {:induction false} ReplaceIgnoresOrder(text: string, combo: Combo, prefix: string, ps: seq<Pair>, qs: seq<Pair>)
    requires PrefixFree(combo.Keys, prefix) && IsOrdering(ps, combo, prefix) && IsOrdering(qs, combo, prefix)
    ensures Replace(text, ps) == Replace(text, qs)
    decreases |text|
  {
    if text != "" {
      MatchIgnoresOrder(text, combo, prefix, ps, qs);
      var m := FirstMatch(text, ps);
      if m.Some? && m.value.key != "" {
        ReplaceIgnoresOrder(text[|m.value.key|..], combo, prefix, ps, qs);
      } else {
        ReplaceIgnoresOrder(text[1..], combo, prefix, ps, qs);
      }
    }
  }

  /** Whatever the values, the texts and the order of the pairs, the result is the same. */
  ghost predicate OrderNeverMatters(keys: set<string>, prefix: string) {
    forall combo: Combo, ps, qs, text |
      combo.Keys == keys && IsOrdering(ps, combo, prefix) && IsOrdering(qs, combo, prefix) ::
      Replace(text, ps) == Replace(text, qs)
  }

  function PairsFor(keys: seq<string>, combo: Combo, prefix: string): (pairs: seq<Pair>)
    requires forall k | k in keys :: k in combo
    ensures |pairs| == |keys|
    ensures forall i | 0 <= i < |keys| :: pairs[i] == Pair(Placeholder(prefix, keys[i]), combo[keys[i]])
  {
    seq(|keys|, i requires 0 <= i < |keys| => assert keys[i] in keys; Pair(Placeholder(prefix, keys[i]), combo[keys[i]]))
  }

  lemma PairsAreOrdering(keys: seq<string>, combo: Combo, prefix: string)
    requires forall k :: k in keys <==> k in combo
    ensures IsOrdering(PairsFor(keys, combo, prefix), combo, prefix)
  {
    var pairs := PairsFor(keys, combo, prefix);
    forall p | p in pairs
      ensures exists k :: k in combo && p == Pair(Placeholder(prefix, k), combo[k])
    {
      var i :| 0 <= i < |pairs| && pairs[i] == p;
      assert keys[i] in combo;
    }
    forall k | k in combo
      ensures Pair(Placeholder(prefix, k), combo[k]) in pairs
    {
      var i :| 0 <= i < |keys| && keys[i] == k;
      assert pairs[i] == Pair(Placeholder(prefix, k), combo[k]);
    }
  }

  /** With every value empty but one, whose placeholder is longer than the text, replacing can
      only shorten the text. */
  lemma {:induction false} ReplaceShortens(text: string, pairs: seq<Pair>, long: string)
    requires forall p | p in pairs :: p.value == "" || p.key == long
    requires |text| < |long|
    ensures |Replace(text, pairs)| <= |text|
    decreases |text|
  {
    if text != "" {
      var m := FirstMatch(text, pairs);
      if m.Some? && m.value.key != "" {
        ReplaceShortens(text[|m.value.key|..], pairs, long);
      } else {
        ReplaceShortens(text[1..], pairs, long);
      }
    }
  }

  lemma FirstPairWins(text: string, pairs: seq<Pair>)
    requires pairs != [] && pairs[0].key != "" && IsPrefixOf(pairs[0].key, text)
    ensures Replace(text, pairs) == pairs[0].value + Replace(text[|pairs[0].key|..], pairs)
  {
  }

  lemma OrdersDiffer(p: string, q: string, ps: seq<Pair>, qs: seq<Pair>)
    requires p != "" && q != "" && IsPrefixOf(p, q)
    requires ps != [] && ps[0] == Pair(p, "") && qs != [] && qs[0] == Pair(q, q + "!")
    requires forall x | x in ps :: x.value == "" || x.key == q
    ensures |Replace(q, ps)| < |q| < |Replace(q, qs)|
  {
    FirstPairWins(q, ps);
    FirstPairWins(q, qs);
    ReplaceShortens(q[|p|..], ps, q);
  }

  /** All values empty but the one of `l`, which is longer than its placeholder. */
  ghost function TellingValues(keys: set<string>, prefix: string, l: string): Combo {
    map x | x in keys :: if x == l then Placeholder(prefix, l) + "!" else ""
  }

  ghost function TellingPairs(keys: set<string>, prefix: string, l: string, first: string): (ps: seq<Pair>)
    requires l in keys && first in keys
    ensures IsOrdering(ps, TellingValues(keys, prefix, l), prefix)
    ensures ps != [] && ps[0] == Pair(Placeholder(prefix, first), TellingValues(keys, prefix, l)[first])
    ensures forall x | x in ps :: x.value == "" || x.key == Placeholder(prefix, l)
  {
    var combo := TellingValues(keys, prefix, l);
    var order := [first] + Strings.Sorted(keys);
    PairsAreOrdering(order, combo, prefix);
    PairsFor(order, combo, prefix)
  }

  /** If the placeholder of `k` starts that of `l`, values exist for which the order shows. */
  lemma OrderShows(keys: set<string>, prefix: string, k: string, l: string)
    requires k in keys && l in keys && k != l
    requires IsPrefixOf(Placeholder(prefix, k), Placeholder(prefix, l))
    ensures !OrderNeverMatters(keys, prefix)
  {
    var combo := TellingValues(keys, prefix, l);
    var ps, qs := TellingPairs(keys, prefix, l, k), TellingPairs(keys, prefix, l, l);
    var p, q := Placeholder(prefix, k), Placeholder(prefix, l);
    OrdersDiffer(p, q, ps, qs);
    assert combo.Keys == keys && Replace(q, ps) != Replace(q, qs);
  }

  /** Substitution does not depend on Go's map order exactly when no placeholder starts another. */
  lemma OrderMattersOnlyWithPrefixes(keys: set<string>, prefix: string)
    ensures OrderNeverMatters(keys, prefix) <==> PrefixFree(keys, prefix)
  {
    if PrefixFree(keys, prefix) {
      forall combo: Combo, ps, qs, text |
        combo.Keys == keys && IsOrdering(ps, combo, prefix) && IsOrdering(qs, combo, prefix)
        ensures Replace(text, ps) == Replace(text, qs)
      {
        ReplaceIgnoresOrder(text, combo, prefix, ps, qs);
      }
    } else {
      var k, l :| k in keys && l in keys && IsPrefixOf(Placeholder(prefix, k), Placeholder(prefix, l)) && k != l;
      OrderShows(keys, prefix, k, l);
    }
  }

  /** A placeholder becomes its value, whatever the value contains, and the rest of the text is
      treated as if it stood alone. */
  lemma PlaceholderBecomesValue(combo: Combo, prefix: string, pairs: seq<Pair>, k: string, rest: string)
    requires PrefixFree(combo.Keys, prefix) && IsOrdering(pairs, combo, prefix) && k in combo
    ensures Replace(Placeholder(prefix, k) + rest, pairs) == combo[k] + Replace(rest, pairs)
  {
    var text := Placeholder(prefix, k) + rest;
    var mine := Pair(Placeholder(prefix, k), combo[k]);
    assert text[..|mine.key|] == mine.key && text[|mine.key|..] == rest;
    var m := FirstMatch(text, pairs);
    MatchIsUnique(text, combo, prefix, m.value, mine, pairs, pairs);
  }

  /** Text in which no key starts stays as it is, whatever follows. */
  lemma {:induction false} LiteralStays(a: string, rest: string, pairs: seq<Pair>)
    requires forall i, p | 0 <= i < |a| && p in pairs :: !IsPrefixOf(p.key, (a + rest)[i..])
    ensures Replace(a + rest, pairs) == a + Replace(rest, pairs)
  {
    if a == "" {
      assert a + rest == rest;
    } else {
      var text, tail := a + rest, a[1..];
      assert text[0..] == text && text[1..] == tail + rest;
      forall i, p | 0 <= i < |tail| && p in pairs
        ensures !IsPrefixOf(p.key, (tail + rest)[i..])
      {
        assert (tail + rest)[i..] == text[i + 1..];
      }
      LiteralStays(tail, rest, pairs);
      assert [a[0]] + (tail + Replace(rest, pairs)) == a + Replace(rest, pairs);
    }
  }

  lemma StartsAlike(key: string, text: string)
    requires key != "" && IsPrefixOf(key, text)
    ensures text != "" && text[0] == key[0]
  {
    assert text[..|key|][0] == text[0];
  }

  /** So does text without a dollar sign, as every placeholder starts with one. */
  lemma PlainTextStays(a: string, rest: string, pairs: seq<Pair>)
    requires '$' !in a && forall p | p in pairs :: p.key != "" && p.key[0] == '$'
    ensures Replace(a + rest, pairs) == a + Replace(rest, pairs)
  {
    forall i, p | 0 <= i < |a| && p in pairs
      ensures !IsPrefixOf(p.key, (a + rest)[i..])
    {
      assert (a + rest)[i..][0] == a[i];
      if IsPrefixOf(p.key, (a + rest)[i..]) {
        StartsAlike(p.key, (a + rest)[i..]);
      }
    }
    LiteralStays(a, rest, pairs);
  }

  lemma OrderingStartsWithDollar(pairs: seq<Pair>, combo: Combo, prefix: string)
    requires IsOrdering(pairs, combo, prefix)
    ensures forall p | p in pairs :: p.key != "" && p.key[0] == '$'
  {
  }

  /** A text in pieces: plain text, and places for the values of keys. */
  datatype Piece = Plain(text: string) | Hole(key: string)

  /** The text as it is written. */
  function Written(pieces: seq<Piece>, prefix: string): string {
    if pieces == [] then "" else
      (match pieces[0]
       case Plain(text) => text
       case Hole(key) => Placeholder(prefix, key))
      + Written(pieces[1..], prefix)
  }

  /** The text as it is meant. */
  function Filled(pieces: seq<Piece>, combo: Combo): string {
    if pieces == [] then "" else
      (match pieces[0]
       case Plain(text) => text
       case Hole(key) => if key in combo then combo[key] else "")
      + Filled(pieces[1..], combo)
  }

  ghost predicate IsTemplate(pieces: seq<Piece>, combo: Combo) {
    forall x | x in pieces :: if x.Plain? then '$' !in x.text else x.key in combo
  }

  lemma {:induction false} PiecesAreFilled(pieces: seq<Piece>, combo: Combo, prefix: string, pairs: seq<Pair>)
    requires PrefixFree(combo.Keys, prefix) && IsOrdering(pairs, combo, prefix) && IsTemplate(pieces, combo)
    ensures Replace(Written(pieces, prefix), pairs) == Filled(pieces, combo)
  {
    if pieces != [] {
      var rest := Written(pieces[1..], prefix);
      PiecesAreFilled(pieces[1..], combo, prefix, pairs);
      assert pieces[0] in pieces;
      match pieces[0]
      case Plain(text) =>
        OrderingStartsWithDollar(pairs, combo, prefix);
        PlainTextStays(text, rest, pairs);
      case Hole(key) =>
        PlaceholderBecomesValue(combo, prefix, pairs, key, rest);
    }
  }

  lemma {:induction false} NoPairsNoChange(text: string)
    ensures Replace(text, []) == text
    decreases |text|
  {
    if text != "" {
      NoPairsNoChange(text[1..]);
    }
  }

  lemma {:induction false} PlainPieces(pieces: seq<Piece>, prefix: string)
    requires forall x | x in pieces :: x.Plain?
    ensures Written(pieces, prefix) == Filled(pieces, map[])
  {
    if pieces != [] {
      assert pieces[0] in pieces;
      PlainPieces(pieces[1..], prefix);
    }
  }

  /** Substitution as it is meant: the plain text stays, every placeholder of a key becomes the
      key's value, in the order they are written. */
  lemma TemplateIsFilled(pieces: seq<Piece>, combo: Combo, prefix: string)
    requires PrefixFree(combo.Keys, prefix) && IsTemplate(pieces, combo)
    ensures Substituted(Written(pieces, prefix), combo, prefix) == Filled(pieces, combo)
  {
    if combo == map[] {
      PlainPieces(pieces, prefix);
    } else {
      var keys := Strings.Sorted(combo.Keys);
      PairsAreOrdering(keys, combo, prefix);
      PiecesAreFilled(pieces, combo, prefix, PairsFor(keys, combo, prefix));
    }
  }

  /** A text in which no placeholder of a key occurs is not changed. */
  lemma UntouchedText(text: string, combo: Combo, prefix: string)
    requires forall i, k | 0 <= i < |text| && k in combo :: !IsPrefixOf(Placeholder(prefix, k), text[i..])
    ensures Substituted(text, combo, prefix) == text
  {
    var pairs := PairsFor(Strings.Sorted(combo.Keys), combo, prefix);
    PairsAreOrdering(Strings.Sorted(combo.Keys), combo, prefix);
    assert text + "" == text;
    forall i, p | 0 <= i < |text| && p in pairs
      ensures !IsPrefixOf(p.key, (text + "")[i..])
    {
      var k :| k in combo && p == Pair(Placeholder(prefix, k), combo[k]);
    }
    LiteralStays(text, "", pairs);
  }

  // ----- Substitution in jobs -----

  /** The result for the ascending order of keys; by `ReplaceIgnoresOrder` also for any other
      order when the placeholders are prefix-free. */
  function Substituted(s: string, combo: Combo, prefix: string): string {
    if combo == map[] then s else Replace(s, PairsFor(Strings.Sorted(combo.Keys), combo, prefix))
  }

  /** `substituteVars`: the keys come in whatever order the map yields them. */
  method SubstituteVars(s: string, combo: Combo, prefix: string) returns (r: string)
    ensures exists pairs :: IsOrdering(pairs, combo, prefix) && r == Replace(s, pairs)
    ensures PrefixFree(combo.Keys, prefix) ==> r == Substituted(s, combo, prefix)
  {
    if combo == map[] {
      NoPairsNoChange(s);
      assert IsOrdering([], combo, prefix);
      return s;
    }
    var pairs: seq<Pair> := [];
    var pending := combo.Keys;
    while pending != {}
      invariant pending <= combo.Keys
      invariant forall p | p in pairs :: exists k :: k in combo && p == Pair(Placeholder(prefix, k), combo[k])
      invariant forall k | k in combo && k !in pending :: Pair(Placeholder(prefix, k), combo[k]) in pairs
      decreases pending
    {
      var k :| k in pending;
      pending := pending - {k};
      pairs := pairs + [Pair(Placeholder(prefix, k), combo[k])];
    }
    if PrefixFree(combo.Keys, prefix) {
      PairsAreOrdering(Strings.Sorted(combo.Keys), combo, prefix);
      ReplaceIgnoresOrder(s, combo, prefix, pairs, PairsFor(Strings.Sorted(combo.Keys), combo, prefix));
    }
    assert IsOrdering(pairs, combo, prefix);
    return Replace(s, pairs);
  }

  function MapSeq<A, B>(s: seq<A>, f: A -> B): (r: seq<B>)
    ensures |r| == |s| && forall i | 0 <= i < |s| :: r[i] == f(s[i])
  {
    seq(|s|, i requires 0 <= i < |s| => f(s[i]))
  }

  function SubstituteMounts(ms: seq<Mount>, sub: string -> string): seq<Mount> {
    MapSeq(ms, (m: Mount) => m.(source := sub(m.source), target := sub(m.target)))
  }

  function SubstituteCaches(cs: seq<Cache>, sub: string -> string): seq<Cache> {
    MapSeq(cs, (c: Cache) => c.(id := sub(c.id), target := sub(c.target)))
  }

  function SubstituteEnv(es: seq<EnvVar>, sub: string -> string): seq<EnvVar> {
    MapSeq(es, (e: EnvVar) => e.(value := sub(e.value)))
  }

  function SubstituteExports(es: seq<Export>, sub: string -> string): seq<Export> {
    MapSeq(es, (e: Export) => e.(path := sub(e.path), local := sub(e.local)))
  }

  function SubstituteArtifact(a: Artifact, sub: string -> string): Artifact {
    a.(source := sub(a.source), target := sub(a.target))
  }

  function SubstituteArtifacts(arts: seq<Artifact>, sub: string -> string): seq<Artifact> {
    MapSeq(arts, (a: Artifact) => SubstituteArtifact(a, sub))
  }

  function SubstituteStep(s: Step, sub: string -> string): Step {
    s.(run := MapSeq(s.run, sub),
       workdir := sub(s.workdir),
       mounts := SubstituteMounts(s.mounts, sub),
       caches := SubstituteCaches(s.caches, sub),
       env := SubstituteEnv(s.env, sub),
       exports := SubstituteExports(s.exports, sub),
       artifacts := SubstituteArtifacts(s.artifacts, sub))
  }

  function SubstituteDims(dims: seq<Dimension>, sub: string -> string): seq<Dimension> {
    MapSeq(dims, (d: Dimension) => d.(values := MapSeq(d.values, sub)))
  }

  /** Substitution in every field that takes placeholders. Names, dependencies, artifact
      sources' job names and dimension names do not. */
  function SubstituteJob(j: Job, sub: string -> string): Job {
    j.(image := sub(j.image),
       workdir := sub(j.workdir),
       platform := sub(j.platform),
       matrix := if j.matrix.None? then None else Some(SubstituteDims(j.matrix.value, sub)),
       mounts := SubstituteMounts(j.mounts, sub),
       caches := SubstituteCaches(j.caches, sub),
       env := SubstituteEnv(j.env, sub),
       exports := SubstituteExports(j.exports, sub),
       artifacts := SubstituteArtifacts(j.artifacts, sub),
       publish := if j.publish.None? then None
                  else Some(j.publish.value.(image := sub(j.publish.value.image))),
       steps := MapSeq(j.steps, (s: Step) => SubstituteStep(s, sub)))
  }

  function SubstituteJobVars(j: Job, combo: Combo, prefix: string): Job {
    SubstituteJob(j, s => Substituted(s, combo, prefix))
  }

  function SubstituteParams(jobs: seq<Job>, params: Combo): seq<Job> {
    if params == map[] then jobs else MapSeq(jobs, (j: Job) => SubstituteJobVars(j, params, "param."))
  }

  ghost predicate SameFroms(arts: seq<Artifact>, out: seq<Artifact>) {
    |out| == |arts| && forall i | 0 <= i < |arts| :: out[i].from == arts[i].from
  }

  /** Name, dependencies and the job every artifact comes from are the same, at job and at step
      level. */
  ghost predicate SameEdges(j: Job, out: Job) {
    && out.name == j.name && out.dependsOn == j.dependsOn && SameFroms(j.artifacts, out.artifacts)
    && |out.steps| == |j.steps|
    && forall i | 0 <= i < |j.steps| :: SameFroms(j.steps[i].artifacts, out.steps[i].artifacts)
  }

  /** Substitution moves no job in the graph. */
  lemma SubstitutionKeepsGraph(jobs: seq<Job>, params: Combo)
    ensures |SubstituteParams(jobs, params)| == |jobs|
    ensures forall i | 0 <= i < |jobs| :: SameEdges(jobs[i], SubstituteParams(jobs, params)[i])
    ensures forall i | 0 <= i < |jobs| ::
              ArtifactsFromDeps(SubstituteParams(jobs, params)[i]) <==> ArtifactsFromDeps(jobs[i])
  {
    if params != map[] {
      forall i | 0 <= i < |jobs|
        ensures SameEdges(jobs[i], SubstituteParams(jobs, params)[i])
        ensures ArtifactsFromDeps(SubstituteParams(jobs, params)[i]) <==> ArtifactsFromDeps(jobs[i])
      {
        EdgesStay(jobs[i], s => Substituted(s, params, "param."));
        ImportsStay(jobs[i], s => Substituted(s, params, "param."));
      }
    }
  }

  lemma EdgesStay(j: Job, sub: string -> string)
    ensures SameEdges(j, SubstituteJob(j, sub))
  {
  }

  lemma ArtifactsStay(arts: seq<Artifact>, sub: string -> string, deps: seq<string>)
    ensures (forall a | a in SubstituteArtifacts(arts, sub) :: a.from in deps)
       <==> (forall a | a in arts :: a.from in deps)
  {
    var out := SubstituteArtifacts(arts, sub);
    if forall a | a in out :: a.from in deps {
      forall a | a in arts
        ensures a.from in deps
      {
        var i :| 0 <= i < |arts| && arts[i] == a;
        assert out[i] in out;
      }
    }
  }

  lemma ImportsStay(j: Job, sub: string -> string)
    ensures ArtifactsFromDeps(SubstituteJob(j, sub)) <==> ArtifactsFromDeps(j)
  {
    var out := SubstituteJob(j, sub);
    ArtifactsStay(j.artifacts, sub, j.dependsOn);
    forall i | 0 <= i < |j.steps|
      ensures (forall a | a in out.steps[i].artifacts :: a.from in j.dependsOn)
         <==> (forall a | a in j.steps[i].artifacts :: a.from in j.dependsOn)
    {
      ArtifactsStay(j.steps[i].artifacts, sub, j.dependsOn);
    }
    if ArtifactsFromDeps(out) {
      forall s | s in j.steps
        ensures forall a | a in s.artifacts :: a.from in j.dependsOn
      {
        var i :| 0 <= i < |j.steps| && j.steps[i] == s;
        assert out.steps[i] in out.steps;
      }
    }
    if ArtifactsFromDeps(j) {
      forall s | s in out.steps
        ensures forall a | a in s.artifacts :: a.from in j.dependsOn
      {
        var i :| 0 <= i < |out.steps| && out.steps[i] == s;
        assert j.steps[i] in j.steps;
      }
    }
  }

  // ----- The texts of a job -----

  function Concat<A>(s: seq<A>, f: A -> seq<string>): seq<string> {
    if s == [] then [] else Concat(s[..|s| - 1], f) + f(s[|s| - 1])
  }

  function MountTexts(m: Mount): seq<string> {
    [m.source, m.target]
  }

  function CacheTexts(c: Cache): seq<string> {
    [c.id, c.target]
  }

  function EnvTexts(e: EnvVar): seq<string> {
    [e.value]
  }

  function ExportTexts(e: Export): seq<string> {
    [e.path, e.local]
  }

  function ArtifactTexts(a: Artifact): seq<string> {
    [a.source, a.target]
  }

  function DimTexts(d: Dimension): seq<string> {
    d.values
  }

  function StepTexts(s: Step): seq<string> {
    [s.workdir] + s.run + TextsOfLists(s.mounts, s.caches, s.env, s.exports, s.artifacts)
  }

  /** Every text of a job in which a placeholder has a meaning. */
  function Texts(j: Job): seq<string> {
    [j.image, j.workdir, j.platform] + MatrixTexts(j)
    + TextsOfLists(j.mounts, j.caches, j.env, j.exports, j.artifacts) + PublishTexts(j)
    + Concat(j.steps, StepTexts)
  }

  /** `out` has the texts of `s` after substitution. */
  ghost predicate MapsTo(s: seq<string>, out: seq<string>, sub: string -> string) {
    |out| == |s| && forall i | 0 <= i < |s| :: out[i] == sub(s[i])
  }

  lemma MapsTogether(a: seq<string>, a': seq<string>, b: seq<string>, b': seq<string>, sub: string -> string)
    requires MapsTo(a, a', sub) && MapsTo(b, b', sub)
    ensures MapsTo(a + b, a' + b', sub)
  {
  }

  lemma {:induction false} ConcatMaps<A>(s: seq<A>, out: seq<A>, f: A -> seq<string>, sub: string -> string)
    requires |out| == |s| && forall i | 0 <= i < |s| :: MapsTo(f(s[i]), f(out[i]), sub)
    ensures MapsTo(Concat(s, f), Concat(out, f), sub)
  {
    if s != [] {
      var n := |s| - 1;
      ConcatMaps(s[..n], out[..n], f, sub);
      MapsTogether(Concat(s[..n], f), Concat(out[..n], f), f(s[n]), f(out[n]), sub);
    }
  }

  /** The texts of the five lists jobs and steps have in common. */
  function TextsOfLists(
    mounts: seq<Mount>, caches: seq<Cache>, env: seq<EnvVar>, exports: seq<Export>, artifacts: seq<Artifact>):
    seq<string>
  {
    Concat(mounts, MountTexts) + Concat(caches, CacheTexts) + Concat(env, EnvTexts)
    + Concat(exports, ExportTexts) + Concat(artifacts, ArtifactTexts)
  }

  lemma ListTexts(
    mounts: seq<Mount>, caches: seq<Cache>, env: seq<EnvVar>, exports: seq<Export>, artifacts: seq<Artifact>,
    sub: string -> string)
    ensures MapsTo(TextsOfLists(mounts, caches, env, exports, artifacts),
                   TextsOfLists(SubstituteMounts(mounts, sub), SubstituteCaches(caches, sub),
                                SubstituteEnv(env, sub), SubstituteExports(exports, sub),
                                SubstituteArtifacts(artifacts, sub)), sub)
  {
    var ms, cs := SubstituteMounts(mounts, sub), SubstituteCaches(caches, sub);
    var vs, es, arts := SubstituteEnv(env, sub), SubstituteExports(exports, sub), SubstituteArtifacts(artifacts, sub);
    ConcatMaps(mounts, ms, MountTexts, sub);
    ConcatMaps(caches, cs, CacheTexts, sub);
    ConcatMaps(env, vs, EnvTexts, sub);
    ConcatMaps(exports, es, ExportTexts, sub);
    ConcatMaps(artifacts, arts, ArtifactTexts, sub);
    var a, a' := Concat(mounts, MountTexts), Concat(ms, MountTexts);
    MapsTogether(a, a', Concat(caches, CacheTexts), Concat(cs, CacheTexts), sub);
    var b, b' := a + Concat(caches, CacheTexts), a' + Concat(cs, CacheTexts);
    MapsTogether(b, b', Concat(env, EnvTexts), Concat(vs, EnvTexts), sub);
    var c, c' := b + Concat(env, EnvTexts), b' + Concat(vs, EnvTexts);
    MapsTogether(c, c', Concat(exports, ExportTexts), Concat(es, ExportTexts), sub);
    MapsTogether(c + Concat(exports, ExportTexts), c' + Concat(es, ExportTexts),
                 Concat(artifacts, ArtifactTexts), Concat(arts, ArtifactTexts), sub);
  }

  lemma StepTextsSubstituted(s: Step, sub: string -> string)
    ensures MapsTo(StepTexts(s), StepTexts(SubstituteStep(s, sub)), sub)
  {
    var out := SubstituteStep(s, sub);
    ListTexts(s.mounts, s.caches, s.env, s.exports, s.artifacts, sub);
    MapsTogether([s.workdir], [out.workdir], s.run, out.run, sub);
    MapsTogether([s.workdir] + s.run, [out.workdir] + out.run,
                 TextsOfLists(s.mounts, s.caches, s.env, s.exports, s.artifacts),
                 TextsOfLists(out.mounts, out.caches, out.env, out.exports, out.artifacts), sub);
  }

  function MatrixTexts(j: Job): seq<string> {
    if j.matrix.None? then [] else Concat(j.matrix.value, DimTexts)
  }

  function PublishTexts(j: Job): seq<string> {
    if j.publish.None? then [] else [j.publish.value.image]
  }

  lemma MatrixTextsSubstituted(j: Job, sub: string -> string)
    ensures MapsTo(MatrixTexts(j), MatrixTexts(SubstituteJob(j, sub)), sub)
  {
    if j.matrix.Some? {
      ConcatMaps(j.matrix.value, SubstituteDims(j.matrix.value, sub), DimTexts, sub);
    }
  }

  /** Substitution in a job is substitution in each of its texts, and in all of them. */
  lemma EveryTextIsSubstituted(j: Job, sub: string -> string)
    ensures MapsTo(Texts(j), Texts(SubstituteJob(j, sub)), sub)
  {
    var out := SubstituteJob(j, sub);
    MatrixTextsSubstituted(j, sub);
    ListTexts(j.mounts, j.caches, j.env, j.exports, j.artifacts, sub);
    forall i | 0 <= i < |j.steps|
      ensures MapsTo(StepTexts(j.steps[i]), StepTexts(out.steps[i]), sub)
    {
      StepTextsSubstituted(j.steps[i], sub);
    }
    ConcatMaps(j.steps, out.steps, StepTexts, sub);
    var a, a' := [j.image, j.workdir, j.platform], [out.image, out.workdir, out.platform];
    MapsTogether(a, a', MatrixTexts(j), MatrixTexts(out), sub);
    var b, b' := a + MatrixTexts(j), a' + MatrixTexts(out);
    var l := TextsOfLists(j.mounts, j.caches, j.env, j.exports, j.artifacts);
    var l' := TextsOfLists(out.mounts, out.caches, out.env, out.exports, out.artifacts);
    MapsTogether(b, b', l, l', sub);
    MapsTogether(b + l, b' + l', PublishTexts(j), PublishTexts(out), sub);
    MapsTogether(b + l + PublishTexts(j), b' + l' + PublishTexts(out),
                 Concat(j.steps, StepTexts), Concat(out.steps, StepTexts), sub);
  }

  ghost predicate SameKeys(env: seq<EnvVar>, out: seq<EnvVar>) {
    |out| == |env| && forall i | 0 <= i < |env| :: out[i].key == env[i].key
  }

  ghost predicate SameAccess(mounts: seq<Mount>, out: seq<Mount>) {
    |out| == |mounts| && forall i | 0 <= i < |mounts| :: out[i].readOnly == mounts[i].readOnly
  }

  ghost predicate SameStep(s: Step, out: Step) {
    && out.name == s.name && out.noCache == s.noCache && |out.run| == |s.run|
    && SameKeys(s.env, out.env) && SameAccess(s.mounts, out.mounts)
  }

  /** What is no text for placeholders. */
  ghost predicate SameRest(j: Job, out: Job) {
    && out.noCache == j.noCache && SameKeys(j.env, out.env) && SameAccess(j.mounts, out.mounts)
    && (out.matrix.Some? <==> j.matrix.Some?) && (out.publish.Some? <==> j.publish.Some?)
    && (j.matrix.Some? ==>
          && |out.matrix.value| == |j.matrix.value|
          && forall i | 0 <= i < |j.matrix.value| :: out.matrix.value[i].name == j.matrix.value[i].name)
    && (j.publish.Some? ==>
          && out.publish.value.push == j.publish.value.push
          && out.publish.value.insecure == j.publish.value.insecure)
    && |out.steps| == |j.steps|
    && forall i | 0 <= i < |j.steps| :: SameStep(j.steps[i], out.steps[i])
  }

  /** Names, flags and keys are no texts and stay as they are. */
  lemma RestIsKept(j: Job, sub: string -> string)
    ensures SameEdges(j, SubstituteJob(j, sub)) && SameRest(j, SubstituteJob(j, sub))
  {
    EdgesStay(j, sub);
    forall i | 0 <= i < |j.steps|
      ensures SameStep(j.steps[i], SubstituteJob(j, sub).steps[i])
    {
    }
  }
}
