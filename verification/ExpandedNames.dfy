/** Names of matrix variants: printing the `[key=value,...]` suffix and reading it back
    (expandedName in pkg/pipeline/expand.go). */
module ExpandedNames {
  import opened Substitute
  import opened Strings

  // ----- String library -----

  function FirstIndex(s: string, c: char): (i: nat)
    ensures i <= |s| && (i < |s| ==> s[i] == c) && c !in s[..i]
  {
    if s == "" || s[0] == c then 0 else
      var i := FirstIndex(s[1..], c) + 1;
      assert s[..i] == [s[0]] + s[1..][..i - 1];
      i
  }

  /** One past the last position of `c`, or 0. */
  function PastLast(s: string, c: char): (i: nat)
    ensures i <= |s| && (i > 0 ==> s[i - 1] == c) && c !in s[i..]
  {
    if s == "" || s[|s| - 1] == c then |s| else
      var front := s[..|s| - 1];
      var i := PastLast(front, c);
      assert s[i..] == front[i..] + [s[|s| - 1]];
      i
  }

  /** The pieces between commas; never empty. */
  function Split(s: string): (pieces: seq<string>)
    ensures pieces != [] && forall p | p in pieces :: ',' !in p
  {
    if s == "" then [""]
    else if s[0] == ',' then [""] + Split(s[1..])
    else
      var rest := Split(s[1..]);
      [[s[0]] + rest[0]] + rest[1..]
  }

  lemma {:induction false} SplitAtComma(a: string, b: string)
    ensures Split(a + "," + b) == Split(a) + Split(b)
  {
    if a == "" {
      assert (a + "," + b)[1..] == b;
    } else {
      assert (a + "," + b)[1..] == a[1..] + "," + b;
      SplitAtComma(a[1..], b);
    }
  }

  lemma {:induction false} SplitWithoutComma(a: string)
    requires ',' !in a
    ensures Split(a) == [a]
  {
    if a != "" {
      SplitWithoutComma(a[1..]);
      assert [a[0]] + a[1..] == a;
    }
  }

  // ----- Printing -----

  function Entry(k: string, v: string): string {
    k + "=" + v
  }

  function Joined(keys: seq<string>, m: Combo): string
    requires forall k | k in keys :: k in m
  {
    if keys == [] then "" else
      var front, k := keys[..|keys| - 1], keys[|keys| - 1];
      Joined(front, m) + (if front == [] then "" else ",") + Entry(k, m[k])
  }

  function Print(name: string, m: Combo): string {
    name + "[" + Joined(Sorted(m.Keys), m) + "]"
  }

  // ----- Reading back -----

  datatype Parsed = Parsed(name: string, dims: Combo)

  /** A piece without an equals sign is dropped; the first equals sign separates. */
  function WithPiece(m: Combo, piece: string): Combo {
    var i := FirstIndex(piece, '=');
    if i < |piece| then m[piece[..i] := piece[i + 1..]] else m
  }

  function ReadPieces(pieces: seq<string>): Combo {
    if pieces == [] then map[] else WithPiece(ReadPieces(pieces[..|pieces| - 1]), pieces[|pieces| - 1])
  }

  /** The suffix runs from the first opening to the last closing bracket. */
  function Parse(s: string): Parsed {
    var open, end := FirstIndex(s, '['), PastLast(s, ']');
    if open < |s| && open + 1 < end then Parsed(s[..open], ReadPieces(Split(s[open + 1..end - 1])))
    else Parsed(s, map[])
  }

  function Expanded(base: string, combo: Combo): string {
    var p := Parse(base);
    Print(p.name, p.dims + combo)
  }

  /** Parses an existing suffix: the part of expandedName before new dimensions are merged. */
  method ReadSuffix(base: string) returns (name: string, existing: Combo)
    ensures Parse(base) == Parsed(name, existing)
  {
    name, existing := base, map[];
    var open := FirstIndex(base, '[');
    if open < |base| {
      var end := PastLast(base, ']');
      if end > 0 && end - 1 > open {
        name := base[..open];
        var pieces := Split(base[open + 1..end - 1]);
        for i := 0 to |pieces|
          invariant existing == ReadPieces(pieces[..i])
        {
          assert pieces[..i + 1][..i] == pieces[..i];
          var eq := FirstIndex(pieces[i], '=');
          if eq < |pieces[i]| {
            existing := existing[pieces[i][..eq] := pieces[i][eq + 1..]];
          }
        }
        assert pieces[..|pieces|] == pieces;
      }
    }
  }

  lemma JoinedStep(keys: seq<string>, m: Combo, i: nat)
    requires i < |keys| && forall k | k in keys :: k in m
    ensures Joined(keys[..i + 1], m) == Joined(keys[..i], m) + (if i == 0 then "" else ",") + Entry(keys[i], m[keys[i]])
  {
    assert keys[..i + 1][..i] == keys[..i];
  }

  lemma JoinedAppend(keys: seq<string>, k: string, m: Combo)
    requires keys != [] && k in m && forall l | l in keys :: l in m
    ensures Joined(keys + [k], m) == Joined(keys, m) + "," + Entry(k, m[k])
  {
    assert (keys + [k])[..|keys|] == keys;
  }

  lemma JoinedOne(k: string, m: Combo)
    requires k in m
    ensures Joined([k], m) == k + "=" + m[k]
  {
    assert [k][..0] == [];
  }

  lemma CommaTwice(x: string, y: string, z: string)
    ensures x + "," + (y + "," + z) == x + "," + y + "," + z
  {
  }

  /** The entries stand in the order of the keys, with commas between them. */
  lemma {:induction false} EntriesInOrder(a: seq<string>, b: seq<string>, m: Combo)
    requires a != [] && b != [] && (forall k | k in a :: k in m) && forall k | k in b :: k in m
    ensures Joined(a + b, m) == Joined(a, m) + "," + Joined(b, m)
    decreases |b|
  {
    var front, k := b[..|b| - 1], b[|b| - 1];
    assert b == front + [k];
    if front == [] {
      assert a + b == a + [k];
      JoinedAppend(a, k, m);
      JoinedOne(k, m);
    } else {
      EntriesInOrder(a, front, m);
      assert a + b == (a + front) + [k];
      JoinedAppend(a + front, k, m);
      JoinedAppend(front, k, m);
      CommaTwice(Joined(a, m), Joined(front, m), Entry(k, m[k]));
    }
  }

  method WriteSuffix(name: string, existing: Combo) returns (r: string)
    ensures r == Print(name, existing)
  {
    var keys := Sorted(existing.Keys);
    var b := "";
    for i := 0 to |keys|
      invariant b == Joined(keys[..i], existing)
    {
      JoinedStep(keys, existing, i);
      if i > 0 {
        b := b + ",";
      }
      b := b + Entry(keys[i], existing[keys[i]]);
    }
    assert keys[..|keys|] == keys;
    r := name + "[" + b + "]";
  }

  method ExpandedName(base: string, combo: Combo) returns (r: string)
    ensures r == Expanded(base, combo)
  {
    var name, existing := ReadSuffix(base);
    r := WriteSuffix(name, existing + combo);
  }

  // ----- Round trip -----

  /** Keys have neither comma nor equals sign, values no comma. */
  ghost predicate Clean(m: Combo) {
    forall k | k in m :: ',' !in k && '=' !in k && ',' !in m[k]
  }

  ghost predicate Restricted(m: Combo, keys: seq<string>, r: Combo) {
    && (forall k :: k in r <==> k in keys)
    && (forall k | k in keys :: k in m && r[k] == m[k])
  }

  lemma EntryReads(m: Combo, k: string, v: string)
    requires '=' !in k
    ensures WithPiece(m, Entry(k, v)) == m[k := v]
  {
    var e := Entry(k, v);
    FirstIndexAt(k, '=', v);
    assert e == k + ['='] + v && e[..|k|] == k && e[|k| + 1..] == v;
  }

  lemma ReadOneMore(pieces: seq<string>, piece: string)
    ensures ReadPieces(pieces + [piece]) == WithPiece(ReadPieces(pieces), piece)
  {
    assert (pieces + [piece])[..|pieces|] == pieces;
  }

  /** One more key: its entry is one more piece. */
  lemma {:induction false} JoinedReadsMore(keys: seq<string>, m: Combo)
    requires keys != [] && forall k | k in keys :: k in m
    requires Clean(m)
    ensures var k := keys[|keys| - 1];
            ReadPieces(Split(Joined(keys, m))) == ReadPieces(Split(Joined(keys[..|keys| - 1], m)))[k := m[k]]
  {
    var front, k := keys[..|keys| - 1], keys[|keys| - 1];
    var e := Entry(k, m[k]);
    SplitWithoutComma(e);
    if front == [] {
      ReadOneMore([], e);
      ReadOneMore([], "");
      assert Joined(keys, m) == e && [] + [e] == [e] && [] + [""] == [""];
      EntryReads(map[], k, m[k]);
    } else {
      SplitAtComma(Joined(front, m), e);
      assert Joined(keys, m) == Joined(front, m) + "," + e;
      ReadOneMore(Split(Joined(front, m)), e);
      EntryReads(ReadPieces(Split(Joined(front, m))), k, m[k]);
    }
  }

  lemma {:induction false} JoinedReads(keys: seq<string>, m: Combo)
    requires forall k | k in keys :: k in m
    requires Clean(m)
    ensures Restricted(m, keys, ReadPieces(Split(Joined(keys, m))))
  {
    if keys == [] {
      ReadOneMore([], "");
      assert [] + [""] == [""];
    } else {
      var front, k := keys[..|keys| - 1], keys[|keys| - 1];
      JoinedReads(front, m);
      JoinedReadsMore(keys, m);
      assert forall x :: x in keys <==> x in front || x == k;
    }
  }

  lemma FirstIndexAt(a: string, c: char, b: string)
    requires c !in a
    ensures FirstIndex(a + [c] + b, c) == |a|
  {
    FirstIndexIs(a + [c] + b, c, |a|);
  }

  lemma FirstIndexIs(s: string, c: char, i: nat)
    requires i < |s| && s[i] == c && forall k | 0 <= k < i :: s[k] != c
    ensures FirstIndex(s, c) == i
  {
    var j := FirstIndex(s, c);
    assert forall k | 0 <= k < j :: s[k] == s[..j][k];
  }

  lemma PastLastAtEnd(a: string, c: char)
    ensures PastLast(a + [c], c) == |a| + 1
  {
  }

  lemma BracketsParse(name: string, body: string)
    requires '[' !in name
    ensures Parse(name + "[" + body + "]") == Parsed(name, ReadPieces(Split(body)))
  {
    var s := name + "[" + body + "]";
    FirstIndexAt(name, '[', body + "]");
    assert s == name + ['['] + (body + "]");
    PastLastAtEnd(name + "[" + body, ']');
    assert s[..|name|] == name && s[|name| + 1..|s| - 1] == body;
  }

  lemma PrintReads(name: string, m: Combo)
    requires '[' !in name
    ensures Parse(Print(name, m)) == Parsed(name, ReadPieces(Split(Joined(Sorted(m.Keys), m))))
  {
    BracketsParse(name, Joined(Sorted(m.Keys), m));
  }

  /** What is read never has a comma in it, nor an equals sign in a key. */
  lemma {:induction false} ReadIsClean(pieces: seq<string>)
    requires forall p | p in pieces :: ',' !in p
    ensures Clean(ReadPieces(pieces))
  {
    if pieces != [] {
      var last := pieces[|pieces| - 1];
      ReadIsClean(pieces[..|pieces| - 1]);
      var i := FirstIndex(last, '=');
      assert last in pieces;
      assert forall c | c in last[..i] :: c in last;
      if i < |last| {
        assert forall c | c in last[i + 1..] :: c in last;
      }
    }
  }

  lemma ParsedIsClean(s: string)
    ensures Clean(Parse(s).dims)
  {
    var open, end := FirstIndex(s, '['), PastLast(s, ']');
    if open < |s| && open + 1 < end {
      ReadIsClean(Split(s[open + 1..end - 1]));
    }
  }

  /** A name read off a suffix has no opening bracket. */
  lemma ParsedName(s: string)
    ensures '[' in Parse(s).name ==> Parse(s) == Parsed(s, map[])
  {
  }

  lemma CleanIsRead(m: Combo)
    requires Clean(m)
    ensures ReadPieces(Split(Joined(Sorted(m.Keys), m))) == m
  {
    JoinedReads(Sorted(m.Keys), m);
  }

  /** Printing and reading back returns the name and the dimensions exactly when the name has
      no bracket and no key or value has a separator in it. */
  lemma RoundTrip(name: string, m: Combo)
    ensures Parse(Print(name, m)) == Parsed(name, m) <==> '[' !in name && Clean(m)
  {
    ParsedIsClean(Print(name, m));
    if '[' !in name {
      PrintReads(name, m);
      if Clean(m) {
        CleanIsRead(m);
      }
    } else if Parse(Print(name, m)).name == name {
      ParsedName(Print(name, m));
    }
  }

  /** Different variants have different names. */
  lemma PrintInjective(a: string, m: Combo, b: string, l: Combo)
    requires '[' !in a && '[' !in b && Clean(m) && Clean(l)
    requires Print(a, m) == Print(b, l)
    ensures a == b && m == l
  {
    RoundTrip(a, m);
    RoundTrip(b, l);
  }

  /** A base without brackets is taken as it is. */
  lemma PlainBase(base: string, combo: Combo)
    requires '[' !in base
    ensures Expanded(base, combo) == Print(base, combo)
  {
    assert FirstIndex(base, '[') == |base|;
    assert Parse(base) == Parsed(base, map[]);
    assert Parse(base).dims + combo == combo;
  }

  /** The base has no brackets, or brackets that can be read. */
  ghost predicate ReadableBase(base: string) {
    '[' !in Parse(base).name
  }

  /** Expanding twice is expanding once with the combined dimensions, the second expansion
      taking precedence. */
  lemma ExpansionComposes(base: string, c: Combo, d: Combo)
    requires ReadableBase(base) && Clean(c)
    ensures Expanded(Expanded(base, c), d) == Expanded(base, c + d)
  {
    var p := Parse(base);
    ParsedIsClean(base);
    CleanUnion(p.dims, c);
    ExpandPrinted(p.name, p.dims + c, d);
    UnionAssociative(p.dims, c, d);
  }

  lemma CleanUnion(a: Combo, b: Combo)
    requires Clean(a) && Clean(b)
    ensures Clean(a + b)
  {
  }

  lemma UnionAssociative(a: Combo, b: Combo, c: Combo)
    ensures a + b + c == a + (b + c)
  {
  }

  lemma ExpandPrinted(name: string, m: Combo, d: Combo)
    requires '[' !in name && Clean(m)
    ensures Expanded(Print(name, m), d) == Print(name, m + d)
  {
    RoundTrip(name, m);
  }

  /** A comma in a value loses what comes after it when the name is expanded again. */
  lemma CommaIsLost(base: string, k: string, v: string, w: string)
    requires '[' !in base && ',' !in k && '=' !in k && ',' !in v && ',' !in w && '=' !in w
    ensures Expanded(Expanded(base, map[k := v + "," + w]), map[]) == Expanded(base, map[k := v])
  {
    var m: Combo := map[k := v + "," + w];
    var short: Combo := map[k := v];
    PlainBase(base, m);
    PlainBase(base, short);
    CommaReads(base, m, k, v, w);
    assert short + map[] == short;
  }

  lemma CommaReads(base: string, m: Combo, k: string, v: string, w: string)
    requires '[' !in base && ',' !in k && '=' !in k && ',' !in v && ',' !in w && '=' !in w
    requires m.Keys == {k} && m[k] == v + "," + w
    ensures Parse(Print(base, m)) == Parsed(base, map[k := v])
  {
    PrintReads(base, m);
    CommaJoins(m, k, v, w);
    SecondPieceDropped(k, v, w);
  }

  lemma CommaJoins(m: Combo, k: string, v: string, w: string)
    requires m.Keys == {k} && m[k] == v + "," + w
    ensures Joined(Sorted(m.Keys), m) == Entry(k, v) + "," + w
  {
    OneKey(k, m);
    assert Entry(k, m[k]) == Entry(k, v) + "," + w;
  }

  lemma SecondPieceDropped(k: string, v: string, w: string)
    requires ',' !in k && '=' !in k && ',' !in v && ',' !in w && '=' !in w
    ensures ReadPieces(Split(Entry(k, v) + "," + w)) == map[k := v]
  {
    var e := Entry(k, v);
    SplitAtComma(e, w);
    SplitWithoutComma(e);
    SplitWithoutComma(w);
    assert Split(e + "," + w) == [e, w];
    EntryReads(map[], k, v);
    assert [e, w][..1] == [e] && [e][..0] == [];
    assert ReadPieces([e]) == map[k := v];
  }

  lemma OneKey(k: string, m: Combo)
    requires m.Keys == {k}
    ensures Joined(Sorted(m.Keys), m) == Entry(k, m[k])
  {
    assert Least({k}) == k && {k} - {k} == {};
    assert Sorted(m.Keys) == [k] && [k][..0] == [];
  }
}
