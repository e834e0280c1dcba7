/**
  The display order of the dashboard (Controllers/HomeController.cs, `SortPipelines`):
  broken pipelines first, then by name, keeping the input order among pipelines that tie
  on both keys, as LINQ's stable `OrderByDescending(...).ThenBy(...)` does. Names compare
  ordinally.
 */
module HomeController {
  import opened Text
  import opened Pipelines

  /** `a` may come before `b`: broken before not broken, then names in order. */
  function KeyLe(a: Pipeline, b: Pipeline): (r: bool)
    ensures a.showBroken != b.showBroken ==> (r <==> a.showBroken)
    ensures a.showBroken == b.showBroken ==> (r <==> LessOrEqual(a.def.name, b.def.name))
  {
    || (a.showBroken && !b.showBroken)
    || (a.showBroken == b.showBroken && LessOrEqual(a.def.name, b.def.name))
  }

  /** Both sort keys are equal. */
  predicate SameKey(a: Pipeline, b: Pipeline) {
    a.showBroken == b.showBroken && a.def.name == b.def.name
  }

  lemma KeyLeTotal(a: Pipeline, b: Pipeline)
    ensures KeyLe(a, b) || KeyLe(b, a)
  {
    LessOrEqualTotal(a.def.name, b.def.name);
  }

  lemma KeyLeTransitive(a: Pipeline, b: Pipeline, c: Pipeline)
    requires KeyLe(a, b) && KeyLe(b, c)
    ensures KeyLe(a, c)
  {
    if a.showBroken == b.showBroken && b.showBroken == c.showBroken {
      LessOrEqualTransitive(a.def.name, b.def.name, c.def.name);
    }
  }

  /** Keys that order both ways are equal. */
  lemma KeyLeAntisymmetric(a: Pipeline, b: Pipeline)
    requires KeyLe(a, b) && KeyLe(b, a)
    ensures SameKey(a, b)
  {
    LessOrEqualAntisymmetric(a.def.name, b.def.name);
  }

  lemma SameKeyOrdersBothWays(a: Pipeline, b: Pipeline)
    requires SameKey(a, b)
    ensures KeyLe(a, b) && KeyLe(b, a)
  {
    LessOrEqualReflexive(a.def.name);
  }

  /** Every earlier pipeline may come before every later one. */
  predicate Sorted(s: seq<Pipeline>) {
    forall i, j :: 0 <= i < j < |s| ==> KeyLe(s[i], s[j])
  }

  /** Places `x` before the first element it may precede, so it lands ahead of its equals. */
  function Insert(x: Pipeline, s: seq<Pipeline>): (r: seq<Pipeline>)
    requires Sorted(s)
    ensures Sorted(r)
    ensures multiset(r) == multiset(s) + multiset{x}
    ensures |r| == |s| + 1
    decreases |s|
  {
    if s == [] then [x]
    else if KeyLe(x, s[0]) then
      forall j | 0 <= j < |s| ensures KeyLe(x, s[j]) {
        if j > 0 { KeyLeTransitive(x, s[0], s[j]); }
      }
      [x] + s
    else
      KeyLeTotal(x, s[0]);
      var rest := Insert(x, s[1..]);
      assert s == [s[0]] + s[1..];
      forall j | 0 <= j < |rest| ensures KeyLe(s[0], rest[j]) {
        assert rest[j] in multiset(rest);
        if rest[j] != x {
          assert rest[j] in multiset(s[1..]);
          var k :| 0 <= k < |s[1..]| && s[1..][k] == rest[j];
          assert s[k + 1] == rest[j];
        }
      }
      [s[0]] + rest
  }

  /** `SortPipelines`: a stable sort on (broken first, name). */
  function SortPipelines(s: seq<Pipeline>): (r: seq<Pipeline>)
    ensures Sorted(r)
    ensures multiset(r) == multiset(s)
    ensures |r| == |s|
    decreases |s|
  {
    if s == [] then []
    else
      var r := Insert(s[0], SortPipelines(s[1..]));
      assert s == [s[0]] + s[1..];
      r
  }

  /** In sorted order every broken pipeline precedes every healthy one, and names ascend within each group. */
  lemma SortedMeansBrokenFirstThenByName(s: seq<Pipeline>)
    ensures var r := SortPipelines(s);
            && (forall i, j :: 0 <= i < j < |r| && r[j].showBroken ==> r[i].showBroken)
            && (forall i, j :: 0 <= i < j < |r| && r[i].showBroken == r[j].showBroken ==>
                  LessOrEqual(r[i].def.name, r[j].def.name))
  {
  }

  // ---------------------------------------------------------------------------
  // Stability

  /** The pipelines whose keys are (`broken`, `name`), in order. */
  function WithKey(s: seq<Pipeline>, broken: bool, name: string): seq<Pipeline>
    decreases |s|
  {
    if s == [] then []
    else (if s[0].showBroken == broken && s[0].def.name == name then [s[0]] else []) + WithKey(s[1..], broken, name)
  }

  lemma {:induction false} WithKeyAppend(a: seq<Pipeline>, b: seq<Pipeline>, broken: bool, name: string)
    ensures WithKey(a + b, broken, name) == WithKey(a, broken, name) + WithKey(b, broken, name)
    decreases |a|
  {
    if a != [] {
      assert (a + b)[1..] == a[1..] + b;
      WithKeyAppend(a[1..], b, broken, name);
    } else {
      assert a + b == b;
    }
  }

  /** Pipelines with different keys never both pass one key filter, so their filtered singletons commute. */
  lemma DistinctKeysCommute(x: Pipeline, y: Pipeline, rest: seq<Pipeline>, broken: bool, name: string)
    requires !SameKey(x, y)
    ensures WithKey([x], broken, name) + (WithKey([y], broken, name) + rest)
         == WithKey([y], broken, name) + (WithKey([x], broken, name) + rest)
  {
    assert WithKey([x], broken, name) == [] || WithKey([y], broken, name) == [];
  }

  /** Inserting `x` keeps it ahead of every pipeline with its key. */
  lemma {:induction false} InsertIsStable(x: Pipeline, s: seq<Pipeline>, broken: bool, name: string)
    requires Sorted(s)
    ensures WithKey(Insert(x, s), broken, name) == WithKey([x] + s, broken, name)
    decreases |s|
  {
    if s != [] && !KeyLe(x, s[0]) {
      SortedTail(s);
      if SameKey(x, s[0]) {
        SameKeyOrdersBothWays(x, s[0]);
      }
      var head, mid, tail := WithKey([s[0]], broken, name), WithKey([x], broken, name), WithKey(s[1..], broken, name);
      calc {
        WithKey(Insert(x, s), broken, name);
        WithKey([s[0]] + Insert(x, s[1..]), broken, name);
        { WithKeyAppend([s[0]], Insert(x, s[1..]), broken, name); }
        head + WithKey(Insert(x, s[1..]), broken, name);
        { InsertIsStable(x, s[1..], broken, name); WithKeyAppend([x], s[1..], broken, name); }
        head + (mid + tail);
        { DistinctKeysCommute(s[0], x, tail, broken, name); }
        mid + (head + tail);
        { WithKeyAppend([s[0]], s[1..], broken, name); assert s == [s[0]] + s[1..]; }
        mid + WithKey(s, broken, name);
        { WithKeyAppend([x], s, broken, name); }
        WithKey([x] + s, broken, name);
      }
    }
  }

  /**
    The sort is stable: for every key, the pipelines carrying it appear in the output in
    exactly their input order.
   */
  lemma {:induction false} SortIsStable(s: seq<Pipeline>, broken: bool, name: string)
    ensures WithKey(SortPipelines(s), broken, name) == WithKey(s, broken, name)
    decreases |s|
  {
    if s != [] {
      SortIsStable(s[1..], broken, name);
      InsertIsStable(s[0], SortPipelines(s[1..]), broken, name);
      WithKeyAppend([s[0]], SortPipelines(s[1..]), broken, name);
      WithKeyAppend([s[0]], s[1..], broken, name);
      assert s == [s[0]] + s[1..];
    }
  }

  /** Sorting an already sorted list changes nothing. */
  lemma {:induction false} SortedInputIsUnchanged(s: seq<Pipeline>)
    requires Sorted(s)
    ensures SortPipelines(s) == s
    decreases |s|
  {
    if s != [] {
      SortedTail(s);
      SortedInputIsUnchanged(s[1..]);
      assert SortPipelines(s) == Insert(s[0], s[1..]);
      if |s| > 1 {
        assert KeyLe(s[0], s[1..][0]);
      }
      assert Insert(s[0], s[1..]) == [s[0]] + s[1..];
      assert s == [s[0]] + s[1..];
    }
  }

  lemma {:induction false} WithKeyMembers(s: seq<Pipeline>, broken: bool, name: string, x: Pipeline)
    requires x in WithKey(s, broken, name)
    ensures x in s && x.showBroken == broken && x.def.name == name
    decreases |s|
  {
    if s[0] != x || !(s[0].showBroken == broken && s[0].def.name == name) {
      WithKeyAppend([s[0]], s[1..], broken, name);
      assert s == [s[0]] + s[1..];
      WithKeyMembers(s[1..], broken, name, x);
    }
  }

  lemma SortedTail(s: seq<Pipeline>)
    requires Sorted(s) && s != []
    ensures Sorted(s[1..])
  {
    forall i, j | 0 <= i < j < |s[1..]| ensures KeyLe(s[1..][i], s[1..][j]) {
      assert s[1..][i] == s[i + 1] && s[1..][j] == s[j + 1];
    }
  }

  lemma FirstKeyIsPresent(t: seq<Pipeline>)
    ensures t != [] ==> WithKey(t, t[0].showBroken, t[0].def.name) != []
  {
  }

  /** The first pipeline of a sorted list sorts at or before every pipeline in it. */
  lemma HeadPrecedesMembers(t: seq<Pipeline>, x: Pipeline)
    requires Sorted(t) && t != [] && x in t
    ensures KeyLe(t[0], x)
  {
    var k :| 0 <= k < |t| && t[k] == x;
    if k == 0 {
      SameKeyOrdersBothWays(x, x);
    }
  }

  /** A list's first pipeline is also the first of its own key group. */
  lemma HeadOpensItsGroup(t: seq<Pipeline>)
    requires t != []
    ensures WithKey(t, t[0].showBroken, t[0].def.name)[0] == t[0]
  {
    assert WithKey(t, t[0].showBroken, t[0].def.name) == [t[0]] + WithKey(t[1..], t[0].showBroken, t[0].def.name);
  }

  /** Two non-empty sorted lists that agree key by key start with the same pipeline. */
  lemma SortedHeadsAgree(t1: seq<Pipeline>, t2: seq<Pipeline>)
    requires Sorted(t1) && Sorted(t2) && t1 != [] && t2 != []
    requires forall b: bool, n: string :: WithKey(t1, b, n) == WithKey(t2, b, n)
    ensures t1[0] == t2[0]
  {
    var a, b := t1[0], t2[0];
    HeadOpensItsGroup(t1);
    HeadOpensItsGroup(t2);
    assert b in WithKey(t1, b.showBroken, b.def.name);
    WithKeyMembers(t1, b.showBroken, b.def.name, b);
    HeadPrecedesMembers(t1, b);
    assert a in WithKey(t2, a.showBroken, a.def.name);
    WithKeyMembers(t2, a.showBroken, a.def.name, a);
    HeadPrecedesMembers(t2, a);
    KeyLeAntisymmetric(a, b);
    assert WithKey(t1, a.showBroken, a.def.name)[0] == WithKey(t2, b.showBroken, b.def.name)[0];
  }

  /** Lists that agree key by key and share their first pipeline agree key by key after it. */
  lemma TailsAgree(t1: seq<Pipeline>, t2: seq<Pipeline>)
    requires t1 != [] && t2 != [] && t1[0] == t2[0]
    requires forall b: bool, n: string :: WithKey(t1, b, n) == WithKey(t2, b, n)
    ensures forall b: bool, n: string :: WithKey(t1[1..], b, n) == WithKey(t2[1..], b, n)
  {
    var a := t1[0];
    forall bb: bool, n: string ensures WithKey(t1[1..], bb, n) == WithKey(t2[1..], bb, n) {
      var head := if a.showBroken == bb && a.def.name == n then [a] else [];
      assert WithKey(t1, bb, n) == head + WithKey(t1[1..], bb, n);
      assert WithKey(t2, bb, n) == head + WithKey(t2[1..], bb, n);
      assert WithKey(t1, bb, n) == WithKey(t2, bb, n);
      assert WithKey(t1[1..], bb, n) == WithKey(t1, bb, n)[|head|..];
      assert WithKey(t2[1..], bb, n) == WithKey(t2, bb, n)[|head|..];
    }
  }

  /** Two sorted lists that agree, key by key, on the order of their pipelines are the same list. */
  lemma {:induction false} StableOrderIsUnique(t1: seq<Pipeline>, t2: seq<Pipeline>)
    requires Sorted(t1) && Sorted(t2)
    requires forall b: bool, n: string :: WithKey(t1, b, n) == WithKey(t2, b, n)
    ensures t1 == t2
    decreases |t1| + |t2|
  {
    if t1 == [] && t2 == [] {
    } else if t1 == [] || t2 == [] {
      FirstKeyIsPresent(t1);
      FirstKeyIsPresent(t2);
      assert false;
    } else {
      SortedHeadsAgree(t1, t2);
      TailsAgree(t1, t2);
      SortedTail(t1);
      SortedTail(t2);
      StableOrderIsUnique(t1[1..], t2[1..]);
      assert t1 == [t1[0]] + t1[1..] && t2 == [t2[0]] + t2[1..];
    }
  }

  /**
    `SortPipelines` is the only order that is sorted and keeps every key's pipelines in input
    order: any list with both properties is its result.
   */
  lemma SortIsTheStableSort(s: seq<Pipeline>, r: seq<Pipeline>)
    requires Sorted(r)
    requires forall b: bool, n: string :: WithKey(r, b, n) == WithKey(s, b, n)
    ensures r == SortPipelines(s)
  {
    forall b: bool, n: string ensures WithKey(r, b, n) == WithKey(SortPipelines(s), b, n) {
      SortIsStable(s, b, n);
    }
    StableOrderIsUnique(r, SortPipelines(s));
  }
}
