/**
  Multiplying out a box of possible values (translate.py:137-154): every choice of
  one value per variable is listed exactly once.  Variables with a single value
  come first, so the in-place update of the only assignment takes its value from a
  set that still holds it.
 */
module BoxEnumeration {
  import opened Wrappers
  import opened SasTasks = SasTasks
  import opened Conditions

  predicate IsChoice(box: Box, ks: set<int>, m: Condition) {
    m.Keys == ks && forall v :: v in ks ==> v in box && m[v] in box[v]
  }

  /** `flat` lists each choice of values for the variables in `ks` once. */
  ghost predicate Enumerates(box: Box, ks: set<int>, flat: seq<Condition>) {
    (forall m :: m in flat <==> IsChoice(box, ks, m)) && Distinct(flat)
  }

  function KeySet(keys: seq<int>): set<int> {
    set v | v in keys
  }

  predicate AscendingSizes(box: Box, keys: seq<int>) {
    && (forall i :: 0 <= i < |keys| ==> keys[i] in box)
    && (forall i, j :: 0 <= i < j < |keys| ==> |box[keys[i]]| <= |box[keys[j]]|)
  }

  /** The keys, fewest values first. */
  method SortedBySize(box: Box) returns (keys: seq<int>)
    ensures Distinct(keys) && KeySet(keys) == box.Keys && AscendingSizes(box, keys)
  {
    keys := [];
    var rest := box;
    while rest.Keys != {}
      invariant rest.Keys <= box.Keys && (forall v :: v in rest ==> rest[v] == box[v])
      invariant forall v :: v in keys <==> v in box && v !in rest
      invariant Distinct(keys) && AscendingSizes(box, keys)
      invariant forall i, v :: 0 <= i < |keys| && v in rest ==> |box[keys[i]]| <= |box[v]|
      decreases |rest.Keys|
    {
      var v := Smallest(rest);
      forall i | 0 <= i < |keys| ensures keys[i] != v { assert keys[i] in keys; }
      var next := rest - {v};
      assert next.Keys == rest.Keys - {v};
      rest := next;
      keys := keys + [v];
    }
    assert forall v :: v in KeySet(keys) <==> v in box.Keys;
  }

  function ExpandOne(m: Condition, v: int, vals: seq<int>): (r: seq<Condition>)
    ensures |r| == |vals| && forall i :: 0 <= i < |r| ==> r[i] == m[v := vals[i]]
  {
    if vals == [] then [] else ExpandOne(m, v, vals[..|vals| - 1]) + [m[v := vals[|vals| - 1]]]
  }

  /** Every assignment extended by every value. */
  function Expand(flat: seq<Condition>, v: int, vals: seq<int>): seq<Condition> {
    if flat == [] then [] else Expand(flat[..|flat| - 1], v, vals) + ExpandOne(flat[|flat| - 1], v, vals)
  }

  ghost predicate Extends(flat: seq<Condition>, v: int, vals: seq<int>, m: Condition) {
    exists c, x :: c in flat && x in vals && m == c[v := x]
  }

  lemma InExpandOne(c: Condition, v: int, vals: seq<int>, m: Condition)
    ensures m in ExpandOne(c, v, vals) <==> Extends([c], v, vals, m)
  {
    var r := ExpandOne(c, v, vals);
    if m in r {
      var i :| 0 <= i < |r| && r[i] == m;
      var x := vals[i];
      assert c in [c] && x in vals && m == c[v := x];
    }
    if Extends([c], v, vals, m) {
      var d, x :| d in [c] && x in vals && m == d[v := x];
      var i :| 0 <= i < |vals| && vals[i] == x;
      assert r[i] == m;
    }
  }

  lemma {:induction false} InExpand(flat: seq<Condition>, v: int, vals: seq<int>, m: Condition)
    ensures m in Expand(flat, v, vals) <==> Extends(flat, v, vals, m)
  {
    if flat != [] {
      var front, last := flat[..|flat| - 1], flat[|flat| - 1];
      InExpand(front, v, vals, m);
      InExpandOne(last, v, vals, m);
      assert flat == front + [last];
      if Extends(front, v, vals, m) {
        var c, x :| c in front && x in vals && m == c[v := x];
        assert c in flat;
      }
      if Extends([last], v, vals, m) {
        var c, x :| c in [last] && x in vals && m == c[v := x];
        assert c in flat;
      }
      if Extends(flat, v, vals, m) {
        var c, x :| c in flat && x in vals && m == c[v := x];
        assert c in front || c in [last];
      }
    }
  }

  lemma SameExtension(c: Condition, d: Condition, v: int, x: int, y: int)
    requires v !in c && v !in d && c[v := x] == d[v := y]
    ensures c == d && x == y
  {
    var e, f := c[v := x], d[v := y];
    assert e[v] == f[v];
    assert c.Keys == e.Keys - {v} && d.Keys == f.Keys - {v};
    forall u | u in c ensures c[u] == d[u] { assert e[u] == f[u]; }
  }

  lemma {:induction false} ExpandDistinct(flat: seq<Condition>, v: int, vals: seq<int>)
    requires Distinct(flat) && Distinct(vals) && forall c :: c in flat ==> v !in c
    ensures Distinct(Expand(flat, v, vals))
  {
    if flat != [] {
      var front, last := flat[..|flat| - 1], flat[|flat| - 1];
      ExpandDistinct(front, v, vals);
      var a, b := Expand(front, v, vals), ExpandOne(last, v, vals);
      forall i, j | 0 <= i < |a| && 0 <= j < |b| ensures a[i] != b[j] {
        InExpand(front, v, vals, a[i]);
        var c, x :| c in front && x in vals && a[i] == c[v := x];
        assert c in flat && last in flat && c != last;
        if a[i] == b[j] { SameExtension(c, last, v, x, vals[j]); }
      }
      forall i, j | 0 <= i < j < |b| ensures b[i] != b[j] {
        assert last in flat;
        if b[i] == b[j] { SameExtension(last, last, v, vals[i], vals[j]); }
      }
    }
  }

  lemma ExpandEnumerates(box: Box, ks: set<int>, flat: seq<Condition>, v: int, vals: seq<int>)
    requires Enumerates(box, ks, flat) && v !in ks && v in box
    requires Distinct(vals) && forall x :: x in vals <==> x in box[v]
    ensures Enumerates(box, ks + {v}, Expand(flat, v, vals))
  {
    forall c | c in flat ensures v !in c { assert IsChoice(box, ks, c); }
    ExpandDistinct(flat, v, vals);
    hide Distinct;
    forall m ensures m in Expand(flat, v, vals) <==> IsChoice(box, ks + {v}, m) {
      InExpand(flat, v, vals, m);
      ChoiceExtends(box, ks, flat, v, vals, m);
    }
  }

  lemma ChoiceExtends(box: Box, ks: set<int>, flat: seq<Condition>, v: int, vals: seq<int>, m: Condition)
    requires Enumerates(box, ks, flat) && v !in ks && v in box && forall x :: x in vals <==> x in box[v]
    ensures Extends(flat, v, vals, m) <==> IsChoice(box, ks + {v}, m)
  {
    hide Distinct;
    if Extends(flat, v, vals, m) {
      var c, x :| c in flat && x in vals && m == c[v := x];
      assert IsChoice(box, ks, c);
    }
    if IsChoice(box, ks + {v}, m) {
      ChoiceSplits(box, ks, v, m);
      var c, x := m - {v}, m[v];
      assert c in flat && x in vals && m == c[v := x];
    }
  }

  lemma ChoiceSplits(box: Box, ks: set<int>, v: int, m: Condition)
    requires IsChoice(box, ks + {v}, m) && v !in ks
    ensures IsChoice(box, ks, m - {v}) && m == (m - {v})[v := m[v]] && m[v] in box[v]
  {
    assert v in ks + {v};
  }

  lemma SingleEnumerates(box: Box, ks: set<int>, flat: seq<Condition>, v: int, x: int)
    requires Enumerates(box, ks, flat) && |flat| == 1 && v !in ks && v in box && |box[v]| == 1 && x in box[v]
    ensures Enumerates(box, ks + {v}, [flat[0][v := x]])
  {
    var rest := box[v] - {x};
    assert |rest| == 0;
    forall y | y in box[v] ensures y == x { assert y == x || y in rest; }
    assert Expand(flat, v, [x]) == Expand(flat[..0], v, [x]) + ExpandOne(flat[0], v, [x]);
    assert ExpandOne(flat[0], v, [x]) == [flat[0][v := x]];
    ExpandEnumerates(box, ks, flat, v, [x]);
  }

  /** Set the single value of `v` in the only assignment. */
  method SetSingle(box: Box, ghost ks: set<int>, flat: seq<Condition>, v: int) returns (r: seq<Condition>)
    requires Enumerates(box, ks, flat) && |flat| == 1 && v !in ks && v in box && |box[v]| == 1
    ensures Enumerates(box, ks + {v}, r) && |r| == 1
  {
    hide Enumerates;
    var vals := box[v];
    r := flat;
    for i := 0 to |flat|
      invariant |r| == 1 && (i == 0 ==> vals == box[v] && r == flat)
      invariant i == 1 ==> Enumerates(box, ks + {v}, r)
    {
      assert |vals| == 1;
      var x := Pop(vals);
      vals := vals - {x};
      SingleEnumerates(box, ks, flat, v, x);
      r := r[i := r[i][v := x]];
      assert r == [flat[0][v := x]];
    }
  }

  /** `set.pop`: the set must not be empty. */
  method Pop(vals: set<int>) returns (x: int)
    requires |vals| != 0
    ensures x in vals
  {
    ghost var some := Member(vals);
    x :| x in vals;
  }

  method ExpandAll(flat: seq<Condition>, v: int, vals: seq<int>) returns (r: seq<Condition>)
    ensures r == Expand(flat, v, vals)
  {
    r := [];
    for i := 0 to |flat|
      invariant r == Expand(flat[..i], v, vals)
    {
      ghost var before := r;
      for j := 0 to |vals|
        invariant r == before + ExpandOne(flat[i], v, vals[..j])
      {
        assert vals[..j + 1][..j] == vals[..j];
        r := r + [flat[i][v := vals[j]]];
      }
      assert vals[..|vals|] == vals;
      assert flat[..i + 1][..i] == flat[..i];
    }
    assert flat[..|flat|] == flat;
  }

  method MultiplyOut(box: Box) returns (flat: seq<Condition>)
    requires forall v :: v in box ==> box[v] != {}
    ensures Enumerates(box, box.Keys, flat)
  {
    hide Enumerates;
    var keys := SortedBySize(box);
    flat := [map[]];
    EmptyChoice(box);
    for k := 0 to |keys|
      invariant Enumerates(box, KeySet(keys[..k]), flat)
      invariant (forall j :: 0 <= j < k ==> |box[keys[j]]| == 1) ==> |flat| == 1
    {
      var v := keys[k];
      assert v !in keys[..k] && v in box;
      assert KeySet(keys[..k + 1]) == KeySet(keys[..k]) + {v};
      if |box[v]| == 1 {
        forall j | 0 <= j < k ensures |box[keys[j]]| == 1 {
          ghost var some := Member(box[keys[j]]);
          assert |box[keys[j]]| <= |box[keys[k]]|;
        }
        flat := SetSingle(box, KeySet(keys[..k]), flat, v);
      } else {
        var vals := ListOf(box[v]);
        ExpandEnumerates(box, KeySet(keys[..k]), flat, v, vals);
        flat := ExpandAll(flat, v, vals);
      }
    }
    assert keys[..|keys|] == keys;
  }

  lemma EmptyChoice(box: Box)
    ensures Enumerates(box, KeySet([]), [map[]])
  {
    forall m: Condition ensures m in [map[]] <==> IsChoice(box, KeySet([]), m) {
      assert KeySet([]) == {};
      if m.Keys == {} { assert m == map[]; }
    }
  }

  /** A state lies in the box exactly when it satisfies one of the choices, and it
      then satisfies no other. */
  lemma EnumerationIsExact(ranges: seq<int>, box: Box, flat: seq<Condition>)
    requires ValidBox(ranges, box) && Enumerates(box, box.Keys, flat)
    ensures ValidMaps(ranges, flat) && Exclusive(flat)
    ensures forall s: State :: InBox(s, box) <==> Picks(s, flat)
  {
    forall i | 0 <= i < |flat| ensures ValidMap(ranges, flat[i]) {
      assert IsChoice(box, box.Keys, flat[i]);
    }
    forall s: State ensures InBox(s, box) <==> Picks(s, flat) {
      if Picks(s, flat) {
        var i :| 0 <= i < |flat| && SatMap(s, flat[i]);
        assert IsChoice(box, box.Keys, flat[i]);
        forall v | v in box ensures 0 <= v < |s| && s[v] in box[v] {
          assert v in flat[i];
        }
      }
      if InBox(s, box) {
        BoxIsPicked(s, box, flat);
      }
    }
    forall s: State, i, j | 0 <= i < |flat| && 0 <= j < |flat| && SatMap(s, flat[i]) && SatMap(s, flat[j])
      ensures i == j
    {
      assert IsChoice(box, box.Keys, flat[i]) && IsChoice(box, box.Keys, flat[j]);
      forall v | v in box ensures flat[i][v] == flat[j][v] { assert v in flat[i] && v in flat[j]; }
      assert flat[i] == flat[j];
    }
  }

  lemma BoxIsPicked(s: State, box: Box, flat: seq<Condition>)
    requires InBox(s, box) && Enumerates(box, box.Keys, flat)
    ensures Picks(s, flat)
  {
    var m: Condition := map v | v in box :: s[v];
    assert IsChoice(box, box.Keys, m);
    var i :| 0 <= i < |flat| && flat[i] == m;
    assert SatMap(s, flat[i]);
  }

  /** A box with one value per variable has one choice. */
  lemma OneChoice(box: Box, flat: seq<Condition>)
    requires SingleValued(box) && Enumerates(box, box.Keys, flat)
    ensures |flat| == 1
  {
    forall m, n | IsChoice(box, box.Keys, m) && IsChoice(box, box.Keys, n) ensures m == n {
      forall v | v in box ensures m[v] == n[v] { OneMember(box[v], m[v], n[v]); }
    }
    var some: Condition := map v | v in box :: SomeMember(box[v]);
    forall v | v in box ensures box[v] != {} { }
    assert IsChoice(box, box.Keys, some) && some in flat;
    forall i | 0 <= i < |flat| ensures flat[i] == some { assert flat[i] in flat; }
    EndsDiffer(flat);
  }

  /** A box with values has one choice exactly when each variable has one value. */
  lemma SingleIffOneChoice(box: Box, flat: seq<Condition>)
    requires Enumerates(box, box.Keys, flat) && forall v :: v in box ==> box[v] != {}
    ensures |flat| == 1 <==> SingleValued(box)
  {
    if SingleValued(box) { OneChoice(box, flat); }
    if |flat| == 1 {
      var m := flat[0];
      assert m in flat && IsChoice(box, box.Keys, m);
      forall v | v in box ensures |box[v]| == 1 {
        forall x | x in box[v] ensures x == m[v] {
          assert IsChoice(box, box.Keys, m[v := x]);
          assert m[v := x] in flat && m[v := x] == m;
        }
        assert box[v] == {m[v]};
      }
    }
  }

  lemma EndsDiffer(flat: seq<Condition>)
    requires Distinct(flat) && flat != []
    ensures |flat| == 1 || flat[0] != flat[|flat| - 1]
  {
  }

  ghost function SomeMember(s: set<int>): (x: int)
    ensures s != {} ==> x in s
  {
    if s == {} then 0 else Least(s)
  }

  lemma OneMember(s: set<int>, x: int, y: int)
    requires |s| == 1 && x in s && y in s
    ensures x == y
  {
    assert |s - {x}| == 0;
    assert y == x || y in s - {x};
  }
}
