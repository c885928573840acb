/** `zval_to_map_key`, and what the keys do to a decoded MAP. */
module MapKeys {
  import opened PhpValues
  import opened Wrappers

  /** The parts a key is made of: an empty array counts as one empty leaf. */
  function Leaves(lib: Lib, v: Php): (r: seq<string>)
    ensures |r| > 0
    decreases v, 1
  {
    match v
    case Arr(es) => if es == [] then [""] else LeavesOf(lib, v, |es|)
    case _ => [Text(lib, v)]
  }

  /** The leaves of the first `n` elements. */
  function LeavesOf(lib: Lib, v: Php, n: nat): (r: seq<string>)
    requires v.Arr? && n <= |v.entries|
    ensures n > 0 ==> |r| > 0
    decreases v, 0, n
  {
    if n == 0 then [] else LeavesOf(lib, v, n - 1) + Leaves(lib, v.entries[n - 1].value)
  }

  function Join(parts: seq<string>): string
    requires |parts| > 0
  {
    if |parts| == 1 then parts[0] else Join(parts[..|parts| - 1]) + ", " + parts[|parts| - 1]
  }

  /** The key text of a value. */
  function KeyText(lib: Lib, v: Php): string {
    Join(Leaves(lib, v))
  }

  lemma {:induction false} JoinConcat(a: seq<string>, b: seq<string>)
    requires |a| > 0 && |b| > 0
    ensures Join(a + b) == Join(a) + ", " + Join(b)
    decreases |b|
  {
    var ab := a + b;
    if |b| == 1 {
      assert ab[..|ab| - 1] == a;
    } else {
      var b' := b[..|b| - 1];
      JoinConcat(a, b');
      assert ab[..|ab| - 1] == a + b';
      assert Join(a) + ", " + (Join(b') + ", " + b[|b| - 1]) == Join(a) + ", " + Join(b') + ", " + b[|b| - 1];
    }
  }

  /** The loop over an array builds the joined leaves, however the array nests. */
  method ZvalToMapKey(lib: Lib, zv: Php) returns (key: string)
    ensures key == KeyText(lib, zv)
    decreases zv
  {
    if !zv.Arr? {
      return Text(lib, zv);
    }
    var result: Option<string> := None;
    for i := 0 to |zv.entries|
      invariant result == if i == 0 then None else Some(Join(LeavesOf(lib, zv, i)))
    {
      var val := zv.entries[i].value;
      var part;
      if val.Arr? {
        part := ZvalToMapKey(lib, val);
      } else {
        part := Text(lib, val);
      }
      if result.None? {
        assert LeavesOf(lib, zv, 1) == Leaves(lib, val);
        result := Some(part);
      } else {
        JoinConcat(LeavesOf(lib, zv, i), Leaves(lib, val));
        result := Some(result.value + ", " + part);
      }
    }
    key := if result.None? then "" else result.value;
  }

  /** Nesting does not show in a key: an array keys like the flat list of its leaves,
      so `[["a"], "b"]` and `["a", ["b"]]` collide. */
  lemma {:induction false} KeysIgnoreNesting(lib: Lib, nested: Php, flat: Php)
    requires nested.Arr? && flat.Arr? && |flat.entries| == |Leaves(lib, nested)|
    requires forall k :: 0 <= k < |flat.entries| ==> flat.entries[k].value == Str(Leaves(lib, nested)[k])
    ensures KeyText(lib, flat) == KeyText(lib, nested)
  {
    FlatLeaves(lib, flat, |flat.entries|);
    assert Leaves(lib, flat) == Leaves(lib, nested);
  }

  lemma {:induction false} FlatLeaves(lib: Lib, flat: Php, n: nat)
    requires flat.Arr? && n <= |flat.entries|
    requires forall k :: 0 <= k < |flat.entries| ==> flat.entries[k].value.Str?
    ensures |LeavesOf(lib, flat, n)| == n
    ensures forall k :: 0 <= k < n ==> LeavesOf(lib, flat, n)[k] == flat.entries[k].value.s
  {
    if n > 0 {
      FlatLeaves(lib, flat, n - 1);
    }
  }

  lemma {:induction false} LeavesOfInit(lib: Lib, v: Php, w: Php, n: nat)
    requires v.Arr? && w.Arr? && n <= |v.entries| && n <= |w.entries|
    requires forall k :: 0 <= k < n ==> v.entries[k].value == w.entries[k].value
    ensures LeavesOf(lib, v, n) == LeavesOf(lib, w, n)
  {
    if n > 0 {
      LeavesOfInit(lib, v, w, n - 1);
    }
  }

  /** The key of an array is the keys of its elements, in order, with ", " in between. */
  lemma {:induction false} KeyOfArray(lib: Lib, es: seq<Entry>, e: Entry)
    ensures KeyText(lib, Arr(es + [e])) ==
            (if es == [] then "" else KeyText(lib, Arr(es)) + ", ") + KeyText(lib, e.value)
  {
    var v, w := Arr(es + [e]), Arr(es);
    LeavesOfInit(lib, v, w, |es|);
    assert Leaves(lib, v) == LeavesOf(lib, v, |es|) + Leaves(lib, e.value);
    if es == [] {
      assert [] + Leaves(lib, e.value) == Leaves(lib, e.value);
      assert "" + KeyText(lib, e.value) == KeyText(lib, e.value);
    } else {
      JoinConcat(LeavesOf(lib, w, |es|), Leaves(lib, e.value));
    }
  }

  // ---------------------------------------------------------------- last one wins

  /** Adding named values one after the other, the first `n` of them. */
  function AddAll(names: seq<string>, vs: seq<Php>, n: nat): seq<Entry>
    requires n <= |names| == |vs|
  {
    if n == 0 then [] else AddAssoc(AddAll(names, vs, n - 1), names[n - 1], vs[n - 1])
  }

  /** The names without repetitions, each where it first came. */
  function Firsts(names: seq<string>): (r: seq<string>)
    ensures forall s :: s in r <==> s in names
    ensures |r| <= |names|
  {
    if names == [] then [] else
      var init, last := names[..|names| - 1], names[|names| - 1];
      assert names == init + [last];
      if last in init then Firsts(init) else Firsts(init) + [last]
  }

  /** The last value under a name. */
  function LastValue(names: seq<string>, vs: seq<Php>, name: string): Php
    requires |names| == |vs| && name in names
  {
    var k := |names| - 1;
    if names[k] == name then vs[k] else LastValue(names[..k], vs[..k], name)
  }

  predicate Distinct(names: seq<string>) {
    forall i, j :: 0 <= i < j < |names| ==> names[i] != names[j]
  }

  lemma {:induction false} AddAssocNew(es: seq<Entry>, name: string, v: Php)
    requires forall k :: 0 <= k < |es| ==> es[k].key != Name(name)
    ensures AddAssoc(es, name, v) == es + [Entry(Name(name), v)]
  {
    if es != [] {
      AddAssocNew(es[1..], name, v);
      assert es == [es[0]] + es[1..];
    }
  }

  lemma {:induction false} AddAssocOld(es: seq<Entry>, name: string, v: Php, k: nat)
    requires k < |es| && es[k].key == Name(name)
    requires forall l :: 0 <= l < k ==> es[l].key != Name(name)
    ensures AddAssoc(es, name, v) == es[k := Entry(Name(name), v)]
  {
    if k > 0 {
      AddAssocOld(es[1..], name, v, k - 1);
    }
  }

  lemma {:induction false} FirstsDistinct(names: seq<string>)
    ensures Distinct(Firsts(names))
    ensures |Firsts(names)| == |names| <==> Distinct(names)
  {
    if names != [] {
      var init, last := names[..|names| - 1], names[|names| - 1];
      FirstsDistinct(init);
      if last in init {
        var i :| 0 <= i < |init| && init[i] == last;
        assert names[i] == names[|names| - 1];
      } else {
        assert forall i :: 0 <= i < |init| ==> names[i] == init[i] != last;
      }
    }
  }

  /** `es` holds one entry for each name of `ks`, with its last value. */
  predicate Holds(es: seq<Entry>, ks: seq<string>, names: seq<string>, vs: seq<Php>)
    requires |names| == |vs| && forall s :: s in ks ==> s in names
  {
    |es| == |ks| && forall k :: 0 <= k < |es| ==> es[k] == Entry(Name(ks[k]), LastValue(names, vs, ks[k]))
  }

  lemma {:induction false} HoldsAfter(es: seq<Entry>, names: seq<string>, vs: seq<Php>)
    requires |names| == |vs| > 0
    requires var init := names[..|names| - 1]; Holds(es, Firsts(init), init, vs[..|vs| - 1])
    ensures Holds(AddAssoc(es, names[|names| - 1], vs[|vs| - 1]), Firsts(names), names, vs)
  {
    var init, name, v := names[..|names| - 1], names[|names| - 1], vs[|vs| - 1];
    var ks := Firsts(init);
    FirstsDistinct(init);
    if name in init {
      var k :| 0 <= k < |ks| && ks[k] == name;
      AddAssocOld(es, name, v, k);
    } else {
      forall k | 0 <= k < |es| ensures es[k].key != Name(name) {
        assert ks[k] in ks;
      }
      AddAssocNew(es, name, v);
      assert forall k :: 0 <= k < |ks| ==> ks[k] in ks;
    }
  }

  /** A MAP keeps one entry a key, in the order the keys first came, each with its last
      value; it keeps every entry exactly when the keys are distinct. */
  lemma {:induction false} LastOneWins(names: seq<string>, vs: seq<Php>)
    requires |names| == |vs|
    ensures Holds(AddAll(names, vs, |names|), Firsts(names), names, vs)
    ensures |AddAll(names, vs, |names|)| == |names| <==> Distinct(names)
  {
    FirstsDistinct(names);
    if names != [] {
      var n := |names| - 1;
      LastOneWins(names[..n], vs[..n]);
      AddAllPrefix(names, vs, n, n);
      HoldsAfter(AddAll(names, vs, n), names, vs);
    }
  }

  lemma {:induction false} AddAllPrefix(names: seq<string>, vs: seq<Php>, m: nat, n: nat)
    requires n <= m <= |names| == |vs|
    ensures AddAll(names[..m], vs[..m], n) == AddAll(names, vs, n)
  {
    if n > 0 {
      AddAllPrefix(names, vs, m, n - 1);
    }
  }
}
