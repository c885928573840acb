/** Writing a column of values into vectors, and reading it back. */
module RoundTrip {
  import opened Columns
  import opened Decoder
  import opened PhpReading
  import opened PhpValues
  import opened SplitIntegers
  import opened Wrappers

  // ---------------------------------------------------------------- how deep VARIANT nests

  function Max(a: nat, b: nat): nat { if a > b then a else b }

  function DepthOf(xs: seq<Val>): (d: nat)
    ensures forall k :: 0 <= k < |xs| ==> Depth(xs[k]) <= d
    decreases xs, 0
  {
    if xs == [] then 0 else
      var init := DepthOf(xs[..|xs| - 1]);
      assert forall k :: 0 <= k < |xs| - 1 ==> xs[k] == xs[..|xs| - 1][k];
      Max(init, Depth(xs[|xs| - 1]))
  }

  function Depth(x: Val): nat
    decreases x, 1
  {
    match x
    case VList(es) => DepthOf(es)
    case VStruct(fs) => DepthOf(fs)
    case VMap(ks, vs) => Max(DepthOf(ks), DepthOf(vs))
    case VUnion(_, y) => Depth(y)
    case VVariant(_, y) => 1 + Depth(y)
    case _ => 0
  }

  predicate Within(xs: seq<Val>, d: nat) {
    forall k :: 0 <= k < |xs| ==> Depth(xs[k]) <= d
  }

  lemma {:induction false} DepthWithin(xs: seq<Val>, d: nat)
    requires Within(xs, d)
    ensures DepthOf(xs) <= d
  {
    if xs != [] {
      DepthWithin(xs[..|xs| - 1], d);
    }
  }

  // ---------------------------------------------------------------- shredding

  function Flatten(pieces: seq<seq<Val>>): seq<Val> {
    if pieces == [] then [] else Flatten(pieces[..|pieces| - 1]) + pieces[|pieces| - 1]
  }

  /** A list's elements, none for NULL. */
  function Elems(x: Val): seq<Val> { if x.VList? then x.elems else [] }
  function Keys(x: Val): seq<Val> { if x.VMap? then x.keys else [] }
  function Values(x: Val): seq<Val> { if x.VMap? then x.values else [] }

  /** An array's elements; NULL still takes up the whole stride. */
  function Strided(x: Val, n: nat): seq<Val> {
    if x.VList? then x.elems else seq(n, _ => VNull)
  }

  function Member(x: Val, k: nat): Val {
    if x.VStruct? && k < |x.fields| then x.fields[k] else VNull
  }

  function Chosen(x: Val, k: nat): Val {
    if x.VUnion? && x.tag == k then x.member else VNull
  }

  function ElemPieces(xs: seq<Val>): seq<seq<Val>> { seq(|xs|, i requires 0 <= i < |xs| => Elems(xs[i])) }
  function KeyPieces(xs: seq<Val>): seq<seq<Val>> { seq(|xs|, i requires 0 <= i < |xs| => Keys(xs[i])) }
  function ValuePieces(xs: seq<Val>): seq<seq<Val>> { seq(|xs|, i requires 0 <= i < |xs| => Values(xs[i])) }
  function Strides(xs: seq<Val>, n: nat): seq<seq<Val>> { seq(|xs|, i requires 0 <= i < |xs| => Strided(xs[i], n)) }
  function Members(xs: seq<Val>, k: nat): seq<Val> { seq(|xs|, i requires 0 <= i < |xs| => Member(xs[i], k)) }
  function Choices(xs: seq<Val>, k: nat): seq<Val> { seq(|xs|, i requires 0 <= i < |xs| => Chosen(xs[i], k)) }

  /** Offsets into the flattened children; a NULL row points out of range. */
  function Entries(xs: seq<Val>, pieces: seq<seq<Val>>): seq<ListEntry>
    requires |xs| == |pieces|
  {
    seq(|xs|, i requires 0 <= i < |xs| =>
      if xs[i].VNull? then ListEntry(|Flatten(pieces)| + 1, 1)
      else ListEntry(|Flatten(pieces[..i])|, |pieces[i]|))
  }

  function Halves(n: int): Split { Split(n / TWO_64, n % TWO_64) }

  function ShredScalar(s: Scalar, x: Val): Cell {
    match x
    case VBool(b) => BoolCell(b)
    case VInt(n) => IntCell(n)
    case VBig(n, _) => if s.Decimal? && s.storage != Int128 then IntCell(n) else SplitCell(Halves(n))
    case VFloat(f) => FloatCell(f)
    case VBytes(bs) => BytesCell(bs)
    case _ => IntCell(0)
  }

  function ShredTag(x: Val): Cell {
    match x
    case VUnion(tag, _) => IntCell(tag)
    case VNoMember(tag) => IntCell(tag)
    case _ => IntCell(0)
  }

  function TextOf(x: Val): Option<string> {
    match x
    case VBig(_, text) => text
    case VText(text) => text
    case _ => None
  }

  function Header(xs: seq<Val>, data: Data): Vec {
    Vec(seq(|xs|, i requires 0 <= i < |xs| => !xs[i].VNull?),
        seq(|xs|, i requires 0 <= i < |xs| => TextOf(xs[i])),
        data)
  }

  /** The vector of a column of values. Types shrink on the way down, except below
      VARIANT, where the depth of VARIANT in the values does. */
  function Shred(t: LType, xs: seq<Val>): (v: Vec)
    requires AllHaveType(t, xs)
    ensures |v.valid| == |xs|
    decreases DepthOf(xs), t, 1
  {
    Header(xs,
      if IsText(t) || t.kind.Any? then Cells([])
      else match t.kind
        case Plain(s) => Cells(seq(|xs|, i requires 0 <= i < |xs| => ShredScalar(s, xs[i])))
        case List(et) =>
          var pieces := ElemPieces(xs);
          ListFits(t, xs);
          Lists(Entries(xs, pieces), Shred(et, Flatten(pieces)))
        case Struct(fs) =>
          Children(seq(|fs|, k requires 0 <= k < |fs| =>
            MembersFit(t, xs, k); Shred(fs[k].typ, Members(xs, k))))
        case Map(kt, vt) =>
          var ks, vs := KeyPieces(xs), ValuePieces(xs);
          MapFits(t, xs);
          Lists(Entries(xs, ks), Vec([], [], Children([Shred(kt, Flatten(ks)), Shred(vt, Flatten(vs))])))
        case Union(ms) =>
          Children([Vec([], [], Cells(seq(|xs|, i requires 0 <= i < |xs| => ShredTag(xs[i]))))] +
            seq(|ms|, k requires 0 <= k < |ms| =>
              ChosenFit(t, xs, k); Shred(ms[k].typ, Choices(xs, k))))
        case Array(et, n) =>
          var pieces := Strides(xs, n);
          ArrayFits(t, xs);
          Fixed(Shred(et, Flatten(pieces)))
        case Variant =>
          Variants(seq(|xs|, i requires 0 <= i < |xs| =>
            if xs[i].VVariant? then
              assert HasType(t, xs[i]);
              DepthWithin([xs[i].value], Depth(xs[i].value));
              Typed(xs[i].typ, Shred(xs[i].typ, [xs[i].value]))
            else Untyped)))
  }

  // Children flattened out of a column have the child type and no more depth.

  lemma {:induction false} ListFits(t: LType, xs: seq<Val>)
    requires AllHaveType(t, xs) && !IsText(t) && t.kind.List?
    ensures var child := Flatten(ElemPieces(xs));
            AllHaveType(t.kind.elem, child) && DepthOf(child) <= DepthOf(xs)
  {
    forall i | 0 <= i < |xs| ensures AllHaveType(t.kind.elem, Elems(xs[i])) && Within(Elems(xs[i]), DepthOf(xs)) {
      assert HasType(t, xs[i]);
    }
    FlattenFits(t.kind.elem, ElemPieces(xs), DepthOf(xs));
    DepthWithin(Flatten(ElemPieces(xs)), DepthOf(xs));
  }

  lemma {:induction false} MapFits(t: LType, xs: seq<Val>)
    requires AllHaveType(t, xs) && !IsText(t) && t.kind.Map?
    ensures var ks, vs := Flatten(KeyPieces(xs)), Flatten(ValuePieces(xs));
            && AllHaveType(t.kind.key, ks) && DepthOf(ks) <= DepthOf(xs)
            && AllHaveType(t.kind.value, vs) && DepthOf(vs) <= DepthOf(xs)
  {
    forall i | 0 <= i < |xs|
      ensures AllHaveType(t.kind.key, Keys(xs[i])) && Within(Keys(xs[i]), DepthOf(xs))
      ensures AllHaveType(t.kind.value, Values(xs[i])) && Within(Values(xs[i]), DepthOf(xs))
    {
      assert HasType(t, xs[i]);
    }
    FlattenFits(t.kind.key, KeyPieces(xs), DepthOf(xs));
    FlattenFits(t.kind.value, ValuePieces(xs), DepthOf(xs));
    DepthWithin(Flatten(KeyPieces(xs)), DepthOf(xs));
    DepthWithin(Flatten(ValuePieces(xs)), DepthOf(xs));
  }

  lemma {:induction false} ArrayFits(t: LType, xs: seq<Val>)
    requires AllHaveType(t, xs) && !IsText(t) && t.kind.Array?
    ensures var child := Flatten(Strides(xs, t.kind.size));
            AllHaveType(t.kind.elem, child) && DepthOf(child) <= DepthOf(xs)
  {
    var pieces := Strides(xs, t.kind.size);
    forall i | 0 <= i < |xs| ensures AllHaveType(t.kind.elem, pieces[i]) && Within(pieces[i], DepthOf(xs)) {
      assert HasType(t, xs[i]);
    }
    FlattenFits(t.kind.elem, pieces, DepthOf(xs));
    DepthWithin(Flatten(pieces), DepthOf(xs));
  }

  lemma {:induction false} FlattenFits(et: LType, pieces: seq<seq<Val>>, d: nat)
    requires forall i :: 0 <= i < |pieces| ==> AllHaveType(et, pieces[i]) && Within(pieces[i], d)
    ensures AllHaveType(et, Flatten(pieces)) && Within(Flatten(pieces), d)
  {
    if pieces != [] {
      FlattenFits(et, pieces[..|pieces| - 1], d);
    }
  }

  lemma {:induction false} MembersFit(t: LType, xs: seq<Val>, k: nat)
    requires AllHaveType(t, xs) && !IsText(t) && t.kind.Struct? && k < |t.kind.fields|
    ensures var column := Members(xs, k);
            AllHaveType(t.kind.fields[k].typ, column) && DepthOf(column) <= DepthOf(xs)
  {
    DepthWithin(Members(xs, k), DepthOf(xs));
  }

  lemma {:induction false} ChosenFit(t: LType, xs: seq<Val>, k: nat)
    requires AllHaveType(t, xs) && !IsText(t) && t.kind.Union? && k < |t.kind.members|
    ensures var column := Choices(xs, k);
            AllHaveType(t.kind.members[k].typ, column) && DepthOf(column) <= DepthOf(xs)
  {
    DepthWithin(Choices(xs, k), DepthOf(xs));
  }

  // ---------------------------------------------------------------- the round trip

  lemma {:induction false} FlattenAt(pieces: seq<seq<Val>>, i: nat)
    requires i < |pieces|
    ensures var lo := |Flatten(pieces[..i])|;
            lo + |pieces[i]| <= |Flatten(pieces)| && Flatten(pieces)[lo..lo + |pieces[i]|] == pieces[i]
  {
    var init := pieces[..|pieces| - 1];
    if i < |pieces| - 1 {
      FlattenAt(init, i);
      assert init[..i] == pieces[..i];
      var lo := |Flatten(pieces[..i])|;
      assert Flatten(pieces)[lo..lo + |pieces[i]|] == Flatten(init)[lo..lo + |pieces[i]|];
    }
  }

  lemma {:induction false} SameOffsets(a: seq<seq<Val>>, b: seq<seq<Val>>, i: nat)
    requires |a| == |b| && i <= |a| && forall k :: 0 <= k < |a| ==> |a[k]| == |b[k]|
    ensures |Flatten(a[..i])| == |Flatten(b[..i])|
  {
    if i > 0 {
      SameOffsets(a, b, i - 1);
      assert a[..i][..i - 1] == a[..i - 1] && b[..i][..i - 1] == b[..i - 1];
    }
  }

  lemma {:induction false} StrideOffset(pieces: seq<seq<Val>>, n: nat, i: nat)
    requires i <= |pieces| && forall k :: 0 <= k < |pieces| ==> |pieces[k]| == n
    ensures |Flatten(pieces[..i])| == i * n
  {
    if i > 0 {
      StrideOffset(pieces, n, i - 1);
      assert pieces[..i][..i - 1] == pieces[..i - 1];
      assert i * n == (i - 1) * n + n;
    }
  }

  /** A stretch of a shredded column reads back as the stretch. */
  lemma {:induction false} ReadStretch(t: LType, xs: seq<Val>, lo: nat, n: nat)
    requires AllHaveType(t, xs) && lo + n <= |xs|
    ensures ReadableRange(t, Shred(t, xs), lo, lo + n)
    ensures ReadRange(t, Shred(t, xs), lo, n) == xs[lo..lo + n]
    decreases DepthOf(xs), t, 2
  {
    forall j | lo <= j < lo + n ensures Readable(t, Shred(t, xs), j) && Read(t, Shred(t, xs), j) == xs[j] {
      ReadShredded(t, xs, j);
    }
  }

  lemma {:induction false} ReadList(t: LType, xs: seq<Val>, i: nat)
    requires AllHaveType(t, xs) && i < |xs| && !IsText(t) && t.kind.List? && !xs[i].VNull?
    ensures Readable(t, Shred(t, xs), i) && Read(t, Shred(t, xs), i) == xs[i]
    ensures var v := Shred(t, xs);
            var e := v.data.entries[i];
            v.valid[i] && ReadRange(t.kind.elem, v.data.child, e.offset, e.length) == xs[i].elems
    decreases DepthOf(xs), t, 0
  {
    var pieces := ElemPieces(xs);
    assert HasType(t, xs[i]);
    ListFits(t, xs);
    FlattenAt(pieces, i);
    ReadStretch(t.kind.elem, Flatten(pieces), |Flatten(pieces[..i])|, |xs[i].elems|);
  }

  lemma {:induction false} ReadStruct(t: LType, xs: seq<Val>, i: nat)
    requires AllHaveType(t, xs) && i < |xs| && !IsText(t) && t.kind.Struct? && !xs[i].VNull?
    ensures Readable(t, Shred(t, xs), i) && Read(t, Shred(t, xs), i) == xs[i]
    ensures var (v, fs) := (Shred(t, xs), t.kind.fields);
            v.valid[i] && forall k :: 0 <= k < |fs| ==> Read(fs[k].typ, v.data.children[k], i) == xs[i].fields[k]
    decreases DepthOf(xs), t, 0
  {
    var v, fs, x := Shred(t, xs), t.kind.fields, xs[i];
    assert HasType(t, x);
    forall k | 0 <= k < |fs|
      ensures Readable(fs[k].typ, v.data.children[k], i) && Read(fs[k].typ, v.data.children[k], i) == x.fields[k]
    {
      MembersFit(t, xs, k);
      ReadShredded(fs[k].typ, Members(xs, k), i);
    }
    assert Read(t, v, i).fields == x.fields;
  }

  lemma {:induction false} SameLengths(t: LType, xs: seq<Val>)
    requires AllHaveType(t, xs) && !IsText(t) && t.kind.Map?
    ensures forall k :: 0 <= k < |xs| ==> |KeyPieces(xs)[k]| == |ValuePieces(xs)[k]|
  {
  }

  /** Keys and values of a row lie at the same place in the two flattened columns. */
  lemma {:induction false} MapPieces(t: LType, xs: seq<Val>, i: nat)
    requires AllHaveType(t, xs) && i < |xs| && !IsText(t) && t.kind.Map? && !xs[i].VNull?
    ensures xs[i] == VMap(Keys(xs[i]), Values(xs[i])) && |Keys(xs[i])| == |Values(xs[i])|
    ensures var ks, vs := KeyPieces(xs), ValuePieces(xs);
            var lo, n := |Flatten(ks[..i])|, |Keys(xs[i])|;
            && lo + n <= |Flatten(ks)| && Flatten(ks)[lo..lo + n] == Keys(xs[i])
            && lo + n <= |Flatten(vs)| && Flatten(vs)[lo..lo + n] == Values(xs[i])
  {
    assert xs[i].VMap? by { assert HasType(t, xs[i]); }
    var ks, vs := KeyPieces(xs), ValuePieces(xs);
    SameLengths(t, xs);
    FlattenAt(ks, i);
    FlattenAt(vs, i);
    SameOffsets(ks, vs, i);
    assert ks[i] == Keys(xs[i]) && vs[i] == Values(xs[i]);
  }

  lemma {:induction false} ReadMap(t: LType, xs: seq<Val>, i: nat)
    requires AllHaveType(t, xs) && i < |xs| && !IsText(t) && t.kind.Map? && !xs[i].VNull?
    ensures Readable(t, Shred(t, xs), i) && Read(t, Shred(t, xs), i) == xs[i]
    ensures var v := Shred(t, xs);
            var (e, pair) := (v.data.entries[i], v.data.child.data.children);
            && v.valid[i]
            && ReadRange(t.kind.key, pair[0], e.offset, e.length) == xs[i].keys
            && ReadRange(t.kind.value, pair[1], e.offset, e.length) == xs[i].values
    decreases DepthOf(xs), t, 0
  {
    hide HasType, Read, ReadRange, Readable, Shred;
    MapFits(t, xs);
    MapPieces(t, xs, i);
    var kt, vt, ks, vs := t.kind.key, t.kind.value, Flatten(KeyPieces(xs)), Flatten(ValuePieces(xs));
    var lo, n := |Flatten(KeyPieces(xs)[..i])|, |Keys(xs[i])|;
    ReadStretch(kt, ks, lo, n);
    ReadStretch(vt, vs, lo, n);
    ShredMapShape(t, xs, i);
    ReadMapRow(t, Shred(t, xs), i, Shred(kt, ks), Shred(vt, vs), lo, n);
  }

  lemma {:induction false} ShredMapShape(t: LType, xs: seq<Val>, i: nat)
    requires AllHaveType(t, xs) && i < |xs| && !IsText(t) && t.kind.Map? && !xs[i].VNull?
    requires AllHaveType(t.kind.key, Flatten(KeyPieces(xs))) && AllHaveType(t.kind.value, Flatten(ValuePieces(xs)))
    ensures var ks, vs, v := KeyPieces(xs), ValuePieces(xs), Shred(t, xs);
            && |v.valid| == |v.texts| == |xs| && v.valid[i]
            && v.data.Lists? && |v.data.entries| == |xs|
            && v.data.entries[i] == ListEntry(|Flatten(ks[..i])|, |Keys(xs[i])|)
            && v.data.child.data == Children([Shred(t.kind.key, Flatten(ks)), Shred(t.kind.value, Flatten(vs))])
  {
  }

  lemma {:induction false} ReadMapRow(t: LType, v: Vec, i: nat, kv: Vec, vv: Vec, lo: nat, n: nat)
    requires !IsText(t) && t.kind.Map? && i < |v.valid| == |v.texts| && v.valid[i]
    requires v.data.Lists? && i < |v.data.entries| && v.data.entries[i] == ListEntry(lo, n)
    requires v.data.child.data == Children([kv, vv])
    requires ReadableRange(t.kind.key, kv, lo, lo + n) && ReadableRange(t.kind.value, vv, lo, lo + n)
    ensures Readable(t, v, i)
    ensures Read(t, v, i) == VMap(ReadRange(t.kind.key, kv, lo, n), ReadRange(t.kind.value, vv, lo, n))
  {
  }

  lemma {:induction false} ReadUnion(t: LType, xs: seq<Val>, i: nat)
    requires AllHaveType(t, xs) && i < |xs| && !IsText(t) && t.kind.Union? && !xs[i].VNull?
    ensures Readable(t, Shred(t, xs), i) && Read(t, Shred(t, xs), i) == xs[i]
    ensures var (v, x) := (Shred(t, xs), xs[i]);
            && v.valid[i]
            && (x.VUnion? ==>
                  && v.data.children[0].data.cells[i] == IntCell(x.tag)
                  && Read(t.kind.members[x.tag].typ, v.data.children[x.tag + 1], i) == x.member)
    decreases DepthOf(xs), t, 0
  {
    var x := xs[i];
    assert HasType(t, x);
    if x.VUnion? {
      ChosenFit(t, xs, x.tag);
      ReadShredded(t.kind.members[x.tag].typ, Choices(xs, x.tag), i);
    }
  }

  lemma {:induction false} ArrayPieces(t: LType, xs: seq<Val>, i: nat) returns (lo: nat)
    requires AllHaveType(t, xs) && i < |xs| && !IsText(t) && t.kind.Array? && !xs[i].VNull?
    ensures var n, child := t.kind.size, Flatten(Strides(xs, t.kind.size));
            lo == i * n && lo + n <= |child| && xs[i] == VList(child[lo..lo + n])
  {
    var pieces := Strides(xs, t.kind.size);
    forall k | 0 <= k < |xs| ensures |pieces[k]| == t.kind.size {
      assert HasType(t, xs[k]);
    }
    FlattenAt(pieces, i);
    StrideOffset(pieces, t.kind.size, i);
    lo := |Flatten(pieces[..i])|;
    assert HasType(t, xs[i]);
    assert pieces[i] == xs[i].elems;
  }

  lemma {:induction false} ReadArray(t: LType, xs: seq<Val>, i: nat)
    requires AllHaveType(t, xs) && i < |xs| && !IsText(t) && t.kind.Array? && !xs[i].VNull?
    ensures Readable(t, Shred(t, xs), i) && Read(t, Shred(t, xs), i) == xs[i]
    ensures var v := Shred(t, xs);
            v.valid[i] && ReadRange(t.kind.elem, v.data.child, i * t.kind.size, t.kind.size) == xs[i].elems
    decreases DepthOf(xs), t, 0
  {
    hide *;
    var et, n, child := t.kind.elem, t.kind.size, Flatten(Strides(xs, t.kind.size));
    ArrayFits(t, xs);
    var lo := ArrayPieces(t, xs, i);
    ReadStretch(et, child, lo, n);
    ShredArrayShape(t, xs, i);
    ReadArrayRow(t, Shred(t, xs), i, Shred(et, child), lo);
  }

  lemma {:induction false} ShredArrayShape(t: LType, xs: seq<Val>, i: nat)
    requires AllHaveType(t, xs) && i < |xs| && !IsText(t) && t.kind.Array? && !xs[i].VNull?
    requires AllHaveType(t.kind.elem, Flatten(Strides(xs, t.kind.size)))
    ensures var v := Shred(t, xs);
            && |v.valid| == |v.texts| == |xs| && v.valid[i]
            && v.data == Fixed(Shred(t.kind.elem, Flatten(Strides(xs, t.kind.size))))
  {
  }

  lemma {:induction false} ReadArrayRow(t: LType, v: Vec, i: nat, child: Vec, lo: nat)
    requires !IsText(t) && t.kind.Array? && i < |v.valid| == |v.texts| && v.valid[i] && v.data == Fixed(child)
    requires lo == i * t.kind.size && ReadableRange(t.kind.elem, child, lo, lo + t.kind.size)
    ensures Readable(t, v, i) && Read(t, v, i) == VList(ReadRange(t.kind.elem, child, lo, t.kind.size))
  {
  }

  lemma {:induction false} ReadVariant(t: LType, xs: seq<Val>, i: nat)
    requires AllHaveType(t, xs) && i < |xs| && !IsText(t) && t.kind.Variant? && !xs[i].VNull?
    ensures Readable(t, Shred(t, xs), i) && Read(t, Shred(t, xs), i) == xs[i]
    ensures var v := Shred(t, xs);
            && v.valid[i]
            && (xs[i].VVariant? ==>
                  && v.data.typed[i].Typed? && v.data.typed[i].typ == xs[i].typ
                  && Read(xs[i].typ, v.data.typed[i].vec, 0) == xs[i].value)
    decreases DepthOf(xs), t, 0
  {
    var x := xs[i];
    assert HasType(t, x);
    if x.VVariant? {
      DepthWithin([x.value], Depth(x.value));
      ReadShredded(x.typ, [x.value], 0);
    }
  }

  /** Row `i` of the vector of a column can be read, and holds value `i`. */
  lemma {:induction false} ReadShredded(t: LType, xs: seq<Val>, i: nat)
    requires AllHaveType(t, xs) && i < |xs|
    ensures Readable(t, Shred(t, xs), i) && Read(t, Shred(t, xs), i) == xs[i]
    ensures Shred(t, xs).valid[i] <==> xs[i] != VNull
    decreases DepthOf(xs), t, 1
  {
    assert HasType(t, xs[i]);
    if !xs[i].VNull? && !IsText(t) {
      match t.kind
      case Any =>
      case Plain(s) => ReadScalar(s, xs[i]);
      case List(_) => ReadList(t, xs, i);
      case Struct(_) => ReadStruct(t, xs, i);
      case Map(_, _) => ReadMap(t, xs, i);
      case Union(_) => ReadUnion(t, xs, i);
      case Array(_, _) => ReadArray(t, xs, i);
      case Variant => ReadVariant(t, xs, i);
    }
  }

  lemma {:induction false} ReadScalar(s: Scalar, x: Val)
    requires ScalarHasType(s, x)
    ensures CellFits(s, ShredScalar(s, x)) && ReadCell(s, ShredScalar(s, x), TextOf(x)) == x
  {
  }

  /** Decoding row `i` of the vector form of any column gives the PHP value of value `i`, and
      what it gives reads as value `i`. */
  method DecodeShredded(lib: Lib, t: LType, xs: seq<Val>, i: nat) returns (r: Php)
    requires AllHaveType(t, xs) && i < |xs|
    ensures r == ToPhp(lib, t, xs[i]) && ReadsAs(lib, r, t, xs[i])
  {
    ReadShredded(t, xs, i);
    DecodedReads(lib, t, xs[i]);
    r := ValFromVector(lib, t, Shred(t, xs), i);
  }
}
