/** `duckdb_val_from_vector`: from a row of a vector to a PHP value. */
module Decoder {
  import opened Columns
  import opened MapKeys
  import opened PhpValues
  import opened SplitIntegers
  import opened Wrappers

  // ---------------------------------------------------------------- the PHP value of an SQL value

  function OrNull(text: Option<string>): Php {
    match text
    case None => Null
    case Some(s) => Str(s)
  }

  function DoubleOf(f: Floating, single: bool): Dbl {
    match f
    case Nan => Dbl.Nan
    case Infinite(negative) => Dbl.Infinite(negative)
    case Finite(bits) => if single then SevenDigits(bits) else Exact(bits)
  }

  /** Text that does not parse as JSON stays text. */
  function AsJson(lib: Lib, s: string): Php {
    match lib.decodeJson(s)
    case None => Str(s)
    case Some(v) => v
  }

  function ScalarToPhp(lib: Lib, s: Scalar, json: bool, x: Val): Php
    requires ScalarHasType(s, x)
  {
    match s
    case Boolean => Bool(x.b)
    case Integer(_, _) => Long(x.n)
    case UBigint => if IsLong(x.n) then Long(x.n) else Str(DecimalText(x.n))
    case Hugeint => if IsLong(x.n) then Long(x.n) else OrNull(x.text)
    case UHugeint => if IsLong(x.n) then Long(x.n) else OrNull(x.text)
    case Float => Php.Double(DoubleOf(x.f, true))
    case Double => Php.Double(DoubleOf(x.f, false))
    case Varchar => if json then AsJson(lib, x.s) else Str(x.s)
    case Blob => Str(x.s)
    case Decimal(_, width, scale) =>
      if -TWO_53 <= x.n <= TWO_53 || x.n == -TWO_64 then Php.Double(Scaled(x.n, width, scale)) else OrNull(x.text)
  }

  /** Struct members: a nameless one takes the next index. */
  function AddFields(fs: seq<Field>, vs: seq<Php>, n: nat): seq<Entry>
    requires n <= |fs| == |vs|
  {
    if n == 0 then [] else
      var es := AddFields(fs, vs, n - 1);
      if fs[n - 1].name != "" then AddAssoc(es, fs[n - 1].name, vs[n - 1]) else AddNext(es, vs[n - 1])
  }

  function Listed(vs: seq<Php>): seq<Entry> {
    seq(|vs|, k requires 0 <= k < |vs| => Entry(Index(k), vs[k]))
  }

  function KeyTexts(lib: Lib, keys: seq<Php>): (r: seq<string>)
    ensures |r| == |keys| && forall k :: 0 <= k < |keys| ==> r[k] == KeyText(lib, keys[k])
  {
    seq(|keys|, k requires 0 <= k < |keys| => KeyText(lib, keys[k]))
  }

  function ToPhps(lib: Lib, t: LType, xs: seq<Val>): (r: seq<Php>)
    requires AllHaveType(t, xs)
    ensures |r| == |xs| && forall k :: 0 <= k < |xs| ==> r[k] == ToPhp(lib, t, xs[k])
    decreases xs, 0
  {
    seq(|xs|, k requires 0 <= k < |xs| => ToPhp(lib, t, xs[k]))
  }

  function ToPhp(lib: Lib, t: LType, x: Val): Php
    requires HasType(t, x)
    decreases x, 1
  {
    if x.VNull? then Null
    else if IsText(t) then OrNull(x.text)
    else match t.kind
      case Any => Null
      case Plain(s) => ScalarToPhp(lib, s, t.aka == "JSON", x)
      case List(et) => Arr(Listed(ToPhps(lib, et, x.elems)))
      case Array(et, _) => Arr(Listed(ToPhps(lib, et, x.elems)))
      case Struct(fs) =>
        Arr(AddFields(fs, seq(|fs|, k requires 0 <= k < |fs| => ToPhp(lib, fs[k].typ, x.fields[k])), |fs|))
      case Map(kt, vt) =>
        Arr(AddAll(KeyTexts(lib, ToPhps(lib, kt, x.keys)), ToPhps(lib, vt, x.values), |x.keys|))
      case Union(ms) =>
        if x.VUnion? then Arr([Entry(Name(ms[x.tag].name), ToPhp(lib, ms[x.tag].typ, x.member))]) else Null
      case Variant => if x.VVariant? then ToPhp(lib, x.typ, x.value) else Null
  }

  /** The PHP values of a stretch of rows. */
  function PhpRange(lib: Lib, t: LType, v: Vec, lo: nat, n: nat): (r: seq<Php>)
    requires ReadableRange(t, v, lo, lo + n)
    ensures |r| == n && forall k :: 0 <= k < n ==> r[k] == ToPhp(lib, t, Read(t, v, lo + k))
  {
    ToPhps(lib, t, ReadRange(t, v, lo, n))
  }

  // ---------------------------------------------------------------- the decoder

  method ScalarFromVector(lib: Lib, s: Scalar, json: bool, c: Cell, text: Option<string>) returns (r: Php)
    requires CellFits(s, c)
    ensures r == ScalarToPhp(lib, s, json, ReadCell(s, c, text))
  {
    match s
    case Boolean => r := Bool(c.b);
    case Integer(_, _) => r := Long(c.n);
    case UBigint =>
      if c.n > LONG_MAX {
        r := Str(DecimalText(c.n));
      } else {
        r := Long(c.n);
      }
    case Hugeint =>
      HugeintExact(c.h);
      if HugeFits(c.h) {
        r := Long(ToLong(c.h.lower));
      } else {
        r := OrNull(text);
      }
    case UHugeint =>
      UHugeintExact(c.h);
      if UHugeFits(c.h) {
        r := Long(ToLong(c.h.lower));
      } else {
        r := OrNull(text);
      }
    case Float => r := Php.Double(DoubleOf(c.f, true));
    case Double => r := Php.Double(DoubleOf(c.f, false));
    case Varchar =>
      if json {
        r := AsJson(lib, c.s);
      } else {
        r := Str(c.s);
      }
    case Blob => r := Str(c.s);
    case Decimal(storage, width, scale) =>
      var h;
      if storage == Int128 {
        h := c.h;
      } else {
        h := SignExtend(c.n);
        Powers();
        SignExtendExact(c.n);
      }
      DecimalExact(h);
      if DecimalIsDouble(h) {
        r := Php.Double(Scaled(Value(h), width, scale));
      } else {
        r := OrNull(text);
      }
  }

  method FromRange(lib: Lib, t: LType, v: Vec, lo: nat, n: nat) returns (entries: seq<Entry>)
    requires ReadableRange(t, v, lo, lo + n)
    ensures entries == Listed(PhpRange(lib, t, v, lo, n))
    decreases v, 2
  {
    entries := [];
    ghost var vs := PhpRange(lib, t, v, lo, n);
    for i := lo to lo + n
      invariant IsPacked(entries, vs[..i - lo])
    {
      var child := ValFromVector(lib, t, v, i);
      NextOfPacked(entries, vs[..i - lo]);
      entries := AddNext(entries, child);
    }
  }

  method FromStruct(lib: Lib, fs: seq<Field>, v: Vec, row: nat) returns (entries: seq<Entry>)
    requires v.data.Children? && |v.data.children| == |fs|
    requires forall k :: 0 <= k < |fs| ==> Readable(fs[k].typ, v.data.children[k], row)
    ensures entries == AddFields(fs, seq(|fs|, k requires 0 <= k < |fs| =>
                         ToPhp(lib, fs[k].typ, Read(fs[k].typ, v.data.children[k], row))), |fs|)
    decreases v, 0
  {
    entries := [];
    ghost var vs := seq(|fs|, k requires 0 <= k < |fs| =>
                        ToPhp(lib, fs[k].typ, Read(fs[k].typ, v.data.children[k], row)));
    for i := 0 to |fs|
      invariant entries == AddFields(fs, vs, i)
    {
      var child := ValFromVector(lib, fs[i].typ, v.data.children[i], row);
      if fs[i].name != "" {
        entries := AddAssoc(entries, fs[i].name, child);
      } else {
        entries := AddNext(entries, child);
      }
    }
  }

  /** `inner` is the list's child, with the keys and the values as its two children. */
  method FromMap(lib: Lib, kt: LType, vt: LType, inner: Vec, lo: nat, n: nat) returns (entries: seq<Entry>)
    requires inner.data.Children? && |inner.data.children| == 2
    requires ReadableRange(kt, inner.data.children[0], lo, lo + n)
    requires ReadableRange(vt, inner.data.children[1], lo, lo + n)
    ensures entries == AddAll(KeyTexts(lib, PhpRange(lib, kt, inner.data.children[0], lo, n)),
                              PhpRange(lib, vt, inner.data.children[1], lo, n), n)
    decreases inner, 2
  {
    hide HasType, AllHaveType, Read, ReadRange, ToPhp, KeyText, Readable;
    entries := [];
    ghost var keys := PhpRange(lib, kt, inner.data.children[0], lo, n);
    ghost var names := KeyTexts(lib, keys);
    ghost var vs := PhpRange(lib, vt, inner.data.children[1], lo, n);
    ghost var k := 0;
    for i := lo to lo + n
      invariant i == lo + k && entries == AddAll(names, vs, k)
    {
      var key := ValFromVector(lib, kt, inner.data.children[0], i);
      var value := ValFromVector(lib, vt, inner.data.children[1], i);
      var name := ZvalToMapKey(lib, key);
      assert name == names[k] by { assert key == keys[k]; }
      assert value == vs[k];
      entries := AddAssoc(entries, name, value);
      k := k + 1;
    }
  }

  /** The decoder gives the PHP value of the row, and reads nothing it may not read. */
  method ValFromVector(lib: Lib, t: LType, v: Vec, row: nat) returns (r: Php)
    requires Readable(t, v, row)
    ensures r == ToPhp(lib, t, Read(t, v, row))
    decreases v, 1
  {
    if !v.valid[row] {
      return Null;
    }
    if IsText(t) {
      return OrNull(v.texts[row]);
    }
    match t.kind
    case Any => r := Null;
    case Plain(s) => r := ScalarFromVector(lib, s, t.aka == "JSON", v.data.cells[row], v.texts[row]);
    case List(et) =>
      var e := v.data.entries[row];
      var entries := FromRange(lib, et, v.data.child, e.offset, e.length);
      r := Arr(entries);
    case Struct(fs) =>
      var entries := FromStruct(lib, fs, v, row);
      r := Arr(entries);
      ghost var x := Read(t, v, row);
      assert seq(|fs|, k requires 0 <= k < |fs| => ToPhp(lib, fs[k].typ, x.fields[k]))
          == seq(|fs|, k requires 0 <= k < |fs| => ToPhp(lib, fs[k].typ, Read(fs[k].typ, v.data.children[k], row)));
    case Map(kt, vt) =>
      var e := v.data.entries[row];
      var entries := FromMap(lib, kt, vt, v.data.child, e.offset, e.length);
      r := Arr(entries);
    case Union(ms) =>
      var tag := v.data.children[0].data.cells[row].n;
      if tag >= |ms| || |ms| == 0 {
        return Null;
      }
      var member := ValFromVector(lib, ms[tag].typ, v.data.children[tag + 1], row);
      r := Arr([Entry(Name(ms[tag].name), member)]);
    case Array(et, size) =>
      var entries := FromRange(lib, et, v.data.child, row * size, size);
      r := Arr(entries);
    case Variant =>
      match v.data.typed[row] {
        case Untyped => r := Null;
        case Typed(t', v') => r := ValFromVector(lib, t', v', 0);
      }
  }

  // ---------------------------------------------------------------- what becomes of MAP and STRUCT

  /** A decoded MAP holds one entry a key text, in the order the texts first came, each
      with the last value; all entries survive exactly when the key texts differ. */
  lemma {:induction false} DecodedMap(lib: Lib, t: LType, x: Val)
    requires HasType(t, x) && !IsText(t) && t.kind.Map? && x.VMap?
    ensures var names := KeyTexts(lib, ToPhps(lib, t.kind.key, x.keys));
            var vs := ToPhps(lib, t.kind.value, x.values);
            && ToPhp(lib, t, x).Arr?
            && Holds(ToPhp(lib, t, x).entries, Firsts(names), names, vs)
            && (|ToPhp(lib, t, x).entries| == |x.keys| <==> Distinct(names))
  {
    LastOneWins(KeyTexts(lib, ToPhps(lib, t.kind.key, x.keys)), ToPhps(lib, t.kind.value, x.values));
  }

  predicate DistinctNames(fs: seq<Field>) {
    && (forall i :: 0 <= i < |fs| ==> fs[i].name != "")
    && (forall i, j :: 0 <= i < j < |fs| ==> fs[i].name != fs[j].name)
  }

  /** A STRUCT keeps its members in order, by name or, when nameless, by position. */
  lemma {:induction false} DecodedStruct(fs: seq<Field>, vs: seq<Php>)
    requires |fs| == |vs|
    ensures DistinctNames(fs) ==> Named(AddFields(fs, vs, |fs|), fs, vs, |fs|)
    ensures (forall i :: 0 <= i < |fs| ==> fs[i].name == "") ==> AddFields(fs, vs, |fs|) == Listed(vs)
  {
    if DistinctNames(fs) {
      NamedFields(fs, vs, |fs|);
    } else if forall i :: 0 <= i < |fs| ==> fs[i].name == "" {
      NamelessFields(fs, vs, |fs|);
    }
  }

  /** The entries are the first `n` members under their names. */
  predicate Named(es: seq<Entry>, fs: seq<Field>, vs: seq<Php>, n: nat)
    requires n <= |fs| == |vs|
  {
    |es| == n && forall k :: 0 <= k < n ==> es[k] == Entry(Name(fs[k].name), vs[k])
  }

  lemma {:induction false} NamedFields(fs: seq<Field>, vs: seq<Php>, n: nat)
    requires n <= |fs| == |vs| && DistinctNames(fs)
    ensures Named(AddFields(fs, vs, n), fs, vs, n)
  {
    if n > 0 {
      NamedFields(fs, vs, n - 1);
      AddAssocNew(AddFields(fs, vs, n - 1), fs[n - 1].name, vs[n - 1]);
    }
  }

  lemma {:induction false} NamelessFields(fs: seq<Field>, vs: seq<Php>, n: nat)
    requires n <= |fs| == |vs| && forall i :: 0 <= i < |fs| ==> fs[i].name == ""
    ensures IsPacked(AddFields(fs, vs, n), vs[..n])
  {
    if n > 0 {
      NamelessFields(fs, vs, n - 1);
      NextOfPacked(AddFields(fs, vs, n - 1), vs[..n - 1]);
    }
  }
}
