/** Reading PHP values back: what a decoded value says of the SQL value it came from. */
module PhpReading {
  import opened Columns
  import opened Decoder
  import opened MapKeys
  import opened PhpValues
  import opened Wrappers

  // ---------------------------------------------------------------- numbers in text

  function DigitOf(c: char): Option<nat> {
    if '0' <= c <= '9' then Some(c as int - '0' as int) else None
  }

  function NatOf(s: string): Option<nat> {
    if s == "" then None else
      match DigitOf(s[|s| - 1])
      case None => None
      case Some(d) =>
        if |s| == 1 then Some(d)
        else match NatOf(s[..|s| - 1])
          case None => None
          case Some(n) => Some(10 * n + d)
  }

  /** The number a decimal text stands for. */
  function NumberOf(s: string): Option<int> {
    if s != "" && s[0] == '-' then
      match NatOf(s[1..])
      case None => None
      case Some(n) => Some(-(n as int))
    else
      match NatOf(s)
      case None => None
      case Some(n) => Some(n)
  }

  lemma {:induction false} DigitsRead(n: nat)
    ensures NatOf(Digits(n)) == Some(n) && Digits(n) != "" && Digits(n)[0] != '-'
  {
    if n >= 10 {
      DigitsRead(n / 10);
      var s := Digits(n);
      assert s[..|s| - 1] == Digits(n / 10);
    }
  }

  lemma {:induction false} NumberRead(n: int)
    ensures NumberOf(DecimalText(n)) == Some(n)
  {
    DigitsRead(if n < 0 then -n else n);
    if n < 0 {
      assert DecimalText(n)[1..] == Digits(-n);
    }
  }

  /** The key texts of values that are not arrays, and of the empty array. */
  lemma {:induction false} KeysOfLeaves(lib: Lib, n: int, s: string)
    ensures NumberOf(KeyText(lib, Long(n))) == Some(n) && KeyText(lib, Str(s)) == s
    ensures KeyText(lib, Bool(true)) == "1"
    ensures KeyText(lib, Null) == KeyText(lib, Bool(false)) == KeyText(lib, Arr([])) == ""
  {
    NumberRead(n);
  }

  // ---------------------------------------------------------------- what a PHP value says

  predicate FitsLong(n: int) { -9223372036854775808 <= n <= 9223372036854775807 }

  predicate FitsDouble(n: int) { -9007199254740992 <= n <= 9007199254740992 || n == -18446744073709551616 }

  /** A number that comes with DuckDB's text of it: whether PHP shows the number itself. */
  predicate ShowsNumber(s: Scalar, x: Val)
    requires x.VBig?
  {
    if s.Decimal? then FitsDouble(x.n) else FitsLong(x.n)
  }

  /** The types PHP shows by DuckDB's text of the value: those with an alias other than JSON,
      wide decimals, and all without a branch of their own. */
  predicate ByText(t: LType) {
    || (t.aka != "" && t.aka != "JSON") || t.kind.Other?
    || (t.kind.Plain? && t.kind.scalar.Decimal? && t.kind.scalar.storage.Wide?)
  }

  /** The SQL values PHP shows as NULL: NULL, what has no value to show or no text, and the
      JSON text of null. */
  predicate Nothing(lib: Lib, t: LType, x: Val)
    requires HasType(t, x)
    decreases x
  {
    || x.VNull? || x.VAny? || x.VNoMember? || x.VNoVariant?
    || (x.VText? && x.text == None)
    || (x.VBig? && t.kind.Plain? && !ShowsNumber(t.kind.scalar, x) && x.text == None)
    || (x.VBytes? && t.kind.Plain? && t.kind.scalar.Varchar? && t.aka == "JSON" && lib.decodeJson(x.s) == Some(Null))
    || (x.VVariant? && !ByText(t) && Nothing(lib, x.typ, x.value))
  }

  predicate ReadsAsDouble(d: Dbl, single: bool, f: Floating) {
    match f
    case Nan => d.Nan?
    case Infinite(negative) => d.Infinite? && d.negative == negative
    case Finite(bits) => if single then d.SevenDigits? && d.bits == bits else d.Exact? && d.bits == bits
  }

  predicate ReadsAsScalar(lib: Lib, v: Php, s: Scalar, json: bool, x: Val)
    requires ScalarHasType(s, x)
  {
    match s
    case Boolean => v.Bool? && v.b == x.b
    case Integer(_, _) => v.Long? && v.n == x.n
    case UBigint => if FitsLong(x.n) then v.Long? && v.n == x.n else v.Str? && NumberOf(v.s) == Some(x.n)
    case Float => v.Double? && ReadsAsDouble(v.d, true, x.f)
    case Double => v.Double? && ReadsAsDouble(v.d, false, x.f)
    case Blob => v.Str? && v.s == x.s
    case Varchar =>
      if json && lib.decodeJson(x.s).Some? then lib.decodeJson(x.s) == Some(v) else v.Str? && v.s == x.s
    case Decimal(_, width, scale) =>
      if ShowsNumber(s, x)
      then v.Double? && v.d.Scaled? && v.d.unscaled == x.n && v.d.width == width && v.d.scale == scale
      else v.Str? && x.text == Some(v.s)
    case _ => if ShowsNumber(s, x) then v.Long? && v.n == x.n else v.Str? && x.text == Some(v.s)
  }

  /** The values of an array, and whether their keys are 0, 1, 2, ... */
  function ValuesOf(v: Php): seq<Php>
    requires v.Arr?
  {
    seq(|v.entries|, k requires 0 <= k < |v.entries| => v.entries[k].value)
  }

  predicate Counted(v: Php) {
    v.Arr? && forall k :: 0 <= k < |v.entries| ==> v.entries[k].key == Index(k)
  }

  predicate NamedAs(v: Php, names: seq<string>) {
    v.Arr? && |v.entries| == |names| && forall k :: 0 <= k < |names| ==> v.entries[k].key == Name(names[k])
  }

  function NamesOf(fs: seq<Field>): seq<string> {
    seq(|fs|, k requires 0 <= k < |fs| => fs[k].name)
  }

  /** The last place of a name. */
  function LastAt(names: seq<string>, name: string): (k: nat)
    requires name in names
    ensures k < |names| && names[k] == name && forall l :: k < l < |names| ==> names[l] != name
  {
    if names[|names| - 1] == name then |names| - 1 else LastAt(names[..|names| - 1], name)
  }

  /** Read as values of type `t`, one for one. */
  ghost predicate AllReadAs(lib: Lib, vs: seq<Php>, t: LType, xs: seq<Val>)
    requires AllHaveType(t, xs)
    decreases xs, 0
  {
    |vs| == |xs| && forall k :: 0 <= k < |xs| ==> ReadsAs(lib, vs[k], t, xs[k])
  }

  /** Read as the members of a STRUCT. */
  ghost predicate MembersReadAs(lib: Lib, vs: seq<Php>, fs: seq<Field>, xs: seq<Val>)
    requires |fs| == |xs| && forall k :: 0 <= k < |fs| ==> HasType(fs[k].typ, xs[k])
    decreases xs, 0
  {
    |vs| == |fs| && forall k :: 0 <= k < |fs| ==> ReadsAs(lib, vs[k], fs[k].typ, xs[k])
  }

  /** Read as the values of a MAP whose keys have these texts: one for each text, the last
      value that has it. */
  ghost predicate LastReadAs(lib: Lib, vs: seq<Php>, texts: seq<string>, t: LType, xs: seq<Val>)
    requires |texts| == |xs| && AllHaveType(t, xs)
    decreases xs, 0
  {
    && |vs| == |Firsts(texts)|
    && forall j :: 0 <= j < |vs| ==>
         Firsts(texts)[j] in texts && ReadsAs(lib, vs[j], t, xs[LastAt(texts, Firsts(texts)[j])])
  }

  /** A PHP value, read as a value of type `t`, is the SQL value `x`: a VARIANT under the type
      found with it, a MAP by the texts of its keys, a key's last value counting. */
  ghost predicate ReadsAs(lib: Lib, v: Php, t: LType, x: Val)
    requires HasType(t, x)
    decreases x, 1
  {
    if Nothing(lib, t, x) then v == Null
    else if ByText(t) then v.Str? && x.text == Some(v.s)
    else
      && v != Null
      && match t.kind
         case Plain(s) => ReadsAsScalar(lib, v, s, t.aka == "JSON", x)
         case List(et) => Counted(v) && AllReadAs(lib, ValuesOf(v), et, x.elems)
         case Array(et, _) => Counted(v) && AllReadAs(lib, ValuesOf(v), et, x.elems)
         case Struct(fs) =>
           DistinctNames(fs) || Nameless(fs) ==>
             && (if Nameless(fs) then Counted(v) else NamedAs(v, NamesOf(fs)))
             && MembersReadAs(lib, ValuesOf(v), fs, x.fields)
         case Map(kt, vt) =>
           exists keys :: AllReadAs(lib, keys, kt, x.keys) &&
             var texts := KeyTexts(lib, keys);
             NamedAs(v, Firsts(texts)) && LastReadAs(lib, ValuesOf(v), texts, vt, x.values)
         case Union(ms) => NamedAs(v, [ms[x.tag].name]) && ReadsAs(lib, ValuesOf(v)[0], ms[x.tag].typ, x.member)
         case Variant => ReadsAs(lib, v, x.typ, x.value)
         case _ => false
  }

  predicate Nameless(fs: seq<Field>) { forall k :: 0 <= k < |fs| ==> fs[k].name == "" }

  // ---------------------------------------------------------------- the decoder says so

  lemma {:induction false} ScalarReads(lib: Lib, t: LType, x: Val)
    requires HasType(t, x) && t.kind.Plain? && !ByText(t) && x != VNull
    ensures ReadsAs(lib, ToPhp(lib, t, x), t, x)
  {
    if x.VInt? {
      NumberRead(x.n);
    }
  }

  lemma {:induction false} AllRead(lib: Lib, t: LType, xs: seq<Val>)
    requires AllHaveType(t, xs)
    ensures AllReadAs(lib, ToPhps(lib, t, xs), t, xs)
    decreases xs, 0
  {
    forall k | 0 <= k < |xs| ensures ReadsAs(lib, ToPhps(lib, t, xs)[k], t, xs[k]) {
      DecodedReads(lib, t, xs[k]);
    }
  }

  lemma {:induction false} ListReads(lib: Lib, t: LType, x: Val)
    requires HasType(t, x) && !ByText(t) && (t.kind.List? || t.kind.Array?) && x != VNull
    ensures ReadsAs(lib, ToPhp(lib, t, x), t, x)
    decreases x, 0
  {
    var et := t.kind.elem;
    AllRead(lib, et, x.elems);
    assert ValuesOf(ToPhp(lib, t, x)) == ToPhps(lib, et, x.elems);
  }

  lemma {:induction false} StructReads(lib: Lib, t: LType, x: Val)
    requires HasType(t, x) && !ByText(t) && t.kind.Struct? && x != VNull
    ensures ReadsAs(lib, ToPhp(lib, t, x), t, x)
    decreases x, 0
  {
    var fs := t.kind.fields;
    var vs := seq(|fs|, k requires 0 <= k < |fs| => ToPhp(lib, fs[k].typ, x.fields[k]));
    var v := ToPhp(lib, t, x);
    forall k | 0 <= k < |fs| ensures ReadsAs(lib, vs[k], fs[k].typ, x.fields[k]) {
      DecodedReads(lib, fs[k].typ, x.fields[k]);
    }
    DecodedStruct(fs, vs);
    assert v == Arr(AddFields(fs, vs, |fs|));
    if DistinctNames(fs) || Nameless(fs) {
      assert ValuesOf(v) == vs;
    }
  }

  lemma {:induction false} LastValueAt(names: seq<string>, vs: seq<Php>, name: string)
    requires |names| == |vs| && name in names
    ensures LastValue(names, vs, name) == vs[LastAt(names, name)]
  {
    if names[|names| - 1] != name {
      LastValueAt(names[..|names| - 1], vs[..|vs| - 1], name);
    }
  }

  lemma {:induction false} EntriesRead(lib: Lib, es: seq<Entry>, texts: seq<string>, vs: seq<Php>, t: LType,
                                       xs: seq<Val>)
    requires AllHaveType(t, xs) && AllReadAs(lib, vs, t, xs) && |texts| == |vs|
    requires Holds(es, Firsts(texts), texts, vs)
    ensures NamedAs(Arr(es), Firsts(texts)) && LastReadAs(lib, ValuesOf(Arr(es)), texts, t, xs)
  {
    forall j | 0 <= j < |es|
      ensures Firsts(texts)[j] in texts && es[j].key == Name(Firsts(texts)[j])
      ensures ReadsAs(lib, es[j].value, t, xs[LastAt(texts, Firsts(texts)[j])])
    {
      assert Firsts(texts)[j] in Firsts(texts);
      LastValueAt(texts, vs, Firsts(texts)[j]);
    }
  }

  lemma {:induction false} MapReads(lib: Lib, t: LType, x: Val)
    requires HasType(t, x) && !ByText(t) && t.kind.Map? && x != VNull
    ensures ReadsAs(lib, ToPhp(lib, t, x), t, x)
    decreases x, 0
  {
    hide Holds, NamedAs, LastReadAs, AllReadAs, KeyText, Distinct;
    var keys, vs := ToPhps(lib, t.kind.key, x.keys), ToPhps(lib, t.kind.value, x.values);
    AllRead(lib, t.kind.key, x.keys);
    AllRead(lib, t.kind.value, x.values);
    DecodedMap(lib, t, x);
    EntriesRead(lib, ToPhp(lib, t, x).entries, KeyTexts(lib, keys), vs, t.kind.value, x.values);
  }

  lemma {:induction false} UnionReads(lib: Lib, t: LType, x: Val)
    requires HasType(t, x) && !ByText(t) && t.kind.Union? && x != VNull
    ensures ReadsAs(lib, ToPhp(lib, t, x), t, x)
    decreases x, 0
  {
    if x.VUnion? {
      DecodedReads(lib, t.kind.members[x.tag].typ, x.member);
    }
  }

  /** For every type and depth, the decoded value reads as the SQL value it came from. */
  lemma {:induction false} DecodedReads(lib: Lib, t: LType, x: Val)
    requires HasType(t, x)
    ensures ReadsAs(lib, ToPhp(lib, t, x), t, x)
    decreases x, 1
  {
    if x != VNull && !ByText(t) {
      match t.kind
      case Any =>
      case Plain(_) => ScalarReads(lib, t, x);
      case List(_) => ListReads(lib, t, x);
      case Array(_, _) => ListReads(lib, t, x);
      case Struct(_) => StructReads(lib, t, x);
      case Map(_, _) => MapReads(lib, t, x);
      case Union(_) => UnionReads(lib, t, x);
      case Variant =>
        if x.VVariant? {
          DecodedReads(lib, x.typ, x.value);
        }
    }
  }

  // ---------------------------------------------------------------- nothing else is lost

  /** Types whose decoded values say all there is: without MAP, VARIANT and JSON, and with
      members told apart by their names. */
  predicate IsPlainly(t: LType)
    decreases t
  {
    ByText(t) ||
    match t.kind
    case Any => true
    case Other => true
    case Plain(s) => !(s.Varchar? && t.aka == "JSON")
    case List(et) => IsPlainly(et)
    case Array(et, _) => IsPlainly(et)
    case Struct(fs) => (DistinctNames(fs) || Nameless(fs)) && forall k :: 0 <= k < |fs| ==> IsPlainly(fs[k].typ)
    case Union(ms) => DistinctNames(ms) && forall k :: 0 <= k < |ms| ==> IsPlainly(ms[k].typ)
    case _ => false
  }

  predicate SameScalar(s: Scalar, x: Val, y: Val)
    requires ScalarHasType(s, x) && ScalarHasType(s, y)
  {
    match s
    case Boolean => x.b == y.b
    case Integer(_, _) => x.n == y.n
    case UBigint => x.n == y.n
    case Float => x.f == y.f
    case Double => x.f == y.f
    case Varchar => x.s == y.s
    case Blob => x.s == y.s
    case _ =>
      (ShowsNumber(s, x) <==> ShowsNumber(s, y)) && if ShowsNumber(s, x) then x.n == y.n else x.text == y.text
  }

  ghost predicate AllSame(lib: Lib, t: LType, xs: seq<Val>, ys: seq<Val>)
    requires AllHaveType(t, xs) && AllHaveType(t, ys)
    decreases xs, 0
  {
    |xs| == |ys| && forall k :: 0 <= k < |xs| ==> SameValue(lib, t, xs[k], ys[k])
  }

  /** The same SQL value, but for the ways of being shown as NULL, and for the number behind a
      text or the text beside a number. */
  ghost predicate SameValue(lib: Lib, t: LType, x: Val, y: Val)
    requires HasType(t, x) && HasType(t, y)
    decreases x, 1
  {
    && (Nothing(lib, t, x) <==> Nothing(lib, t, y))
    && (!Nothing(lib, t, x) ==>
          if ByText(t) then x.text == y.text
          else match t.kind
            case Plain(s) => SameScalar(s, x, y)
            case List(et) => AllSame(lib, et, x.elems, y.elems)
            case Array(et, _) => AllSame(lib, et, x.elems, y.elems)
            case Struct(fs) => forall k :: 0 <= k < |fs| ==> SameValue(lib, fs[k].typ, x.fields[k], y.fields[k])
            case Union(ms) => x.tag == y.tag && SameValue(lib, ms[x.tag].typ, x.member, y.member)
            case _ => true)
  }

  lemma {:induction false} ItemsAreOne(lib: Lib, vs: seq<Php>, t: LType, xs: seq<Val>, ys: seq<Val>)
    requires AllHaveType(t, xs) && AllHaveType(t, ys) && IsPlainly(t)
    requires AllReadAs(lib, vs, t, xs) && AllReadAs(lib, vs, t, ys)
    ensures AllSame(lib, t, xs, ys)
    decreases xs, 0
  {
    forall k | 0 <= k < |xs| ensures SameValue(lib, t, xs[k], ys[k]) {
      ReadsAsOne(lib, vs[k], t, xs[k], ys[k]);
    }
  }

  lemma {:induction false} MembersAreOne(lib: Lib, vs: seq<Php>, fs: seq<Field>, xs: seq<Val>, ys: seq<Val>)
    requires |fs| == |xs| == |ys| && forall k :: 0 <= k < |fs| ==> HasType(fs[k].typ, xs[k])
    requires forall k :: 0 <= k < |fs| ==> HasType(fs[k].typ, ys[k]) && IsPlainly(fs[k].typ)
    requires MembersReadAs(lib, vs, fs, xs) && MembersReadAs(lib, vs, fs, ys)
    ensures forall k :: 0 <= k < |fs| ==> SameValue(lib, fs[k].typ, xs[k], ys[k])
    decreases xs, 0
  {
    forall k | 0 <= k < |fs| ensures SameValue(lib, fs[k].typ, xs[k], ys[k]) {
      ReadsAsOne(lib, vs[k], fs[k].typ, xs[k], ys[k]);
    }
  }

  lemma {:induction false} ScalarsAreOne(lib: Lib, v: Php, s: Scalar, json: bool, x: Val, y: Val)
    requires ScalarHasType(s, x) && ScalarHasType(s, y) && !(s.Varchar? && json)
    requires ReadsAsScalar(lib, v, s, json, x) && ReadsAsScalar(lib, v, s, json, y)
    ensures SameScalar(s, x, y)
  {
  }

  lemma {:induction false} OneName(v: Php, a: string, b: string)
    requires NamedAs(v, [a]) && NamedAs(v, [b])
    ensures a == b
  {
    assert v.entries[0].key == Name([a][0]) == Name([b][0]);
  }

  lemma {:induction false} TextIsOne(lib: Lib, v: Php, t: LType, x: Val, y: Val)
    requires HasType(t, x) && HasType(t, y) && ReadsAs(lib, v, t, x) && ReadsAs(lib, v, t, y)
    requires ByText(t) || t.kind.Any? || t.kind.Other? || v == Null
    ensures SameValue(lib, t, x, y)
  {
    hide ReadsAsScalar, SameScalar, ScalarHasType, AllReadAs, AllSame, MembersReadAs, NamedAs, Counted;
  }

  lemma {:induction false} PlainIsOne(lib: Lib, v: Php, t: LType, x: Val, y: Val)
    requires HasType(t, x) && HasType(t, y) && IsPlainly(t) && ReadsAs(lib, v, t, x) && ReadsAs(lib, v, t, y)
    requires !ByText(t) && t.kind.Plain? && v != Null
    ensures SameValue(lib, t, x, y)
  {
    assert ScalarHasType(t.kind.scalar, x) && ScalarHasType(t.kind.scalar, y);
    hide ReadsAsScalar, SameScalar, ScalarHasType;
    ScalarsAreOne(lib, v, t.kind.scalar, t.aka == "JSON", x, y);
  }

  lemma {:induction false} ListIsOne(lib: Lib, v: Php, t: LType, x: Val, y: Val)
    requires HasType(t, x) && HasType(t, y) && IsPlainly(t) && ReadsAs(lib, v, t, x) && ReadsAs(lib, v, t, y)
    requires !ByText(t) && (t.kind.List? || t.kind.Array?) && v != Null
    ensures SameValue(lib, t, x, y)
    decreases x, 0
  {
    hide AllReadAs, AllSame, AllHaveType;
    ItemsAreOne(lib, ValuesOf(v), t.kind.elem, x.elems, y.elems);
  }

  lemma {:induction false} StructIsOne(lib: Lib, v: Php, t: LType, x: Val, y: Val)
    requires HasType(t, x) && HasType(t, y) && IsPlainly(t) && ReadsAs(lib, v, t, x) && ReadsAs(lib, v, t, y)
    requires !ByText(t) && t.kind.Struct? && v != Null
    ensures SameValue(lib, t, x, y)
    decreases x, 0
  {
    hide MembersReadAs;
    MembersAreOne(lib, ValuesOf(v), t.kind.fields, x.fields, y.fields);
  }

  lemma {:induction false} UnionIsOne(lib: Lib, v: Php, t: LType, x: Val, y: Val)
    requires HasType(t, x) && HasType(t, y) && IsPlainly(t) && ReadsAs(lib, v, t, x) && ReadsAs(lib, v, t, y)
    requires !ByText(t) && t.kind.Union? && v != Null
    ensures SameValue(lib, t, x, y)
    decreases x, 0
  {
    var ms := t.kind.members;
    OneName(v, ms[x.tag].name, ms[y.tag].name);
    ReadsAsOne(lib, ValuesOf(v)[0], ms[x.tag].typ, x.member, y.member);
  }

  /** A PHP value reads as one SQL value. */
  lemma {:induction false} ReadsAsOne(lib: Lib, v: Php, t: LType, x: Val, y: Val)
    requires HasType(t, x) && HasType(t, y) && IsPlainly(t) && ReadsAs(lib, v, t, x) && ReadsAs(lib, v, t, y)
    ensures SameValue(lib, t, x, y)
    decreases x, 1
  {
    hide HasType, ReadsAs, SameValue;
    if ByText(t) || t.kind.Any? || t.kind.Other? || v == Null {
      TextIsOne(lib, v, t, x, y);
    } else if t.kind.Plain? {
      PlainIsOne(lib, v, t, x, y);
    } else if t.kind.Struct? {
      StructIsOne(lib, v, t, x, y);
    } else if t.kind.Union? {
      UnionIsOne(lib, v, t, x, y);
    } else {
      ListIsOne(lib, v, t, x, y);
    }
  }

  /** Decoding keeps values of such types apart. */
  lemma {:induction false} DecodingIsFaithful(lib: Lib, t: LType, x: Val, y: Val)
    requires HasType(t, x) && HasType(t, y) && IsPlainly(t) && ToPhp(lib, t, x) == ToPhp(lib, t, y)
    ensures SameValue(lib, t, x, y)
  {
    DecodedReads(lib, t, x);
    DecodedReads(lib, t, y);
    ReadsAsOne(lib, ToPhp(lib, t, x), t, x, y);
  }
}
