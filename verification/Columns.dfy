/** DuckDB's logical types, columns of values, and the vectors that store them. */
module Columns {
  import opened SplitIntegers
  import opened Wrappers

  /** A type with its alias, empty when there is none. */
  datatype LType = LType(aka: string, kind: Kind)

  datatype Field = Field(name: string, typ: LType)

  datatype Storage = Int16 | Int32 | Int64 | Int128 | Wide

  datatype Scalar =
    | Boolean
    | Integer(signed: bool, bits: nat)  // TINYINT to BIGINT, UTINYINT to UINTEGER
    | UBigint
    | Hugeint
    | UHugeint
    | Float
    | Double
    | Varchar
    | Blob
    | Decimal(storage: Storage, width: nat, scale: nat)

  datatype Kind =
    | Any
    | Plain(scalar: Scalar)
    | List(elem: LType)
    | Struct(fields: seq<Field>)
    | Map(key: LType, value: LType)
    | Union(members: seq<Field>)
    | Array(elem: LType, size: nat)
    | Variant
    | Other  // every type the decoder leaves to its default branch

  datatype Floating = Nan | Infinite(negative: bool) | Finite(bits: nat)

  datatype Cell =
    | BoolCell(b: bool)
    | IntCell(n: int)
    | SplitCell(h: Split)
    | FloatCell(f: Floating)
    | BytesCell(s: string)

  datatype ListEntry = ListEntry(offset: nat, length: nat)

  /** What `duckdb_variant_to_vector` finds in one row: a type and a one-row vector. */
  datatype TypedCell = Typed(typ: LType, vec: Vec) | Untyped

  datatype Data =
    | Cells(cells: seq<Cell>)
    | Lists(entries: seq<ListEntry>, child: Vec)
    | Children(children: seq<Vec>)
    | Fixed(child: Vec)
    | Variants(typed: seq<TypedCell>)

  /** A vector: which rows are not NULL, what `duckdb_get_string` says of each row,
      and the data. */
  datatype Vec = Vec(valid: seq<bool>, texts: seq<Option<string>>, data: Data)

  /** The type is shown as text: it carries an alias other than JSON, or its branch of
      the decoder only ever asks for the text. */
  predicate IsText(t: LType) {
    || (t.aka != "" && t.aka != "JSON")
    || t.kind == Other
    || (t.kind.Plain? && t.kind.scalar.Decimal? && t.kind.scalar.storage == Wide)
  }

  predicate InBits(signed: bool, bits: nat, n: int) {
    if signed then bits in {8, 16, 32, 64} && -Pow2(bits - 1) <= n < Pow2(bits - 1)
    else bits in {8, 16, 32} && 0 <= n < Pow2(bits)
  }

  // ---------------------------------------------------------------- values

  /** SQL values; the text that goes with a number is DuckDB's rendering of it. */
  datatype Val =
    | VNull
    | VAny
    | VBool(b: bool)
    | VInt(n: int)
    | VBig(n: int, text: Option<string>)
    | VFloat(f: Floating)
    | VBytes(s: string)
    | VText(text: Option<string>)
    | VList(elems: seq<Val>)
    | VStruct(fields: seq<Val>)
    | VMap(keys: seq<Val>, values: seq<Val>)
    | VUnion(tag: nat, member: Val)
    | VNoMember(tag: nat)
    | VVariant(typ: LType, value: Val)
    | VNoVariant

  predicate InStorage(s: Storage, n: int) {
    match s
    case Int16 => -Pow2(15) <= n < Pow2(15)
    case Int32 => -Pow2(31) <= n < Pow2(31)
    case Int64 => IsLong(n)
    case Int128 => -TWO_63 * TWO_64 <= n < TWO_63 * TWO_64
    case Wide => false
  }

  predicate ScalarHasType(s: Scalar, x: Val) {
    match s
    case Boolean => x.VBool?
    case Integer(signed, bits) => x.VInt? && InBits(signed, bits, x.n)
    case UBigint => x.VInt? && IsU64(x.n)
    case Hugeint => x.VBig? && InStorage(Int128, x.n)
    case UHugeint => x.VBig? && 0 <= x.n < TWO_64 * TWO_64
    case Float => x.VFloat?
    case Double => x.VFloat?
    case Varchar => x.VBytes?
    case Blob => x.VBytes?
    case Decimal(storage, _, _) => x.VBig? && InStorage(storage, x.n)
  }

  predicate AllHaveType(t: LType, xs: seq<Val>)
    decreases xs, 0
  {
    forall k :: 0 <= k < |xs| ==> HasType(t, xs[k])
  }

  predicate HasType(t: LType, x: Val)
    decreases x, 1
  {
    if x.VNull? then true
    else if IsText(t) then x.VText?
    else match t.kind
      case Any => x.VAny?
      case Plain(s) => ScalarHasType(s, x)
      case List(et) => x.VList? && AllHaveType(et, x.elems)
      case Struct(fs) =>
        x.VStruct? && |x.fields| == |fs| && forall k :: 0 <= k < |fs| ==> HasType(fs[k].typ, x.fields[k])
      case Map(kt, vt) => x.VMap? && |x.keys| == |x.values| && AllHaveType(kt, x.keys) && AllHaveType(vt, x.values)
      case Union(ms) =>
        || (x.VUnion? && x.tag < |ms| && x.tag < 256 && HasType(ms[x.tag].typ, x.member))
        || (x.VNoMember? && |ms| <= x.tag < 256)
      case Array(et, n) => x.VList? && |x.elems| == n && AllHaveType(et, x.elems)
      case Variant => x.VNoVariant? || (x.VVariant? && HasType(x.typ, x.value))
  }

  // ---------------------------------------------------------------- reading

  predicate CellFits(s: Scalar, c: Cell) {
    match s
    case Boolean => c.BoolCell?
    case Integer(signed, bits) => c.IntCell? && InBits(signed, bits, c.n)
    case UBigint => c.IntCell? && IsU64(c.n)
    case Hugeint => c.SplitCell? && IsHuge(c.h)
    case UHugeint => c.SplitCell? && IsUHuge(c.h)
    case Float => c.FloatCell?
    case Double => c.FloatCell?
    case Varchar => c.BytesCell?
    case Blob => c.BytesCell?
    case Decimal(storage, _, _) =>
      if storage == Int128 then c.SplitCell? && IsHuge(c.h) else c.IntCell? && InStorage(storage, c.n)
  }

  predicate ReadableRange(t: LType, v: Vec, lo: nat, hi: nat)
    decreases v, 1
  {
    forall j {:trigger Readable(t, v, j)} :: lo <= j < hi ==> Readable(t, v, j)
  }

  /** Row `i` of `v` can be read as a value of type `t`. Below a NULL row nothing is
      asked, so the offsets there may be anything. */
  predicate Readable(t: LType, v: Vec, i: nat)
    decreases v, 0
  {
    && i < |v.valid|
    && (v.valid[i] ==>
          && i < |v.texts|
          && (!IsText(t) && t.kind != Any ==>
                match t.kind
                case List(et) =>
                  && v.data.Lists? && i < |v.data.entries|
                  && var e := v.data.entries[i]; ReadableRange(et, v.data.child, e.offset, e.offset + e.length)
                case Struct(fs) =>
                  && v.data.Children? && |v.data.children| == |fs|
                  && forall k :: 0 <= k < |fs| ==> Readable(fs[k].typ, v.data.children[k], i)
                case Map(kt, vt) =>
                  && v.data.Lists? && i < |v.data.entries|
                  && v.data.child.data.Children? && |v.data.child.data.children| == 2
                  && var e := v.data.entries[i];
                  && ReadableRange(kt, v.data.child.data.children[0], e.offset, e.offset + e.length)
                  && ReadableRange(vt, v.data.child.data.children[1], e.offset, e.offset + e.length)
                case Union(ms) =>
                  && v.data.Children? && |v.data.children| == |ms| + 1
                  && v.data.children[0].data.Cells? && i < |v.data.children[0].data.cells|
                  && var tag := v.data.children[0].data.cells[i];
                  && tag.IntCell? && 0 <= tag.n < 256
                  && (tag.n < |ms| ==> Readable(ms[tag.n].typ, v.data.children[tag.n + 1], i))
                case Array(et, n) => v.data.Fixed? && ReadableRange(et, v.data.child, i * n, i * n + n)
                case Variant =>
                  && v.data.Variants? && i < |v.data.typed|
                  && match v.data.typed[i] { case Untyped => true case Typed(t', v') => Readable(t', v', 0) }
                case Plain(s) => v.data.Cells? && i < |v.data.cells| && CellFits(s, v.data.cells[i])))
  }

  function ReadCell(s: Scalar, c: Cell, text: Option<string>): (x: Val)
    requires CellFits(s, c)
    ensures ScalarHasType(s, x)
  {
    match c
    case BoolCell(b) => VBool(b)
    case IntCell(n) => if s.Decimal? then VBig(n, text) else VInt(n)
    case SplitCell(h) => VBig(Value(h), text)
    case FloatCell(f) => VFloat(f)
    case BytesCell(bs) => VBytes(bs)
  }

  function ReadRange(t: LType, v: Vec, lo: nat, n: nat): (xs: seq<Val>)
    requires ReadableRange(t, v, lo, lo + n)
    ensures |xs| == n && AllHaveType(t, xs)
    ensures forall j :: 0 <= j < n ==> xs[j] == Read(t, v, lo + j)
    decreases v, 1, n
  {
    if n == 0 then [] else ReadRange(t, v, lo, n - 1) + [Read(t, v, lo + n - 1)]
  }

  /** The value in row `i`. */
  function Read(t: LType, v: Vec, i: nat): (x: Val)
    requires Readable(t, v, i)
    ensures HasType(t, x)
    decreases v, 0
  {
    if !v.valid[i] then VNull
    else if IsText(t) then VText(v.texts[i])
    else match t.kind
      case Any => VAny
      case List(et) => var e := v.data.entries[i]; VList(ReadRange(et, v.data.child, e.offset, e.length))
      case Struct(fs) => VStruct(seq(|fs|, k requires 0 <= k < |fs| => Read(fs[k].typ, v.data.children[k], i)))
      case Map(kt, vt) =>
        var e := v.data.entries[i];
        VMap(ReadRange(kt, v.data.child.data.children[0], e.offset, e.length),
             ReadRange(vt, v.data.child.data.children[1], e.offset, e.length))
      case Union(ms) =>
        var tag := v.data.children[0].data.cells[i].n;
        if tag < |ms| then VUnion(tag, Read(ms[tag].typ, v.data.children[tag + 1], i)) else VNoMember(tag)
      case Array(et, n) => VList(ReadRange(et, v.data.child, i * n, n))
      case Variant =>
        (match v.data.typed[i]
         case Untyped => VNoVariant
         case Typed(t', v') => VVariant(t', Read(t', v', 0)))
      case Plain(s) => ReadCell(s, v.data.cells[i], v.texts[i])
  }
}
