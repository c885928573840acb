/** Parameters on their way to DuckDB: PHP keeps a table of bound parameters, DuckDB its
    own bindings, and neither may outlive the execute that used them. */
module Bindings {
  import opened Bytes
  import opened Placeholders
  import opened Wrappers

  // ---------------------------------------------------------------- names and indexes

  predicate IsSigil(b: Byte) { b == COLON || b == DOLLAR }

  /** A parameter name without the run of `:` and `$` in front. */
  function Bare(name: seq<Byte>): seq<Byte> {
    if name != [] && IsSigil(name[0]) then Bare(name[1..]) else name
  }

  method SkipSigils(name: seq<Byte>) returns (start: nat)
    ensures start <= |name| && name[start..] == Bare(name)
  {
    start := 0;
    while start < |name| && IsSigil(name[start])
      invariant start <= |name| && Bare(name[start..]) == Bare(name)
    {
      assert name[start..][1..] == name[start + 1..];
      start := start + 1;
    }
  }

  lemma {:induction false} BareOfSigils(sigils: seq<Byte>, n: seq<Byte>)
    requires forall i :: 0 <= i < |sigils| ==> IsSigil(sigils[i])
    requires n == [] || !IsSigil(n[0])
    ensures Bare(sigils + n) == n
  {
    var s := sigils + n;
    if sigils == [] {
      assert s == n;
    } else {
      BareOfSigils(sigils[1..], n);
      assert s[1..] == sigils[1..] + n;
    }
  }

  /** The name at the front of a text, for a reader that goes on while `continues`. */
  function ReadName(continues: Byte -> bool, s: seq<Byte>): seq<Byte> {
    if s == [] || !continues(s[0]) then [] else [s[0]] + ReadName(continues, s[1..])
  }

  lemma {:induction false} ReadNameStops(continues: Byte -> bool, n: seq<Byte>, rest: seq<Byte>)
    requires forall i :: 0 <= i < |n| ==> continues(n[i])
    requires rest == [] || !continues(rest[0])
    ensures ReadName(continues, n + rest) == n
  {
    if n == [] {
      assert n + rest == rest;
    } else {
      assert (n + rest)[1..] == n[1..] + rest;
      ReadNameStops(continues, n[1..], rest);
    }
  }

  /** The name DuckDB reads after the `$` in the rewritten SQL is the name it is asked about,
      with whatever sigils PHP wrote it: for any reader that takes at least letters, digits
      and underscores, where the text that follows does not go on with the name. */
  lemma {:induction false} NamesAgree(continues: Byte -> bool, pre: seq<Byte>, n: seq<Byte>, post: seq<Byte>,
                                      sigils: seq<Byte>)
    requires ModeAfter(pre) == Outside && (pre == [] || pre[|pre| - 1] != COLON) && IsName(n)
    requires forall i :: 0 <= i < |sigils| ==> IsSigil(sigils[i])
    requires forall b :: IsNameStart(b) || 48 <= b <= 57 ==> continues(b)
    requires Rewrite(post) == [] || !continues(Rewrite(post)[0])
    ensures var sql, at := Rewrite(pre + ([COLON] + n) + post), |Rewrite(pre)|;
            at < |sql| && sql[at] == DOLLAR && ReadName(continues, sql[at + 1..]) == Bare(sigils + n)
  {
    assert forall i :: 0 <= i < |n| ==> continues(n[i]);
    assert n != [] && !IsSigil(n[0]);
    hide *;
    PlaceholderIsRewritten(pre, n, post);
    BareOfSigils(sigils, n);
    AfterDollar(Rewrite(pre), n, Rewrite(post));
    ReadNameStops(continues, n, Rewrite(post));
  }

  lemma {:induction false} AfterDollar(pre: seq<Byte>, n: seq<Byte>, post: seq<Byte>)
    ensures var s := pre + ([DOLLAR] + n) + post; s[|pre|] == DOLLAR && s[|pre| + 1..] == n + post
  {
  }

  // ---------------------------------------------------------------- values

  /** A PHP argument. An array or object is what encoding it as JSON gives, if anything;
      a resource is what reading its stream gives. */
  datatype Arg =
    | Null
    | Bool(b: bool)
    | Long(n: int)
    | Double(bits: nat)
    | Str(s: seq<Byte>)
    | Structured(json: Option<seq<Byte>>)
    | Resource(contents: Option<seq<Byte>>)

  datatype Type = TypeNull | TypeBool | TypeInt | TypeLob | TypeOther

  datatype DuckValue =
    | DNull
    | DBoolean(b: bool)
    | DInt32(n: int)
    | DUint32(n: int)
    | DInt64(n: int)
    | DDouble(bits: nat)
    | DVarchar(s: seq<Byte>)
    | DBlob(s: seq<Byte>)

  datatype Column = Integer | Uinteger | OtherColumn

  /** How PHP turns a string into a bool or a long. */
  datatype Casts = Casts(toBool: seq<Byte> -> bool, toLong: seq<Byte> -> int)

  /** The prepared statement: the index of a name, the type of a parameter, which values
      DuckDB takes where, and what PDO makes of a value when it registers it, if it does. */
  datatype Prepared = Prepared(
    indexOf: seq<Byte> -> Option<nat>,
    typeOf: nat -> Column,
    takes: (nat, DuckValue) -> bool,
    casts: Casts,
    registered: (Arg, Type) -> Option<Arg>)

  const INT32_MIN := -0x8000_0000
  const INT32_MAX := 0x7fff_ffff
  const UINT32_MAX := 0xffff_ffff

  /** The value bound for an argument; none when JSON encoding fails. */
  function Convert(p: Prepared, idx: nat, v: Arg, t: Type): Option<DuckValue> {
    match v
    case Null => Some(DNull)
    case Structured(json) => (match json case Some(s) => Some(DVarchar(s)) case None => None)
    case Resource(contents) => Some(DBlob(match contents case Some(s) => s case None => []))
    case Bool(b) => Some(DBoolean(b))
    case Long(n) =>
      if p.typeOf(idx) == Integer && INT32_MIN <= n <= INT32_MAX then Some(DInt32(n))
      else if p.typeOf(idx) == Uinteger && 0 <= n <= UINT32_MAX then Some(DUint32(n))
      else Some(DInt64(n))
    case Double(bits) => Some(DDouble(bits))
    case Str(s) =>
      match t
      case TypeNull => Some(DNull)
      case TypeBool => Some(DBoolean(p.casts.toBool(s)))
      case TypeInt => Some(DInt64(p.casts.toLong(s)))
      case TypeLob => Some(DBlob(s))
      case TypeOther => Some(DVarchar(s))
  }

  /** The PHP value DuckDB has been given. */
  function ReadBack(d: DuckValue): Arg {
    match d
    case DNull => Null
    case DBoolean(b) => Bool(b)
    case DInt32(n) => Long(n)
    case DUint32(n) => Long(n)
    case DInt64(n) => Long(n)
    case DDouble(bits) => Double(bits)
    case DVarchar(s) => Str(s)
    case DBlob(s) => Str(s)
  }

  /** What a value comes down to: JSON text for an array, the contents of a stream. */
  function Scalar(v: Arg): Option<Arg> {
    match v
    case Structured(json) => (match json case Some(s) => Some(Str(s)) case None => None)
    case Resource(contents) => Some(Str(match contents case Some(s) => s case None => []))
    case _ => Some(v)
  }

  /** What kind of value is bound: BLOB for streams and text bound as LOB; VARCHAR for JSON text
      and other text; 32 bits for integers that fit a column of that width, 64 for the rest;
      text bound as NULL, bool or int becomes that. */
  predicate RightKind(p: Prepared, idx: nat, v: Arg, t: Type, d: DuckValue) {
    && (d.DBlob? <==> v.Resource? || (v.Str? && t.TypeLob?))
    && (d.DVarchar? <==> v.Structured? || (v.Str? && t.TypeOther?))
    && (d.DNull? <==> v.Null? || (v.Str? && t.TypeNull?))
    && (d.DInt32? <==> v.Long? && p.typeOf(idx).Integer? && -2147483648 <= v.n <= 2147483647)
    && (d.DUint32? <==> v.Long? && p.typeOf(idx).Uinteger? && 0 <= v.n <= 4294967295)
    && (d.DDouble? <==> v.Double?)
    && (v.Str? && t.TypeBool? ==> d == DBoolean(p.casts.toBool(v.s)))
    && (v.Str? && t.TypeInt? ==> d == DInt64(p.casts.toLong(v.s)))
  }

  /** DuckDB is given the value PHP has, but for text that is bound as NULL, bool or int; and
      given it as the right kind of value. Nothing is bound exactly when encoding fails. */
  lemma {:induction false} ValuesArrive(p: Prepared, idx: nat, v: Arg, t: Type)
    ensures Convert(p, idx, v, t).None? <==> Scalar(v).None?
    ensures Convert(p, idx, v, t).Some? ==>
              var d := Convert(p, idx, v, t).value;
              && RightKind(p, idx, v, t, d)
              && ((v.Str? ==> t == TypeLob || t == TypeOther) ==> Some(ReadBack(d)) == Scalar(v))
  {
  }

  // ---------------------------------------------------------------- the bound-parameter table

  datatype Key = Position(p: nat) | Named(name: seq<Byte>) | Neither

  /** A value, or the PHP variable a parameter refers to. */
  datatype Source = ByValue(v: Arg) | ByRef(variable: string)

  datatype Bound = Bound(key: Key, source: Source, typ: Type)

  type Vars = map<string, Arg>

  function ValueOf(b: Bound, vars: Vars): Arg {
    match b.source
    case ByValue(v) => v
    case ByRef(x) => if x in vars then vars[x] else Null
  }

  /** An entry as PDO registers it; a variable is converted in place instead. */
  function Register(p: Prepared, b: Bound): Option<Bound> {
    match b.source
    case ByRef(_) => Some(b)
    case ByValue(v) =>
      match p.registered(v, b.typ)
      case None => None
      case Some(u) => Some(b.(source := ByValue(u)))
  }

  /** All entries, unless PDO refuses one. */
  function RegisterAll(p: Prepared, bs: seq<Bound>): (r: Option<seq<Bound>>)
    ensures r.Some? ==> |r.value| == |bs| && forall k :: 0 <= k < |bs| ==> Register(p, bs[k]) == Some(r.value[k])
    ensures r.None? ==> exists k :: 0 <= k < |bs| && Register(p, bs[k]).None?
  {
    if bs == [] then Some([]) else
      match RegisterAll(p, bs[..|bs| - 1])
      case None => None
      case Some(rs) =>
        match Register(p, bs[|bs| - 1])
        case None => None
        case Some(r) => Some(rs + [r])
  }

  /** The DuckDB index of a parameter: positions count from one. */
  function Index(p: Prepared, k: Key): Option<nat> {
    match k
    case Position(n) => Some(n + 1)
    case Neither => None
    case Named(name) =>
      match p.indexOf(Bare(name))
      case None => None
      case Some(i) => if i == 0 then None else Some(i)
  }

  /** Positions have an index each, from one on; a name has the index of its bare form. */
  lemma {:induction false} IndexesAgree(p: Prepared, k: Key, sigils: seq<Byte>, n: seq<Byte>, a: nat, b: nat)
    requires forall i :: 0 <= i < |sigils| ==> IsSigil(sigils[i])
    requires n == [] || !IsSigil(n[0])
    ensures Index(p, k).Some? ==> Index(p, k).value >= 1
    ensures Index(p, Named(sigils + n)) == if p.indexOf(n) == Some(0) then None else p.indexOf(n)
    ensures Index(p, Position(a)) == Some(a + 1)
    ensures Index(p, Position(a)) == Index(p, Position(b)) <==> a == b
  {
    BareOfSigils(sigils, n);
    BareOfSigils([], n);
  }

  /** What the hook binds for a parameter, and where. */
  function Hook(p: Prepared, vars: Vars, b: Bound): Option<(nat, DuckValue)> {
    match Index(p, b.key)
    case None => None
    case Some(i) =>
      match Convert(p, i, ValueOf(b, vars), b.typ)
      case None => None
      case Some(v) => if p.takes(i, v) then Some((i, v)) else None
  }

  /** An entry is refused when its index or its value cannot be had, or DuckDB does not take the
      value there. */
  lemma {:induction false} HookFails(p: Prepared, vars: Vars, b: Bound)
    ensures Hook(p, vars, b).None? <==>
            || Index(p, b.key).None?
            || Scalar(ValueOf(b, vars)).None?
            || !p.takes(Index(p, b.key).value, Convert(p, Index(p, b.key).value, ValueOf(b, vars), b.typ).value)
    ensures Hook(p, vars, b).Some? ==> Index(p, b.key) == Some(Hook(p, vars, b).value.0)
  {
  }

  /** Binding the table entry by entry; the first that fails ends it. */
  function BindAll(p: Prepared, vars: Vars, table: seq<Bound>): Option<map<nat, DuckValue>> {
    if table == [] then Some(map[]) else
      match BindAll(p, vars, table[..|table| - 1])
      case None => None
      case Some(m) =>
        match Hook(p, vars, table[|table| - 1])
        case None => None
        case Some(iv) => Some(m[iv.0 := iv.1])
  }

  /** Registering replaces the entry under the same key. */
  function Put(table: seq<Bound>, b: Bound): seq<Bound> {
    if table == [] then [b]
    else if table[0].key == b.key then [b] + table[1..]
    else [table[0]] + Put(table[1..], b)
  }

  function PutAll(bs: seq<Bound>): seq<Bound> {
    if bs == [] then [] else Put(PutAll(bs[..|bs| - 1]), bs[|bs| - 1])
  }

  /** The last entry under its key. */
  ghost predicate LastUnderKey(bs: seq<Bound>, b: Bound) {
    exists k :: 0 <= k < |bs| && bs[k] == b && forall l :: k < l < |bs| ==> bs[l].key != b.key
  }

  lemma {:induction false} LastOfInit(bs: seq<Bound>, b: Bound)
    requires bs != []
    ensures var n := |bs| - 1;
            LastUnderKey(bs, b) <==> bs[n] == b || (bs[n].key != b.key && LastUnderKey(bs[..n], b))
  {
    var n := |bs| - 1;
    if bs[n].key != b.key && LastUnderKey(bs[..n], b) {
      var k :| 0 <= k < n && bs[..n][k] == b && forall l :: k < l < n ==> bs[..n][l].key != b.key;
      assert forall l :: k < l < n ==> bs[..n][l] == bs[l];
      assert bs[k] == b;
    }
    if LastUnderKey(bs, b) && bs[n] != b {
      var k :| 0 <= k < |bs| && bs[k] == b && forall l :: k < l < |bs| ==> bs[l].key != b.key;
      assert bs[..n][k] == b;
    }
  }

  /** Registering keeps, for each key once, the last entry under it. */
  lemma {:induction false} PutAllExact(bs: seq<Bound>, b: Bound)
    ensures b in PutAll(bs) <==> LastUnderKey(bs, b)
    ensures forall j, k :: 0 <= j < k < |PutAll(bs)| ==> PutAll(bs)[j].key != PutAll(bs)[k].key
  {
    if bs != [] {
      hide LastUnderKey;
      var n := |bs| - 1;
      PutAllExact(bs[..n], b);
      PutExact(PutAll(bs[..n]), bs[n], b);
      LastOfInit(bs, b);
    }
  }

  lemma {:induction false} PutExact(table: seq<Bound>, x: Bound, b: Bound)
    requires forall j, k :: 0 <= j < k < |table| ==> table[j].key != table[k].key
    ensures b in Put(table, x) <==> b == x || (b in table && b.key != x.key)
    ensures var r := Put(table, x); forall j, k :: 0 <= j < k < |r| ==> r[j].key != r[k].key
    ensures forall k :: 0 <= k < |Put(table, x)| ==>
              Put(table, x)[k].key == x.key || exists j :: 0 <= j < |table| && table[j].key == Put(table, x)[k].key
  {
    if table != [] {
      PutExact(table[1..], x, b);
    }
  }

  /** The last entry for index `i` among those that succeed. */
  ghost predicate LastFor(p: Prepared, vars: Vars, table: seq<Bound>, i: nat, k: nat) {
    && k < |table| && Hook(p, vars, table[k]).Some? && Hook(p, vars, table[k]).value.0 == i
    && forall l :: k < l < |table| ==> Hook(p, vars, table[l]).Some? ==> Hook(p, vars, table[l]).value.0 != i
  }

  lemma {:induction false} BindAllSucceeds(p: Prepared, vars: Vars, table: seq<Bound>)
    ensures BindAll(p, vars, table).Some? <==> forall k :: 0 <= k < |table| ==> Hook(p, vars, table[k]).Some?
  {
    hide Hook;
    if table != [] {
      var init := table[..|table| - 1];
      BindAllSucceeds(p, vars, init);
      assert forall k :: 0 <= k < |init| ==> init[k] == table[k];
    }
  }

  /** DuckDB ends up with a value exactly for the indexes in the table, each from the last
      entry for it; and with nothing at all exactly when some entry fails. */
  lemma {:induction false} BindAllExact(p: Prepared, vars: Vars, table: seq<Bound>, i: nat)
    ensures BindAll(p, vars, table).Some? <==> forall k :: 0 <= k < |table| ==> Hook(p, vars, table[k]).Some?
    ensures BindAll(p, vars, table).Some? ==>
              (i in BindAll(p, vars, table).value <==> exists k: nat :: LastFor(p, vars, table, i, k))
    ensures BindAll(p, vars, table).Some? ==>
              forall k: nat :: LastFor(p, vars, table, i, k) ==>
                BindAll(p, vars, table).value[i] == Hook(p, vars, table[k]).value.1
  {
    hide Hook;
    BindAllSucceeds(p, vars, table);
    if table != [] && BindAll(p, vars, table).Some? {
      var n := |table| - 1;
      var init := table[..n];
      BindAllExact(p, vars, init, i);
      assert forall k :: 0 <= k < n ==> init[k] == table[k];
      if Hook(p, vars, table[n]).value.0 == i {
        assert LastFor(p, vars, table, i, n);
      } else {
        forall k: nat ensures LastFor(p, vars, table, i, k) <==> LastFor(p, vars, init, i, k) {
        }
      }
    }
  }

  // ---------------------------------------------------------------- the statement

  /** No arguments, or null; something PDO does not accept; or an array. */
  datatype Args = NoArgs | NotAnArray | Given(entries: seq<(Key, Arg)>)

  datatype Seen = Done | EncodingFailed | Failed

  /** An argument with arrays and objects replaced by their JSON text. */
  function Encoded(v: Arg): Option<Arg> {
    match v
    case Structured(json) => (match json case Some(s) => Some(Str(s)) case None => None)
    case _ => Some(v)
  }

  /** The table the given arguments make, unless one of them cannot be encoded. */
  function EncodedArgs(entries: seq<(Key, Arg)>): Option<seq<Bound>> {
    if entries == [] then Some([]) else
      var last := entries[|entries| - 1];
      match EncodedArgs(entries[..|entries| - 1])
      case None => None
      case Some(bs) =>
        match Encoded(last.1)
        case None => None
        case Some(v) => Some(bs + [Bound(last.0, ByValue(v), TypeOther)])
  }

  predicate Reaches(args: Args) {
    args.Given? ==> EncodedArgs(args.entries).Some?
  }

  class PdoStatement {
    const prepared: Prepared
    var table: seq<Bound>
    var duck: map<nat, DuckValue>
    var vars: Vars
    var runs: seq<map<nat, DuckValue>>  // the bindings of every execution by DuckDB

    /** Between calls DuckDB holds no bindings. */
    predicate Valid()
      reads this
    {
      duck == map[]
    }

    constructor (prepared: Prepared)
      ensures Valid() && this.prepared == prepared && table == [] && vars == map[] && runs == []
    {
      this.prepared, table, duck, vars, runs := prepared, [], map[], map[], [];
    }

    /** JSON text is put in place of an array, then PDO registers the value. */
    method BindValue(key: Key, v: Arg, typ: Type) returns (seen: Seen)
      requires Valid()
      modifies `table
      ensures Valid() && (seen == EncodingFailed <==> Encoded(v).None?)
      ensures Encoded(v).Some? ==>
                var entry := Register(prepared, Bound(key, ByValue(Encoded(v).value), BindType(v, typ)));
                && seen == (if entry.Some? then Done else Failed)
                && (entry.Some? ==> table == Put(old(table), entry.value))
      ensures seen != Done ==> table == old(table)
    {
      var value, t := v, typ;
      if v.Structured? {
        if v.json.None? {
          return EncodingFailed;
        }
        value, t := Str(v.json.value), TypeOther;
      }
      var registered := prepared.registered(value, t);
      if registered.None? {
        return Failed;
      }
      table := Put(table, Bound(key, ByValue(registered.value), t));
      return Done;
    }

    /** JSON text is put in the variable in place of an array, then PDO registers the
        variable, converting it. */
    method BindParam(key: Key, x: string, typ: Type) returns (seen: Seen)
      requires Valid()
      modifies `table, `vars
      ensures Valid()
      ensures var v := ValueOf(Bound(key, ByRef(x), typ), old(vars));
              && (seen == EncodingFailed <==> Encoded(v).None?)
              && vars == Converted(prepared, old(vars), x, v, typ)
              && (Encoded(v).Some? ==>
                    && seen == (if prepared.registered(Encoded(v).value, BindType(v, typ)).Some? then Done else Failed)
                    && (seen == Done ==> table == Put(old(table), Bound(key, ByRef(x), BindType(v, typ)))))
      ensures seen != Done ==> table == old(table)
    {
      var t := typ;
      if x in vars && vars[x].Structured? {
        if vars[x].json.None? {
          return EncodingFailed;
        }
        vars := vars[x := Str(vars[x].json.value)];
        t := TypeOther;
      }
      var registered := prepared.registered(if x in vars then vars[x] else Null, t);
      if registered.None? {
        return Failed;
      }
      vars := vars[x := registered.value];
      table := Put(table, Bound(key, ByRef(x), t));
      return Done;
    }

    /** PDO's own execute: take the arguments as the table if there are any, call the hook
        for each entry, and let DuckDB execute if nothing failed. */
    method OriginalExecute(args: Option<seq<Bound>>) returns (ok: bool)
      requires Valid()
      modifies `table, `duck, `runs
      ensures args.None? ==> table == old(table)
      ensures args.Some? && RegisterAll(prepared, args.value).Some? ==>
                table == PutAll(RegisterAll(prepared, args.value).value)
      ensures ok <==> (args.Some? ==> RegisterAll(prepared, args.value).Some?) && BindAll(prepared, vars, table).Some?
      ensures runs == old(runs) + if ok then [BindAll(prepared, vars, table).value] else []
    {
      hide Hook, Put, Register;
      if args.Some? {
        table := [];
        for i := 0 to |args.value|
          invariant RegisterAll(prepared, args.value[..i]).Some? && duck == map[] && runs == old(runs)
          invariant table == PutAll(RegisterAll(prepared, args.value[..i]).value)
        {
          assert args.value[..i + 1][..i] == args.value[..i];
          var entry := Register(prepared, args.value[i]);
          if entry.None? {
            assert RegisterAll(prepared, args.value).None?;
            return false;
          }
          ghost var rs := RegisterAll(prepared, args.value[..i]).value;
          assert (rs + [entry.value])[..i] == rs;
          table := Put(table, entry.value);
        }
        assert args.value[..|args.value|] == args.value;
      }
      ghost var full := table;
      for i := 0 to |table|
        invariant table == full && runs == old(runs)
        invariant BindAll(prepared, vars, table[..i]) == Some(duck)
      {
        assert table[..i + 1][..i] == table[..i];
        var bound := ParamHook(table[i]);
        if !bound {
          FailsFrom(prepared, vars, table, i + 1);
          return false;
        }
      }
      assert table[..|table|] == table;
      runs := runs + [duck];
      return true;
    }

    /** Binds one parameter, if its index and its value can be had. */
    method ParamHook(b: Bound) returns (ok: bool)
      modifies `duck
      ensures ok == Hook(prepared, vars, b).Some?
      ensures duck ==
              if ok then old(duck)[Hook(prepared, vars, b).value.0 := Hook(prepared, vars, b).value.1] else old(duck)
    {
      var idx;
      match b.key {
        case Position(p) => idx := p + 1;
        case Named(name) =>
          var start := SkipSigils(name);
          var found := prepared.indexOf(name[start..]);
          if found.None? || found.value == 0 {
            return false;
          }
          idx := found.value;
        case Neither => return false;
      }
      var v := Convert(prepared, idx, ValueOf(b, vars), b.typ);
      if v.None? || !prepared.takes(idx, v.value) {
        return false;
      }
      duck := duck[idx := v.value];
      return true;
    }

    /** Arguments that cannot be encoded change nothing. Otherwise DuckDB executes with
        exactly the arguments, or exactly what was bound, and both stores end empty. */
    method Execute(args: Args) returns (seen: Seen)
      requires Valid()
      modifies `table, `duck, `runs
      ensures Valid()
      ensures seen == EncodingFailed <==> !Reaches(args)
      ensures table == if Reaches(args) then [] else old(table)
      ensures Reaches(args) ==>
                var m := Effective(prepared, vars, old(table), args);
                seen == (if m.Some? then Done else Failed) && runs == old(runs) + if m.Some? then [m.value] else []
      ensures !Reaches(args) ==> runs == old(runs)
    {
      var given := None;
      if args.Given? {
        var bs := [];
        for i := 0 to |args.entries|
          invariant EncodedArgs(args.entries[..i]) == Some(bs)
        {
          assert args.entries[..i + 1][..i] == args.entries[..i];
          var v := Encoded(args.entries[i].1);
          if v.None? {
            CannotEncode(args.entries, i + 1);
            return EncodingFailed;
          }
          bs := bs + [Bound(args.entries[i].0, ByValue(v.value), TypeOther)];
        }
        assert args.entries[..|args.entries|] == args.entries;
        given := Some(bs);
      }
      var ok := false;
      if !args.NotAnArray? {
        ok := OriginalExecute(given);
      }
      duck := map[];
      table := [];
      seen := if ok then Done else Failed;
    }
  }

  /** The variables after `x`, with value `v`, is bound: JSON text in place of an array, and
      what PDO makes of it when it registers it. */
  function Converted(p: Prepared, vars: Vars, x: string, v: Arg, typ: Type): Vars {
    if Encoded(v).None? then vars
    else match p.registered(Encoded(v).value, BindType(v, typ))
      case Some(u) => vars[x := u]
      case None => if v.Structured? then vars[x := Encoded(v).value] else vars
  }

  /** The type a value is bound with: JSON text is text. */
  function BindType(v: Arg, typ: Type): Type { if v.Structured? then TypeOther else typ }

  /** The bindings DuckDB executes with, if it gets to execute. */
  function Effective(p: Prepared, vars: Vars, table: seq<Bound>, args: Args): Option<map<nat, DuckValue>>
    requires Reaches(args)
  {
    match args
    case NoArgs => BindAll(p, vars, table)
    case NotAnArray => None
    case Given(entries) =>
      match RegisterAll(p, EncodedArgs(entries).value)
      case None => None
      case Some(bs) => BindAll(p, vars, PutAll(bs))
  }

  // ---------------------------------------------------------------- what DuckDB is given

  /** DuckDB takes the value, it is of the right kind, and reading it back gives what the entry
      stands for: the value itself, JSON text for an array, the contents for a stream; but for
      text bound as NULL, bool or int. */
  predicate Arrives(p: Prepared, i: nat, b: Bound, vars: Vars, d: DuckValue) {
    && p.takes(i, d) && RightKind(p, i, ValueOf(b, vars), b.typ, d)
    && ((ValueOf(b, vars).Str? ==> b.typ == TypeLob || b.typ == TypeOther) ==>
          Some(ReadBack(d)) == Scalar(ValueOf(b, vars)))
  }

  /** Entry `k` is the last for index `i`, and arrived as `d`. */
  ghost predicate LastArrives(p: Prepared, vars: Vars, table: seq<Bound>, i: nat, d: DuckValue, k: nat) {
    LastFor(p, vars, table, i, k) && Arrives(p, i, table[k], vars, d)
  }

  /** Each index has the value of the last entry for it. */
  lemma {:induction false} BoundValuesArrive(p: Prepared, vars: Vars, table: seq<Bound>, i: nat)
    requires BindAll(p, vars, table).Some? && i in BindAll(p, vars, table).value
    ensures exists k: nat :: LastArrives(p, vars, table, i, BindAll(p, vars, table).value[i], k)
  {
    BindAllExact(p, vars, table, i);
    var k: nat :| LastFor(p, vars, table, i, k);
    ValuesArrive(p, i, ValueOf(table[k], vars), table[k].typ);
    assert LastArrives(p, vars, table, i, BindAll(p, vars, table).value[i], k);
  }

  lemma {:induction false} EncodedAll(entries: seq<(Key, Arg)>)
    requires EncodedArgs(entries).Some?
    ensures |EncodedArgs(entries).value| == |entries|
    ensures forall k :: 0 <= k < |entries| ==>
              && Encoded(entries[k].1).Some?
              && EncodedArgs(entries).value[k] == Bound(entries[k].0, ByValue(Encoded(entries[k].1).value), TypeOther)
  {
    if entries != [] {
      var init := entries[..|entries| - 1];
      EncodedAll(init);
      assert forall k :: 0 <= k < |init| ==> init[k] == entries[k];
    }
  }

  /** An argument is for index `i` and arrived as `d`: JSON text for an array, then what PDO
      makes of that when it registers it as text. */
  predicate GivenArrives(p: Prepared, key: Key, v: Arg, i: nat, d: DuckValue) {
    && Index(p, key) == Some(i) && (v.Structured? ==> v.json.Some?)
    && RegisteredArrives(p, if v.Structured? then Str(v.json.value) else v, d)
  }

  predicate RegisteredArrives(p: Prepared, v: Arg, d: DuckValue) {
    && p.registered(v, TypeOther).Some?
    && Some(ReadBack(d)) == Scalar(p.registered(v, TypeOther).value)
    && (p.registered(v, TypeOther).value.Str? ==> d == DVarchar(p.registered(v, TypeOther).value.s))
  }

  /** Argument `k` is the last under its key. */
  ghost predicate LastGiven(entries: seq<(Key, Arg)>, k: nat) {
    k < |entries| && forall l :: k < l < |entries| ==> entries[l].0 != entries[k].0
  }

  ghost predicate ArgumentArrives(p: Prepared, entries: seq<(Key, Arg)>, i: nat, d: DuckValue, k: nat) {
    LastGiven(entries, k) && GivenArrives(p, entries[k].0, entries[k].1, i, d)
  }

  lemma {:induction false} OneArgument(p: Prepared, vars: Vars, key: Key, v: Arg, b: Bound, i: nat, d: DuckValue)
    requires Encoded(v).Some?
    requires Register(p, Bound(key, ByValue(Encoded(v).value), TypeOther)) == Some(b)
    requires Index(p, b.key) == Some(i) && Arrives(p, i, b, vars, d)
    ensures b.key == key && GivenArrives(p, key, v, i, d)
  {
  }

  /** Arguments can be encoded exactly when no array among them cannot. */
  lemma {:induction false} EncodingFails(entries: seq<(Key, Arg)>)
    ensures EncodedArgs(entries).None? <==>
            exists k :: 0 <= k < |entries| && entries[k].1.Structured? && entries[k].1.json.None?
  {
    if entries != [] {
      var init := entries[..|entries| - 1];
      EncodingFails(init);
      assert forall k :: 0 <= k < |init| ==> init[k] == entries[k];
    }
  }

  lemma {:induction false} ArgumentBehind(p: Prepared, vars: Vars, entries: seq<(Key, Arg)>, b: Bound, i: nat,
                                          d: DuckValue)
    requires EncodedArgs(entries).Some? && RegisterAll(p, EncodedArgs(entries).value).Some?
    requires LastUnderKey(RegisterAll(p, EncodedArgs(entries).value).value, b)
    requires Index(p, b.key) == Some(i) && Arrives(p, i, b, vars, d)
    ensures exists k: nat :: ArgumentArrives(p, entries, i, d, k)
  {
    EncodedAll(entries);
    var encoded := EncodedArgs(entries).value;
    var all := RegisterAll(p, encoded).value;
    hide EncodedArgs, RegisterAll, Index, Arrives, GivenArrives, Encoded;
    var k :| 0 <= k < |all| && all[k] == b && forall l :: k < l < |all| ==> all[l].key != b.key;
    forall l | 0 <= l < |entries| ensures all[l].key == entries[l].0 {
      assert Register(p, encoded[l]) == Some(all[l]);
    }
    assert Register(p, encoded[k]) == Some(b);
    OneArgument(p, vars, entries[k].0, entries[k].1, b, i, d);
    assert ArgumentArrives(p, entries, i, d, k);
  }

  /** An execute with arguments: whatever DuckDB executes with at an index is an argument for
      that index, as PDO registered it. */
  lemma {:induction false} ArgumentsArrive(p: Prepared, vars: Vars, table: seq<Bound>, entries: seq<(Key, Arg)>, i: nat)
    requires Reaches(Given(entries)) && Effective(p, vars, table, Given(entries)).Some?
    requires i in Effective(p, vars, table, Given(entries)).value
    ensures exists k: nat ::
              ArgumentArrives(p, entries, i, Effective(p, vars, table, Given(entries)).value[i], k)
  {
    hide Convert, EncodedArgs, PutAll, LastUnderKey, Arrives, ArgumentArrives, BindAll;
    var all := RegisterAll(p, EncodedArgs(entries).value).value;
    var d := Effective(p, vars, table, Given(entries)).value[i];
    BoundValuesArrive(p, vars, PutAll(all), i);
    var n: nat :| LastArrives(p, vars, PutAll(all), i, d, n);
    PutAllExact(all, PutAll(all)[n]);
    ArgumentBehind(p, vars, entries, PutAll(all)[n], i, d);
  }

  lemma {:induction false} FailsFrom(p: Prepared, vars: Vars, table: seq<Bound>, n: nat)
    requires n <= |table| && BindAll(p, vars, table[..n]).None?
    ensures BindAll(p, vars, table).None?
    decreases |table|
  {
    if n == |table| {
      assert table[..n] == table;
    } else {
      var init := table[..|table| - 1];
      assert init[..n] == table[..n];
      FailsFrom(p, vars, init, n);
    }
  }

  lemma {:induction false} CannotEncode(entries: seq<(Key, Arg)>, n: nat)
    requires n <= |entries| && EncodedArgs(entries[..n]).None?
    ensures EncodedArgs(entries).None?
    decreases |entries|
  {
    if n == |entries| {
      assert entries[..n] == entries;
    } else {
      var init := entries[..|entries| - 1];
      assert init[..n] == entries[..n];
      CannotEncode(init, n);
    }
  }

  // ---------------------------------------------------------------- whole runs

  datatype Op =
    | BindValue(key: Key, v: Arg, typ: Type)
    | BindParam(key: Key, x: string, typ: Type)
    | Assign(x: string, v: Arg)
    | Execute(args: Args)

  /** The variables after one more call: an assignment, or what binding puts in a variable. */
  function VarsThen(p: Prepared, vars: Vars, op: Op): Vars {
    match op
    case Assign(x, v) => vars[x := v]
    case BindParam(key, x, typ) =>
      var v := ValueOf(Bound(key, ByRef(x), typ), vars);
      Converted(p, vars, x, v, typ)
    case _ => vars
  }

  function VarsAfter(p: Prepared, ops: seq<Op>): Vars {
    if ops == [] then map[] else VarsThen(p, VarsAfter(p, ops[..|ops| - 1]), ops[|ops| - 1])
  }

  /** The entry a bind call adds, if it takes effect. */
  function Entry(p: Prepared, vars: Vars, op: Op): Option<Bound> {
    match op
    case BindValue(key, v, typ) =>
      if Encoded(v).None? then None
      else Register(p, Bound(key, ByValue(Encoded(v).value), BindType(v, typ)))
    case BindParam(key, x, typ) =>
      var v := ValueOf(Bound(key, ByRef(x), typ), vars);
      if Encoded(v).None? || p.registered(Encoded(v).value, BindType(v, typ)).None? then None
      else Some(Bound(key, ByRef(x), BindType(v, typ)))
    case _ => None
  }

  /** An array is bound as its JSON text, as text, whatever type was asked for; any other value
      as itself, with the type asked for; a variable with its value then, to be read later. */
  lemma {:induction false} EntriesAreAsBound(p: Prepared, vars: Vars, key: Key, v: Arg, x: string, typ: Type)
    requires v.Structured? ==> v.json.Some?
    ensures var given := if v.Structured? then Str(v.json.value) else v;
            var t := if v.Structured? then TypeOther else typ;
            p.registered(given, t).Some? ==>
              && var u := p.registered(given, t).value;
              && Entry(p, vars, BindValue(key, v, typ)) == Some(Bound(key, ByValue(u), t))
              && (x in vars && vars[x] == v ==>
                    && Entry(p, vars, BindParam(key, x, typ)) == Some(Bound(key, ByRef(x), t))
                    && VarsThen(p, vars, BindParam(key, x, typ)) == vars[x := u])
  {
  }

  predicate Forgets(op: Op) { op.Execute? && Reaches(op.args) }

  /** The bind calls that took effect, looking back no further than the last execute that
      reached PDO's own. */
  function BoundSince(p: Prepared, ops: seq<Op>): seq<Bound> {
    if ops == [] || Forgets(ops[|ops| - 1]) then [] else
      BoundSince(p, ops[..|ops| - 1]) + Listed(Entry(p, VarsAfter(p, ops[..|ops| - 1]), ops[|ops| - 1]))
  }

  function Listed(e: Option<Bound>): seq<Bound> { if e.Some? then [e.value] else [] }

  /** What DuckDB executes at a call, with these parameters bound before. */
  function Now(p: Prepared, vars: Vars, bound: seq<Bound>, op: Op): seq<map<nat, DuckValue>> {
    if !Forgets(op) then [] else
      match Effective(p, vars, PutAll(bound), op.args)
      case Some(m) => [m]
      case None => []
  }

  /** What DuckDB should have executed with, told from the calls alone. */
  function Expected(p: Prepared, ops: seq<Op>): seq<map<nat, DuckValue>> {
    if ops == [] then [] else
      var init := ops[..|ops| - 1];
      Expected(p, init) + Now(p, VarsAfter(p, init), BoundSince(p, init), ops[|ops| - 1])
  }

  lemma {:induction false} OneCallMore(p: Prepared, ops: seq<Op>, op: Op)
    ensures VarsAfter(p, ops + [op]) == VarsThen(p, VarsAfter(p, ops), op)
    ensures Expected(p, ops + [op]) == Expected(p, ops) + Now(p, VarsAfter(p, ops), BoundSince(p, ops), op)
    ensures BoundSince(p, ops + [op]) ==
              if Forgets(op) then [] else BoundSince(p, ops) + Listed(Entry(p, VarsAfter(p, ops), op))
  {
    assert (ops + [op])[..|ops|] == ops;
  }

  /** An execute without arguments runs with what was bound since, and nothing else: at an
      index stands what the last entry under its key stands for, as bound. */
  lemma {:induction false} BoundIsExecuted(p: Prepared, ops: seq<Op>, i: nat)
    ensures var m := BindAll(p, VarsAfter(p, ops), PutAll(BoundSince(p, ops)));
            && Expected(p, ops + [Execute(NoArgs)]) == Expected(p, ops) + (if m.Some? then [m.value] else [])
            && (m.Some? && i in m.value ==>
                  exists b :: && LastUnderKey(BoundSince(p, ops), b) && Index(p, b.key) == Some(i)
                              && Arrives(p, i, b, VarsAfter(p, ops), m.value[i]))
  {
    var vars, table := VarsAfter(p, ops), PutAll(BoundSince(p, ops));
    OneCallMore(p, ops, Execute(NoArgs));
    if BindAll(p, vars, table).Some? && i in BindAll(p, vars, table).value {
      BoundValuesArrive(p, vars, table, i);
      var k: nat :| LastArrives(p, vars, table, i, BindAll(p, vars, table).value[i], k);
      HookFails(p, vars, table[k]);
      PutAllExact(BoundSince(p, ops), table[k]);
    }
  }

  /** One call, on a statement whose table holds the entries of `bound`. */
  method Call(s: PdoStatement, op: Op, ghost bound: seq<Bound>)
    requires s.Valid() && s.table == PutAll(bound)
    modifies s
    ensures s.Valid() && s.vars == VarsThen(s.prepared, old(s.vars), op)
    ensures s.runs == old(s.runs) + Now(s.prepared, old(s.vars), bound, op)
    ensures s.table == if Forgets(op) then [] else
                       match Entry(s.prepared, old(s.vars), op)
                       case None => old(s.table)
                       case Some(b) => Put(old(s.table), b)
  {
    hide Put, PutAll, BindAll, EncodedArgs;
    match op {
      case BindValue(key, v, typ) => var seen := s.BindValue(key, v, typ);
      case BindParam(key, x, typ) => var seen := s.BindParam(key, x, typ);
      case Assign(x, v) => s.vars := s.vars[x := v];
      case Execute(args) => var seen := s.Execute(args);
    }
  }

  /** Whatever is bound, assigned and executed, in any order and with any failures, each
      execution sees what it should and nothing older. */
  method Live(p: Prepared, ops: seq<Op>) returns (s: PdoStatement)
    ensures fresh(s) && s.Valid() && s.runs == Expected(p, ops)
  {
    s := new PdoStatement(p);
    for i := 0 to |ops|
      invariant fresh(s) && s.Valid() && s.prepared == p && s.vars == VarsAfter(p, ops[..i])
      invariant s.table == PutAll(BoundSince(p, ops[..i])) && s.runs == Expected(p, ops[..i])
    {
      hide VarsAfter, BoundSince, Expected, PutAll, Entry, VarsThen, Now, Forgets;
      assert ops[..i + 1] == ops[..i] + [ops[i]];
      OneCallMore(p, ops[..i], ops[i]);
      OneEntryMore(BoundSince(p, ops[..i]), Entry(p, s.vars, ops[i]));
      Call(s, ops[i], BoundSince(p, ops[..i]));
    }
    assert ops[..|ops|] == ops;
  }

  lemma {:induction false} OneEntryMore(bound: seq<Bound>, e: Option<Bound>)
    ensures PutAll([]) == []
    ensures PutAll(bound + Listed(e)) == if e.Some? then Put(PutAll(bound), e.value) else PutAll(bound)
  {
    match e
    case None => assert bound + [] == bound;
    case Some(b) => assert (bound + [b])[..|bound|] == bound;
  }

  /** What is bound after an execute that reached PDO's own does not depend on what was
      bound or executed before it, and neither does any execution that follows. */
  lemma {:induction false} PastIsForgotten(p: Prepared, a: seq<Op>, b: seq<Op>, args: Args, rest: seq<Op>)
    returns (later: seq<map<nat, DuckValue>>)
    requires Reaches(args) && VarsAfter(p, a) == VarsAfter(p, b)
    ensures var x, y := a + [Execute(args)], b + [Execute(args)];
            && VarsAfter(p, x + rest) == VarsAfter(p, y + rest) && BoundSince(p, x + rest) == BoundSince(p, y + rest)
            && Expected(p, x + rest) == Expected(p, x) + later && Expected(p, y + rest) == Expected(p, y) + later
  {
    hide Now, VarsThen, Entry, VarsAfter, BoundSince, Expected;
    var x, y := a + [Execute(args)], b + [Execute(args)];
    if rest == [] {
      assert x + rest == x && y + rest == y;
      OneCallMore(p, a, Execute(args));
      OneCallMore(p, b, Execute(args));
      later := [];
    } else {
      var init, op := rest[..|rest| - 1], rest[|rest| - 1];
      later := PastIsForgotten(p, a, b, args, init);
      assert x + rest == (x + init) + [op] && y + rest == (y + init) + [op];
      OneCallMore(p, x + init, op);
      OneCallMore(p, y + init, op);
      later := later + Now(p, VarsAfter(p, x + init), BoundSince(p, x + init), op);
    }
  }
}
