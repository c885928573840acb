/** `duckdb_handle_quoter` and the SQL reading of what it writes. */
module Quoting {
  import opened Bytes
  import opened Wrappers

  function Quotes(v: seq<Byte>): nat {
    multiset(v)[QUOTE]
  }

  function Double(b: Byte): seq<Byte> {
    if b == QUOTE then [QUOTE, QUOTE] else [b]
  }

  function Doubled(v: seq<Byte>): (r: seq<Byte>) {
    if v == [] then [] else Doubled(v[..|v| - 1]) + Double(v[|v| - 1])
  }

  /** The SQL string literal for `v`. */
  function Quote(v: seq<Byte>): seq<Byte> {
    [QUOTE] + Doubled(v) + [QUOTE]
  }

  /** Reads the inside of a literal up to its closing quote, a doubled quote standing
      for one quote (section 5.3 of ISO/IEC 9075-2); returns the value and the rest. */
  function ReadBody(s: seq<Byte>): Option<(seq<Byte>, seq<Byte>)> {
    if s == [] then None
    else if s[0] != QUOTE then
      match ReadBody(s[1..])
      case None => None
      case Some(p) => Some(([s[0]] + p.0, p.1))
    else if |s| > 1 && s[1] == QUOTE then
      match ReadBody(s[2..])
      case None => None
      case Some(p) => Some(([QUOTE] + p.0, p.1))
    else Some(([], s[1..]))
  }

  function ReadLiteral(s: seq<Byte>): Option<(seq<Byte>, seq<Byte>)> {
    if s == [] || s[0] != QUOTE then None else ReadBody(s[1..])
  }

  lemma {:induction false} DoubledConcat(a: seq<Byte>, b: seq<Byte>)
    ensures Doubled(a + b) == Doubled(a) + Doubled(b)
    decreases |b|
  {
    if b == [] {
      assert a + b == a;
    } else {
      var b', last := b[..|b| - 1], Double(b[|b| - 1]);
      DoubledConcat(a, b');
      assert (a + b)[..|a + b| - 1] == a + b';
      Assoc(Doubled(a), Doubled(b'), last);
    }
  }

  lemma {:induction false} DoubledCons(b: Byte, v: seq<Byte>)
    ensures Doubled([b] + v) == Double(b) + Doubled(v)
  {
    DoubledConcat([b], v);
    assert Doubled([b]) == Doubled([]) + Double(b);
  }

  lemma {:induction false} DoubledLength(v: seq<Byte>)
    ensures |Doubled(v)| == |v| + Quotes(v) <= 2 * |v|
  {
    if v != [] {
      DoubledLength(v[..|v| - 1]);
      assert v == v[..|v| - 1] + [v[|v| - 1]];
    }
  }

  lemma {:induction false} ReadOne(b: Byte, tail: seq<Byte>)
    requires ReadBody(tail).Some?
    ensures ReadBody(Double(b) + tail) == Some(([b] + ReadBody(tail).value.0, ReadBody(tail).value.1))
  {
    var s := Double(b) + tail;
    assert s[|Double(b)|..] == tail;
  }

  lemma {:induction false} ReadDoubled(v: seq<Byte>, rest: seq<Byte>)
    requires rest == [] || rest[0] != QUOTE
    ensures ReadBody(Doubled(v) + ([QUOTE] + rest)) == Some((v, rest))
  {
    var end := [QUOTE] + rest;
    if v == [] {
      assert end[1..] == rest && Doubled(v) + end == end;
    } else {
      var b, v' := v[0], v[1..];
      assert v == [b] + v';
      ReadDoubled(v', rest);
      DoubledCons(b, v');
      ReadOne(b, Doubled(v') + end);
      Assoc(Double(b), Doubled(v'), end);
    }
  }

  /** Reading a quoted value gives the value back and stops exactly at its end,
      unless the SQL that follows glues another quote to it. */
  lemma {:induction false} ReadQuoted(v: seq<Byte>, rest: seq<Byte>)
    requires rest == [] || rest[0] != QUOTE
    ensures ReadLiteral(Quote(v) + rest) == Some((v, rest))
  {
    ReadDoubled(v, rest);
    assert (Quote(v) + rest)[1..] == Doubled(v) + ([QUOTE] + rest);
  }

  lemma {:induction false} ReadOneBack(s: seq<Byte>) returns (tail: seq<Byte>)
    requires ReadBody(s).Some? && (s[0] != QUOTE || (|s| > 1 && s[1] == QUOTE))
    ensures s == Double(s[0]) + tail && |tail| < |s| && ReadBody(tail).Some?
    ensures ReadBody(s).value == ([s[0]] + ReadBody(tail).value.0, ReadBody(tail).value.1)
  {
    tail := s[|Double(s[0])|..];
  }

  lemma {:induction false} ReadBodyIsDoubled(s: seq<Byte>)
    requires ReadBody(s).Some?
    ensures s == Doubled(ReadBody(s).value.0) + ([QUOTE] + ReadBody(s).value.1)
  {
    if s[0] != QUOTE || (|s| > 1 && s[1] == QUOTE) {
      var tail := ReadOneBack(s);
      ReadBodyIsDoubled(tail);
      var (v, rest) := ReadBody(tail).value;
      DoubledCons(s[0], v);
      Assoc(Double(s[0]), Doubled(v), [QUOTE] + rest);
    } else {
      assert s == [QUOTE] + s[1..];
    }
  }

  lemma {:induction false} Assoc(a: seq<Byte>, b: seq<Byte>, c: seq<Byte>)
    ensures a + b + c == a + (b + c)
  {
  }

  /** A text is a whole SQL literal for `v` exactly when it is what the quoter writes. */
  lemma {:induction false} QuoteIsTheOnlyLiteral(t: seq<Byte>, v: seq<Byte>)
    ensures ReadLiteral(t) == Some((v, [])) <==> t == Quote(v)
  {
    ReadQuoted(v, []);
    assert Quote(v) + [] == Quote(v);
    if ReadLiteral(t) == Some((v, [])) {
      ReadBodyIsDoubled(t[1..]);
      assert t == [QUOTE] + t[1..];
      assert [QUOTE] + [] == [QUOTE];
      assert t[1..] == Doubled(v) + [QUOTE];
    }
  }

  /** Stripping NUL bytes and quoting commute. */
  lemma {:induction false} StripQuote(v: seq<Byte>)
    ensures Strip(Quote(v)) == Quote(Strip(v))
  {
    StripDoubled(v);
    StripConcat([QUOTE] + Doubled(v), [QUOTE]);
    StripConcat([QUOTE], Doubled(v));
    StripIdentity([QUOTE]);
  }

  lemma {:induction false} StripDoubled(v: seq<Byte>)
    ensures Strip(Doubled(v)) == Doubled(Strip(v))
  {
    if v != [] {
      var init, last := v[..|v| - 1], v[|v| - 1];
      StripDoubled(init);
      StripConcat(Doubled(init), Double(last));
      if last == NUL {
        assert Strip([NUL]) == Strip([]);
      } else {
        StripIdentity(Double(last));
        assert (Strip(init) + [last])[..|Strip(init)|] == Strip(init);
      }
    }
  }

  /** The quoter fills a buffer of 2n + 3 bytes and never overruns it. */
  method HandleQuoter(unquoted: seq<Byte>) returns (q: array<Byte>, length: nat)
    ensures q.Length == 2 * |unquoted| + 3
    ensures length == |unquoted| + Quotes(unquoted) + 2 < q.Length
    ensures q[..length] == Quote(unquoted) && q[length] == NUL
  {
    q := new Byte[|unquoted| * 2 + 3];
    var j := 1;
    q[0] := QUOTE;
    for i := 0 to |unquoted|
      invariant j == 1 + |Doubled(unquoted[..i])| <= 1 + 2 * i
      invariant q[..j] == [QUOTE] + Doubled(unquoted[..i])
    {
      assert unquoted[..i + 1][..i] == unquoted[..i];
      ghost var before := q[..j];
      if unquoted[i] == QUOTE {
        q[j] := QUOTE;
        j := j + 1;
      }
      q[j] := unquoted[i];
      j := j + 1;
      assert q[..j] == before + Double(unquoted[i]);
      Assoc([QUOTE], Doubled(unquoted[..i]), Double(unquoted[i]));
    }
    assert unquoted[..|unquoted|] == unquoted;
    DoubledLength(unquoted);
    q[j] := QUOTE;
    j := j + 1;
    q[j] := NUL;
    length := j;
  }
}
