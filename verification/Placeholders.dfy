/** `zstr_prepare` and `zstr_strip_zerobytes`: SQL text on its way to DuckDB. */
module Placeholders {
  import opened Bytes
  import opened Quoting
  import opened Wrappers

  /** Where in the SQL text a byte stands. */
  datatype Mode = Outside | InSingle | InDouble

  function Next(m: Mode, b: Byte): Mode {
    match m
    case Outside => if b == QUOTE then InSingle else if b == DQUOTE then InDouble else Outside
    case InSingle => if b == QUOTE then Outside else InSingle
    case InDouble => if b == DQUOTE then Outside else InDouble
  }

  function ModeFrom(m: Mode, s: seq<Byte>): Mode {
    if s == [] then m else Next(ModeFrom(m, s[..|s| - 1]), s[|s| - 1])
  }

  function ModeAfter(s: seq<Byte>): Mode {
    ModeFrom(Outside, s)
  }

  /** Byte `i` is a colon outside quotes, right before a name and not after a colon. */
  predicate Marks(src: seq<Byte>, i: nat)
    requires i < |src|
  {
    && src[i] == COLON
    && ModeAfter(src[..i]) == Outside
    && i + 1 < |src| && IsNameStart(src[i + 1])
    && (i == 0 || src[i - 1] != COLON)
  }

  function Emit(src: seq<Byte>, n: nat): (r: seq<Byte>)
    requires n <= |src|
    ensures NulFree(r) && |r| <= n
  {
    if n == 0 then [] else
      var done := Emit(src, n - 1);
      if src[n - 1] == NUL then done
      else done + [if Marks(src, n - 1) then DOLLAR else src[n - 1]]
  }

  /** The SQL text DuckDB receives. */
  function Rewrite(src: seq<Byte>): (r: seq<Byte>)
    ensures NulFree(r) && |r| <= |src|
  {
    Emit(src, |src|)
  }

  /** Whether a statement of the rewritten text starts a new literal right away. */
  predicate StartsWithQuote(s: seq<Byte>) {
    s != [] && s[0] == QUOTE
  }

  // ---------------------------------------------------------------- the scanners

  method ZstrPrepare(src: seq<Byte>) returns (dst: array<Byte>)
    ensures dst.Length == |src| + 1
    ensures CString(dst[..]) == Rewrite(src)
  {
    dst := new Byte[|src| + 1];
    var j, inSq, inDq := 0, false, false;
    for i := 0 to |src|
      invariant j <= i
      invariant !(inSq && inDq)
      invariant ModeAfter(src[..i]) == if inSq then InSingle else if inDq then InDouble else Outside
      invariant dst[..j] == Emit(src, i)
    {
      assert src[..i + 1][..i] == src[..i];
      if src[i] == NUL {
        continue;
      }
      if src[i] == QUOTE && !inDq {
        inSq := !inSq;
      } else if src[i] == DQUOTE && !inSq {
        inDq := !inDq;
      }
      if !inSq && !inDq && src[i] == COLON && i + 1 < |src| && IsNameStart(src[i + 1])
         && (i == 0 || src[i - 1] != COLON) {
        dst[j] := DOLLAR;
      } else {
        dst[j] := src[i];
      }
      j := j + 1;
    }
    dst[j] := NUL;
    assert dst[..] == Rewrite(src) + [NUL] + dst[j + 1..];
    CStringOfTerminated(Rewrite(src), dst[j + 1..]);
  }

  method ZstrStripZerobytes(src: seq<Byte>) returns (dst: array<Byte>)
    ensures dst.Length == |src| + 1
    ensures CString(dst[..]) == Strip(src)
  {
    dst := new Byte[|src| + 1];
    if NUL !in src {
      forall i | 0 <= i < |src| { dst[i] := src[i]; }
      dst[|src|] := NUL;
      StripIdentity(src);
      assert dst[..] == src + [NUL] + [];
      CStringOfTerminated(src, []);
      return;
    }
    var j := 0;
    for i := 0 to |src|
      invariant j <= i
      invariant dst[..j] == Strip(src[..i])
    {
      assert src[..i + 1][..i] == src[..i];
      if src[i] == NUL {
        continue;
      }
      dst[j] := src[i];
      j := j + 1;
    }
    dst[j] := NUL;
    assert src[..|src|] == src;
    assert dst[..] == Strip(src) + [NUL] + dst[j + 1..];
    CStringOfTerminated(Strip(src), dst[j + 1..]);
  }

  // ---------------------------------------------------------------- byte by byte

  /** Where byte `i` goes once the NUL bytes before it are gone. */
  function Position(s: seq<Byte>, i: nat): nat
    requires i <= |s|
  {
    |Strip(s[..i])|
  }

  lemma {:induction false} EmitLocal(a: seq<Byte>, b: seq<Byte>, n: nat)
    requires n <= |a| && n <= |b| && a[..n] == b[..n]
    requires forall i :: 0 <= i < n && a[i] == COLON ==> (Marks(a, i) <==> Marks(b, i))
    ensures Emit(a, n) == Emit(b, n)
  {
    if n > 0 {
      assert a[n - 1] == a[..n][n - 1] == b[..n][n - 1] == b[n - 1];
      assert a[..n - 1] == a[..n][..n - 1] == b[..n][..n - 1] == b[..n - 1];
      EmitLocal(a, b, n - 1);
    }
  }

  lemma {:induction false} EmitPrefix(s: seq<Byte>, n: nat, m: nat)
    requires n <= m <= |s|
    ensures |Emit(s, n)| <= |Emit(s, m)| && Emit(s, m)[..|Emit(s, n)|] == Emit(s, n)
  {
    if n < m {
      EmitPrefix(s, n, m - 1);
    }
  }

  lemma {:induction false} EmitLength(s: seq<Byte>, n: nat)
    requires n <= |s|
    ensures |Emit(s, n)| == Position(s, n)
  {
    if n > 0 {
      EmitLength(s, n - 1);
      assert s[..n][..n - 1] == s[..n - 1];
    }
  }

  lemma {:induction false} ModeStep(m: Mode, s: seq<Byte>, b: Byte)
    ensures ModeFrom(m, s + [b]) == Next(ModeFrom(m, s), b)
  {
    assert (s + [b])[..|s|] == s;
  }

  lemma {:induction false} EmitMode(s: seq<Byte>, n: nat)
    requires n <= |s|
    ensures ModeAfter(Emit(s, n)) == ModeAfter(Strip(s[..n])) == ModeAfter(s[..n])
  {
    if n > 0 {
      EmitMode(s, n - 1);
      assert s[..n][..n - 1] == s[..n - 1];
      if s[n - 1] != NUL {
        ModeStep(Outside, Emit(s, n - 1), if Marks(s, n - 1) then DOLLAR else s[n - 1]);
        ModeStep(Outside, Strip(s[..n - 1]), s[n - 1]);
      }
    }
  }

  lemma {:induction false} StrippedByteAt(s: seq<Byte>, i: nat)
    requires i < |s| && s[i] != NUL
    ensures var k := Position(s, i);
            k < |Strip(s)| && Strip(s)[k] == s[i] && Strip(s)[..k] == Strip(s[..i])
    ensures Position(s, i + 1) == Position(s, i) + 1
  {
    assert s == s[..i + 1] + s[i + 1..];
    StripConcat(s[..i + 1], s[i + 1..]);
    assert s[..i + 1][..i] == s[..i];
  }

  /** Byte `i`, unless NUL, is found at its position, with a marked colon replaced;
      the scanner is in the same mode there on every side. */
  lemma {:induction false} ByteAt(s: seq<Byte>, i: nat)
    requires i < |s| && s[i] != NUL
    ensures var k := Position(s, i);
            && k < |Rewrite(s)| == |Strip(s)|
            && Strip(s)[k] == s[i]
            && Rewrite(s)[k] == (if Marks(s, i) then DOLLAR else s[i])
            && ModeAfter(Rewrite(s)[..k]) == ModeAfter(Strip(s)[..k]) == ModeAfter(s[..i])
    ensures Position(s, i + 1) == Position(s, i) + 1
  {
    StrippedByteAt(s, i);
    EmitLength(s, i);
    EmitMode(s, i);
    EmitLength(s, |s|);
    assert s[..|s|] == s;
    EmitPrefix(s, i, |s|);
    EmitPrefix(s, i + 1, |s|);
    var e, k := Emit(s, i + 1), Position(s, i);
    assert Rewrite(s)[k] == Rewrite(s)[..|e|][k] == e[k];
  }

  /** Every output byte comes from some input byte. */
  lemma {:induction false} ByteFrom(s: seq<Byte>, k: nat) returns (i: nat)
    requires k < |Strip(s)|
    ensures i < |s| && s[i] != NUL && Position(s, i) == k
  {
    var init := s[..|s| - 1];
    if s[|s| - 1] != NUL && k == |Strip(init)| {
      i := |s| - 1;
    } else {
      i := ByteFrom(init, k);
      assert s[..i] == init[..i];
    }
  }

  /** The output is the NUL-stripped input with exactly the marked colons replaced. */
  lemma {:induction false} RewriteIsPointwise(s: seq<Byte>)
    ensures |Rewrite(s)| == |Strip(s)|
    ensures forall i :: 0 <= i < |s| && s[i] != NUL ==>
              var k := Position(s, i);
              k < |Strip(s)| && Strip(s)[k] == s[i] && Rewrite(s)[k] == if Marks(s, i) then DOLLAR else s[i]
  {
    EmitLength(s, |s|);
    assert s[..|s|] == s;
    forall i | 0 <= i < |s| && s[i] != NUL
      ensures var k := Position(s, i);
              k < |Strip(s)| && Strip(s)[k] == s[i] && Rewrite(s)[k] == if Marks(s, i) then DOLLAR else s[i]
    {
      ByteAt(s, i);
    }
  }

  /** On NUL-free text nothing moves. */
  lemma {:induction false} RewriteNulFree(s: seq<Byte>)
    requires NulFree(s)
    ensures |Rewrite(s)| == |s|
    ensures forall i :: 0 <= i < |s| ==> Rewrite(s)[i] == if Marks(s, i) then DOLLAR else s[i]
  {
    StripIdentity(s);
    EmitLength(s, |s|);
    assert s[..|s|] == s;
    forall i | 0 <= i < |s| ensures Rewrite(s)[i] == if Marks(s, i) then DOLLAR else s[i] {
      ByteAt(s, i);
      StripIdentity(s[..i]);
    }
  }

  // ---------------------------------------------------------------- composition

  lemma {:induction false} ModeConcat(m: Mode, a: seq<Byte>, b: seq<Byte>)
    ensures ModeFrom(m, a + b) == ModeFrom(ModeFrom(m, a), b)
    decreases |b|
  {
    if b == [] {
      assert a + b == a;
    } else {
      ModeConcat(m, a, b[..|b| - 1]);
      assert (a + b)[..|a + b| - 1] == a + b[..|b| - 1];
    }
  }

  lemma {:induction false} EmitSuffix(a: seq<Byte>, b: seq<Byte>, n: nat)
    requires n <= |b|
    requires forall i :: 0 <= i < |b| && b[i] == COLON ==> (Marks(a + b, |a| + i) <==> Marks(b, i))
    ensures Emit(a + b, |a| + n) == Emit(a + b, |a|) + Emit(b, n)
  {
    if n > 0 {
      EmitSuffix(a, b, n - 1);
      assert (a + b)[|a| + n - 1] == b[n - 1];
    }
  }

  /** No look-around reaches across the seam between `a` and `b`. */
  predicate CleanSeam(a: seq<Byte>, b: seq<Byte>) {
    a == [] || b == [] || a[|a| - 1] != COLON || (b[0] != COLON && !IsNameStart(b[0]))
  }

  lemma {:induction false} MarksLeft(a: seq<Byte>, b: seq<Byte>, i: nat)
    requires CleanSeam(a, b) && i < |a|
    ensures Marks(a + b, i) <==> Marks(a, i)
  {
    assert (a + b)[..i] == a[..i];
  }

  lemma {:induction false} MarksRight(a: seq<Byte>, b: seq<Byte>, i: nat)
    requires ModeAfter(a) == Outside && CleanSeam(a, b) && i < |b|
    ensures Marks(a + b, |a| + i) <==> Marks(b, i)
  {
    assert (a + b)[..|a| + i] == a + b[..i];
    ModeConcat(Outside, a, b[..i]);
  }

  lemma {:induction false} RewriteConcat(a: seq<Byte>, b: seq<Byte>)
    requires ModeAfter(a) == Outside && CleanSeam(a, b)
    ensures Rewrite(a + b) == Rewrite(a) + Rewrite(b)
  {
    forall i | 0 <= i < |a| ensures Marks(a + b, i) <==> Marks(a, i) {
      MarksLeft(a, b, i);
    }
    EmitLocal(a + b, a, |a|);
    forall i | 0 <= i < |b| ensures Marks(a + b, |a| + i) <==> Marks(b, i) {
      MarksRight(a, b, i);
    }
    EmitSuffix(a, b, |b|);
  }

  lemma {:induction false} StepInside(b: Byte)
    ensures ModeFrom(InSingle, Double(b)) == InSingle
  {
    var one: seq<Byte> := [b];
    var two: seq<Byte> := [b, b];
    assert one[..0] == [] && two[..1] == one;
    assert ModeFrom(InSingle, one) == Next(ModeFrom(InSingle, one[..0]), b);
  }

  lemma {:induction false} InsideQuoted(v: seq<Byte>)
    ensures var q := [QUOTE] + Doubled(v);
            && ModeAfter(q) == InSingle
            && forall i :: 0 <= i < |q| && q[i] == COLON ==> ModeAfter(q[..i]) == InSingle
  {
    var q := [QUOTE] + Doubled(v);
    if v == [] {
      assert q == [QUOTE] && q[..0] == [];
      assert ModeFrom(Outside, q) == Next(ModeFrom(Outside, q[..0]), QUOTE);
    } else {
      var init, last := v[..|v| - 1], v[|v| - 1];
      var p := [QUOTE] + Doubled(init);
      InsideQuoted(init);
      assert q == p + Double(last);
      ModeConcat(Outside, p, Double(last));
      StepInside(last);
      forall i | 0 <= i < |q| && q[i] == COLON ensures ModeAfter(q[..i]) == InSingle {
        if i < |p| {
          assert q[..i] == p[..i];
        } else {
          assert i == |p| && q[..i] == p;
        }
      }
    }
  }

  lemma {:induction false} RewriteUnmarked(s: seq<Byte>)
    requires forall i :: 0 <= i < |s| ==> !Marks(s, i)
    ensures Rewrite(s) == Strip(s)
  {
    EmitLength(s, |s|);
    assert s[..|s|] == s;
    forall k | 0 <= k < |Strip(s)| ensures Rewrite(s)[k] == Strip(s)[k] {
      var i := ByteFrom(s, k);
      ByteAt(s, i);
    }
  }

  /** A quoted literal only loses its NUL bytes, and leaves the scanner outside quotes. */
  lemma {:induction false} RewriteQuote(v: seq<Byte>)
    ensures Rewrite(Quote(v)) == Strip(Quote(v)) && ModeAfter(Quote(v)) == Outside
  {
    var q := Quote(v);
    InsideQuoted(v);
    assert q[..|q| - 1] == [QUOTE] + Doubled(v);
    forall i | 0 <= i < |q| ensures !Marks(q, i) {
      if q[i] == COLON {
        assert q[..i] == ([QUOTE] + Doubled(v))[..i];
      }
    }
    RewriteUnmarked(q);
  }

  /** Splicing a quoted value into SQL text leaves the text on both sides untouched. */
  lemma {:induction false} RewriteSplice(pre: seq<Byte>, v: seq<Byte>, post: seq<Byte>)
    requires ModeAfter(pre) == Outside
    ensures Rewrite(pre + Quote(v) + post) == Rewrite(pre) + Quote(Strip(v)) + Rewrite(post)
  {
    RewriteQuote(v);
    StripQuote(v);
    RewriteConcat(pre, Quote(v));
    ModeConcat(Outside, pre, Quote(v));
    RewriteConcat(pre + Quote(v), post);
  }

  /** SQL text with any number of quoted values in it. */
  datatype Template = End(text: seq<Byte>) | Splice(text: seq<Byte>, value: seq<Byte>, next: Template)

  function Render(t: Template): seq<Byte> {
    match t
    case End(text) => text
    case Splice(text, v, next) => text + Quote(v) + Render(next)
  }

  predicate OutsideAtSplices(t: Template) {
    t.Splice? ==> ModeAfter(t.text) == Outside && OutsideAtSplices(t.next)
  }

  function RewriteTemplate(t: Template): Template {
    match t
    case End(text) => End(Rewrite(text))
    case Splice(text, v, next) => Splice(Rewrite(text), Strip(v), RewriteTemplate(next))
  }

  /** Rewriting a rendered template is rendering the template rewritten piece by piece:
      no value, whatever its bytes, changes how the SQL around it is read. */
  lemma {:induction false} RewriteRendered(t: Template)
    requires OutsideAtSplices(t)
    ensures Rewrite(Render(t)) == Render(RewriteTemplate(t))
  {
    if t.Splice? {
      RewriteRendered(t.next);
      RewriteSplice(t.text, t.value, Render(t.next));
    }
  }

  /** DuckDB reads back the spliced value without its NUL bytes; it is the value itself
      exactly when there were none. */
  lemma {:induction false} SplicedValueIsRead(pre: seq<Byte>, v: seq<Byte>, post: seq<Byte>)
    requires ModeAfter(pre) == Outside && !StartsWithQuote(Rewrite(post))
    ensures var sql := Rewrite(pre + Quote(v) + post);
            && |Rewrite(pre)| <= |sql|
            && ReadLiteral(sql[|Rewrite(pre)|..]) == Some((Strip(v), Rewrite(post)))
    ensures Strip(v) == v <==> NulFree(v)
  {
    RewriteSplice(pre, v, post);
    var sql := Rewrite(pre + Quote(v) + post);
    assert sql[|Rewrite(pre)|..] == Quote(Strip(v)) + Rewrite(post);
    ReadQuoted(Strip(v), Rewrite(post));
    StripIdentity(v);
  }

  // ---------------------------------------------------------------- placeholders

  lemma {:induction false} RewriteColonName(n: seq<Byte>)
    requires IsName(n)
    ensures Rewrite([COLON] + n) == [DOLLAR] + n
    ensures Rewrite([COLON, COLON] + n) == [COLON, COLON] + n
    ensures ModeAfter([COLON] + n) == ModeAfter([COLON, COLON] + n) == Outside
  {
    NameIsOutside([COLON], n);
    NameIsOutside([COLON, COLON], n);
    var one, two := [COLON] + n, [COLON, COLON] + n;
    RewriteNulFree(one);
    RewriteNulFree(two);
    assert one[..0] == [];
    assert Marks(one, 0);
    assert Rewrite(one) == [DOLLAR] + n;
    assert Rewrite(two) == two;
  }

  lemma {:induction false} NameIsOutside(colons: seq<Byte>, n: seq<Byte>)
    requires forall i :: 0 <= i < |colons| ==> colons[i] == COLON
    requires forall i :: 0 <= i < |n| ==> n[i] != QUOTE && n[i] != DQUOTE
    ensures ModeAfter(colons + n) == Outside
    decreases |colons| + |n|
  {
    var s := colons + n;
    if n != [] {
      NameIsOutside(colons, n[..|n| - 1]);
      assert s[..|s| - 1] == colons + n[..|n| - 1];
    } else if colons != [] {
      NameIsOutside(colons[..|colons| - 1], n);
      assert s[..|s| - 1] == colons[..|colons| - 1] + n;
    }
  }

  /** An unquoted `:name` becomes `$name`, and a cast `::name` stays, in any context
      that does not itself put a colon in front. */
  lemma {:induction false} PlaceholderIsRewritten(pre: seq<Byte>, n: seq<Byte>, post: seq<Byte>)
    requires ModeAfter(pre) == Outside && (pre == [] || pre[|pre| - 1] != COLON) && IsName(n)
    ensures Rewrite(pre + ([COLON] + n) + post) == Rewrite(pre) + ([DOLLAR] + n) + Rewrite(post)
    ensures Rewrite(pre + ([COLON, COLON] + n) + post) == Rewrite(pre) + ([COLON, COLON] + n) + Rewrite(post)
  {
    RewriteColonName(n);
    RewriteConcat(pre, [COLON] + n);
    ModeConcat(Outside, pre, [COLON] + n);
    RewriteConcat(pre + ([COLON] + n), post);
    RewriteConcat(pre, [COLON, COLON] + n);
    ModeConcat(Outside, pre, [COLON, COLON] + n);
    RewriteConcat(pre + ([COLON, COLON] + n), post);
  }

  // ---------------------------------------------------------------- idempotence

  /** Byte `i` is a placeholder's colon once NUL bytes are gone, but a NUL follows it. */
  predicate SplitByNul(s: seq<Byte>, i: nat)
    requires i < |s|
  {
    && s[i] == COLON && i + 1 < |s| && s[i + 1] == NUL
    && Position(s, i) < |Strip(s)| && Marks(Strip(s), Position(s, i))
  }

  lemma {:induction false} ReplacedBeforeName(s: seq<Byte>, k: nat)
    requires k < |Strip(s)|
    ensures |Rewrite(s)| == |Strip(s)|
    ensures Rewrite(s)[k] != Strip(s)[k] ==>
              && Strip(s)[k] == COLON && Rewrite(s)[k] == DOLLAR
              && k + 1 < |Strip(s)| && IsNameStart(Strip(s)[k + 1])
  {
    var i := ByteFrom(s, k);
    ByteAt(s, i);
    if Marks(s, i) {
      ByteAt(s, i + 1);
    }
  }

  /** A second pass marks a byte exactly when a NUL hid it from the first pass. */
  lemma {:induction false} MarksAfterRewrite(s: seq<Byte>, i: nat)
    requires i < |s| && s[i] != NUL
    ensures Position(s, i) < |Rewrite(s)| == |Strip(s)|
    ensures Marks(Rewrite(s), Position(s, i)) <==> SplitByNul(s, i)
  {
    ByteAt(s, i);
    var r, t, k := Rewrite(s), Strip(s), Position(s, i);
    assert Marks(r, k) <==> Marks(t, k) && !Marks(s, i) by {
      if k > 0 { ReplacedBeforeName(s, k - 1); }
      if k + 1 < |t| { ReplacedBeforeName(s, k + 1); }
    }
    if Marks(t, k) {
      assert Marks(s, i) <==> s[i + 1] != NUL by {
        assert i + 1 < |s| by { assert s[..|s|] == s; }
        if s[i + 1] != NUL { ByteAt(s, i + 1); }
        if i > 0 && s[i - 1] != NUL { ByteAt(s, i - 1); }
      }
    }
  }

  /** Rewriting twice is rewriting once exactly when no placeholder has a NUL right
      after its colon; so always on NUL-free text. */
  lemma {:induction false} RewriteTwice(s: seq<Byte>)
    ensures Rewrite(Rewrite(s)) == Rewrite(s) <==> forall i :: 0 <= i < |s| ==> !SplitByNul(s, i)
    ensures NulFree(s) ==> Rewrite(Rewrite(s)) == Rewrite(s)
  {
    var r := Rewrite(s);
    RewriteNulFree(r);
    if i :| 0 <= i < |s| && SplitByNul(s, i) {
      MarksAfterRewrite(s, i);
      assert Rewrite(r)[Position(s, i)] == DOLLAR != r[Position(s, i)];
    } else {
      forall k | 0 <= k < |r| ensures !Marks(r, k) {
        EmitLength(s, |s|);
        assert s[..|s|] == s;
        var i := ByteFrom(s, k);
        MarksAfterRewrite(s, i);
      }
      assert Rewrite(r) == r;
    }
  }

  /** The smallest text on which two passes differ: a colon, a NUL, a letter. */
  lemma {:induction false} RewriteTwiceDiffers()
    ensures Rewrite(Rewrite([COLON, NUL, 97])) != Rewrite([COLON, NUL, 97])
  {
    var s: seq<Byte> := [COLON, NUL, 97];
    assert s[..3] == s && s[..2] == [COLON, NUL] && s[..2][..1] == [COLON] && s[..1][..0] == [] && s[..0] == [];
    var t: seq<Byte> := [COLON, 97];
    assert Strip(s[..1]) == [COLON] && Strip(s[..2]) == [COLON];
    assert Strip(s) == t && t[..0] == [] && Position(s, 0) == 0;
    assert SplitByNul(s, 0);
    RewriteTwice(s);
  }
}
