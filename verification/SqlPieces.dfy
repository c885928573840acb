/** SQL text piece by piece: what stands in quotes, of either kind, and what does not. */
module SqlPieces {
  import opened Bytes
  import opened Placeholders

  datatype Piece = Bare(text: seq<Byte>) | Quoted(quote: Byte, inner: seq<Byte>)

  predicate IsQuoteMark(b: Byte) { b as int == '\'' as int || b as int == '"' as int }

  /** Bare text has no quote of either kind; quoted text ends at the first quote of the kind
      that opened it, and may hold the other. */
  predicate IsPiece(p: Piece) {
    match p
    case Bare(text) => text != [] && forall i :: 0 <= i < |text| ==> !IsQuoteMark(text[i])
    case Quoted(q, inner) => IsQuoteMark(q) && q !in inner
  }

  function Text(p: Piece): seq<Byte> {
    match p
    case Bare(text) => text
    case Quoted(q, inner) => [q] + inner + [q]
  }

  function TextOf(ps: seq<Piece>): seq<Byte> {
    if ps == [] then [] else Text(ps[0]) + TextOf(ps[1..])
  }

  predicate ArePieces(ps: seq<Piece>) {
    && (forall k :: 0 <= k < |ps| ==> IsPiece(ps[k]))
    && forall k :: 0 <= k < |ps| - 1 ==> ps[k].Bare? ==> ps[k + 1].Quoted?
  }

  /** Text that opens a quote and does not close it. */
  predicate IsOpen(tail: seq<Byte>) {
    tail != [] && IsQuoteMark(tail[0]) && tail[0] !in tail[1..]
  }

  /** The pieces of a text, and an open quote at its end, if there is one. */
  predicate Splits(s: seq<Byte>, ps: seq<Piece>, tail: seq<Byte>) {
    s == TextOf(ps) + tail && ArePieces(ps) && (tail == [] || IsOpen(tail))
  }

  // ---------------------------------------------------------------- every text has pieces

  lemma {:induction false} TextSnoc(ps: seq<Piece>, p: Piece)
    ensures TextOf(ps + [p]) == TextOf(ps) + Text(p)
  {
    if ps == [] {
      assert [p][1..] == [] && Text(p) + [] == Text(p);
    } else {
      assert (ps + [p])[1..] == ps[1..] + [p];
      TextSnoc(ps[1..], p);
    }
  }

  lemma {:induction false} OneByteMore(s: seq<Byte>, b: Byte, ps: seq<Piece>, tail: seq<Byte>)
    returns (more: seq<Piece>, open: seq<Byte>)
    requires Splits(s, ps, tail)
    ensures Splits(s + [b], more, open)
  {
    if tail == [] {
      assert TextOf(ps) + [] == TextOf(ps);
      if IsQuoteMark(b) {
        more, open := ps, [b];
      } else {
        more := BareByte(ps, b);
        open := [];
        assert TextOf(more) + [] == TextOf(more);
      }
    } else if b == tail[0] {
      more, open := Close(ps, tail);
    } else {
      assert (tail + [b])[1..] == tail[1..] + [b];
      more, open := ps, tail + [b];
      assert TextOf(ps) + tail + [b] == TextOf(ps) + (tail + [b]);
    }
  }

  lemma {:induction false} Close(ps: seq<Piece>, tail: seq<Byte>) returns (more: seq<Piece>, open: seq<Byte>)
    requires ArePieces(ps) && IsOpen(tail)
    ensures Splits(TextOf(ps) + tail + [tail[0]], more, open)
  {
    var q, inner := tail[0], tail[1..];
    TextSnoc(ps, Quoted(q, inner));
    more, open := ps + [Quoted(q, inner)], [];
    assert tail == [q] + inner;
    assert TextOf(ps) + tail + [q] == TextOf(ps) + ([q] + inner + [q]) + [];
  }

  /** Cutting at the quotes, from left to right. */
  lemma {:induction false} HasPieces(s: seq<Byte>) returns (ps: seq<Piece>, tail: seq<Byte>)
    ensures Splits(s, ps, tail)
  {
    if s == [] {
      ps, tail := [], [];
    } else {
      hide *;
      ps, tail := HasPieces(s[..|s| - 1]);
      ps, tail := OneByteMore(s[..|s| - 1], s[|s| - 1], ps, tail);
      assert s[..|s| - 1] + [s[|s| - 1]] == s;
    }
  }

  lemma {:induction false} PiecesSnoc(ps: seq<Piece>, p: Piece)
    requires ArePieces(ps) && IsPiece(p) && (ps == [] || ps[|ps| - 1].Quoted? || p.Quoted?)
    ensures ArePieces(ps + [p])
  {
  }

  lemma {:induction false} PiecesInit(ps: seq<Piece>)
    requires ArePieces(ps) && ps != []
    ensures ArePieces(ps[..|ps| - 1])
    ensures ps[|ps| - 1].Bare? && |ps| > 1 ==> ps[|ps| - 2].Quoted?
  {
  }

  lemma {:induction false} BareByte(ps: seq<Piece>, b: Byte) returns (more: seq<Piece>)
    requires ArePieces(ps) && !IsQuoteMark(b)
    ensures ArePieces(more) && TextOf(more) == TextOf(ps) + [b]
  {
    if ps != [] && ps[|ps| - 1].Bare? {
      var init, last := ps[..|ps| - 1], ps[|ps| - 1];
      var longer := Bare(last.text + [b]);
      assert IsPiece(last);
      assert IsPiece(longer) && Text(longer) == Text(last) + [b];
      PiecesInit(ps);
      hide ArePieces, TextOf, IsPiece, Text;
      more := init + [longer];
      PiecesSnoc(init, longer);
      TextSnoc(init, last);
      TextSnoc(init, longer);
      assert init + [last] == ps;
      assert TextOf(init) + Text(last) + [b] == TextOf(init) + (Text(last) + [b]);
    } else {
      more := ps + [Bare([b])];
      PiecesSnoc(ps, Bare([b]));
      TextSnoc(ps, Bare([b]));
    }
  }

  // ---------------------------------------------------------------- quoted pieces

  lemma {:induction false} InsideOneQuote(q: Byte, inner: seq<Byte>)
    requires IsQuoteMark(q) && q !in inner
    ensures ModeAfter([q] + inner) == if q == QUOTE then InSingle else InDouble
  {
    var s := [q] + inner;
    if inner == [] {
      assert s == [q] && s[..0] == [];
      assert ModeFrom(Outside, s) == Next(ModeFrom(Outside, s[..0]), q);
    } else {
      InsideOneQuote(q, inner[..|inner| - 1]);
      assert s[..|s| - 1] == [q] + inner[..|inner| - 1];
    }
  }

  lemma {:induction false} NothingMarkedInside(q: Byte, inner: seq<Byte>, i: nat)
    requires IsQuoteMark(q) && q !in inner && i < |inner| + 1
    ensures ModeAfter(([q] + inner)[..i]) == Outside ==> i == 0
  {
    if i > 0 {
      assert ([q] + inner)[..i] == [q] + inner[..i - 1];
      InsideOneQuote(q, inner[..i - 1]);
    }
  }

  /** What stands between two quotes of a kind, whatever it is, only loses its NUL bytes; a
      quote of the other kind opens nothing there; and the scanner is outside after it. */
  lemma {:induction false} QuotedIsKept(q: Byte, inner: seq<Byte>)
    requires IsQuoteMark(q) && q !in inner
    ensures Rewrite([q] + inner + [q]) == Strip([q] + inner + [q]) && ModeAfter([q] + inner + [q]) == Outside
  {
    var s := [q] + inner + [q];
    forall i | 0 <= i < |s| ensures !Marks(s, i) {
      if s[i] == COLON {
        assert s[..i] == ([q] + inner)[..i];
        NothingMarkedInside(q, inner, i);
      }
    }
    RewriteUnmarked(s);
    InsideOneQuote(q, inner);
    ModeStep(Outside, [q] + inner, q);
  }

  /** So does what follows a quote that is never closed. */
  lemma {:induction false} OpenIsKept(tail: seq<Byte>)
    requires IsOpen(tail)
    ensures Rewrite(tail) == Strip(tail)
  {
    assert tail == [tail[0]] + tail[1..];
    forall i | 0 <= i < |tail| ensures !Marks(tail, i) {
      if tail[i] == COLON {
        NothingMarkedInside(tail[0], tail[1..], i);
      }
    }
    RewriteUnmarked(tail);
  }

  // ---------------------------------------------------------------- bare pieces

  lemma {:induction false} BareIsOutside(text: seq<Byte>)
    requires forall i :: 0 <= i < |text| ==> !IsQuoteMark(text[i])
    ensures ModeAfter(text) == Outside
  {
    NameIsOutside([], text);
    assert [] + text == text;
  }

  predicate IsLetterOrUnderscore(b: Byte) {
    'a' as int <= b as int <= 'z' as int || 'A' as int <= b as int <= 'Z' as int || b as int == '_' as int
  }

  /** A colon with a letter or an underscore after it and no colon before it. */
  predicate OpensName(text: seq<Byte>, i: nat)
    requires i < |text|
  {
    && text[i] as int == ':' as int && i + 1 < |text| && IsLetterOrUnderscore(text[i + 1])
    && (i == 0 || text[i - 1] as int != ':' as int)
  }

  lemma {:induction false} BareMarks(text: seq<Byte>, i: nat)
    requires i < |text| && forall i :: 0 <= i < |text| ==> !IsQuoteMark(text[i])
    ensures Marks(text, i) <==> OpensName(text, i)
  {
    BareIsOutside(text[..i]);
  }

  /** Without quotes a byte becomes `$` when it opens a name; otherwise it stays, or goes if it
      is NUL. */
  lemma {:induction false} BareIsRewritten(text: seq<Byte>)
    requires forall i :: 0 <= i < |text| ==> !IsQuoteMark(text[i])
    ensures |Rewrite(text)| == |Strip(text)|
    ensures forall i :: 0 <= i < |text| && text[i] as int != 0 ==>
              && Position(text, i) < |Rewrite(text)|
              && Rewrite(text)[Position(text, i)] as int == if OpensName(text, i) then '$' as int else text[i] as int
  {
    RewriteIsPointwise(text);
    forall i | 0 <= i < |text| && text[i] != NUL
      ensures && Position(text, i) < |Rewrite(text)|
              && Rewrite(text)[Position(text, i)] == if OpensName(text, i) then DOLLAR else text[i]
    {
      BareMarks(text, i);
    }
  }

  // ---------------------------------------------------------------- the whole text

  /** Bare pieces rewritten on their own, quoted ones without their NUL bytes. */
  function RewrittenPieces(ps: seq<Piece>): seq<Byte> {
    if ps == [] then [] else
      (if ps[0].Bare? then Rewrite(ps[0].text) else Strip(Text(ps[0]))) + RewrittenPieces(ps[1..])
  }

  lemma {:induction false} PiecesAreRewritten(ps: seq<Piece>)
    requires ArePieces(ps)
    ensures Rewrite(TextOf(ps)) == RewrittenPieces(ps) && ModeAfter(TextOf(ps)) == Outside
  {
    if ps != [] {
      var a, b := Text(ps[0]), TextOf(ps[1..]);
      PiecesAreRewritten(ps[1..]);
      match ps[0] {
        case Bare(text) => BareIsOutside(text);
        case Quoted(q, inner) => QuotedIsKept(q, inner);
      }
      if |ps| > 1 && ps[0].Bare? {
        assert ps[1].Quoted? && b[0] == ps[1].quote;
      }
      RewriteConcat(a, b);
      ModeConcat(Outside, a, b);
    }
  }

  /** Any SQL text at all: cut it at its quotes; what is quoted, of either kind and closed or
      not, is kept without its NUL bytes, and what is not is rewritten on its own. */
  lemma {:induction false} EveryTextIsRewritten(s: seq<Byte>)
    ensures exists ps, tail :: Splits(s, ps, tail) && Rewrite(s) == RewrittenPieces(ps) + Strip(tail)
  {
    var ps, tail := HasPieces(s);
    PiecesAreRewritten(ps);
    if tail != [] {
      OpenIsKept(tail);
    }
    RewriteConcat(TextOf(ps), tail);
    assert Splits(s, ps, tail) && Rewrite(s) == RewrittenPieces(ps) + Strip(tail);
  }

  /** A quoted identifier, with anything before it that ends outside quotes and anything
      after it. */
  lemma {:induction false} IdentifierIsKept(pre: seq<Byte>, inner: seq<Byte>, post: seq<Byte>)
    requires ModeAfter(pre) == Outside && DQUOTE !in inner
    ensures Rewrite(pre + ([DQUOTE] + inner + [DQUOTE]) + post) ==
            Rewrite(pre) + Strip([DQUOTE] + inner + [DQUOTE]) + Rewrite(post)
  {
    var q := [DQUOTE] + inner + [DQUOTE];
    QuotedIsKept(DQUOTE, inner);
    RewriteConcat(pre, q);
    ModeConcat(Outside, pre, q);
    RewriteConcat(pre + q, post);
  }
}
