/** Sources whose header holds each line once, and some whose header does not. */
module RepeatedIncludes {
  import opened Amalgamator
  import opened ExactlyOnce
  import opened IncludeGraph
  import opened IncludeOnce
  import opened Wrappers

  ghost predicate IsStatement(s: Source, i: Include) {
    exists f :: f in s.files && Inc(i) in s.files[f]
  }

  /** The text of a line after its `#pragma once` has been removed `n` times. */
  function Tidied(t: string, n: nat): string
    decreases n
  {
    if n == 0 then t else Tidied(Remove("#pragma once", t), n - 1)
  }

  /** No statement of the sources stands in the text of the line. */
  ghost predicate Quiet(s: Source, t: string) {
    forall n: nat, i :: IsStatement(s, i) ==> |Split(Spelled(i), Tidied(t, n))| == 1
  }

  ghost predicate QuietText(s: Source, text: seq<Line>) {
    forall k :: 0 <= k < |text| ==> if text[k].Own? then Quiet(s, text[k].text) else IsStatement(s, text[k].inc)
  }

  /** No own line mentions an include statement. */
  ghost predicate Unmentioned(s: Source) {
    forall f :: f in s.files ==> QuietText(s, s.files[f])
  }

  /** No include line of a file is, or holds, the statement of another. */
  ghost predicate Distinct(s: Source) {
    forall f, j, k ::
      (f in s.files && 0 <= j < |s.files[f]| && 0 <= k < |s.files[f]| && j != k
       && s.files[f][j].Inc? && s.files[f][k].Inc?) ==> !Holds(s.files[f][j].inc, s.files[f][k].inc)
  }

  // ---------------------------------------------------------------- quiet texts stay quiet

  lemma {:induction false} QuietLine(s: Source, t: string, i: Include)
    requires Quiet(s, t) && IsStatement(s, i)
    ensures |Split(Spelled(i), t)| == 1 && Remove(Spelled(i), t) == t
  {
    assert Tidied(t, 0) == t;
    SplitOnce(Spelled(i), t);
  }

  lemma {:induction false} QuietReplace(s: Source, text: seq<Line>, i: Include, c: seq<Line>)
    requires QuietText(s, text) && QuietText(s, c) && IsStatement(s, i)
    ensures OwnHits(text, i) == 0 && QuietText(s, StrReplace(text, i, c))
  {
    if text != [] {
      QuietReplace(s, text[1..], i, c);
      if text[0].Own? {
        QuietLine(s, text[0].text, i);
        SplitOnce(Spelled(i), text[0].text);
        OneFragment(text[0].origin, text[0].index, text[0].text, c);
      }
    }
  }

  lemma {:induction false} QuietTidy(s: Source, text: seq<Line>)
    requires QuietText(s, text)
    ensures QuietText(s, Tidy(text))
  {
    forall k | 0 <= k < |text| && text[k].Own? ensures Quiet(s, Tidy(text)[k].text) {
      forall n: nat, i | IsStatement(s, i) ensures |Split(Spelled(i), Tidied(Tidy(text)[k].text, n))| == 1 {
        assert Tidied(text[k].text, n + 1) == Tidied(Tidy(text)[k].text, n);
      }
    }
  }

  lemma {:induction false} LineHitsAdd(a: seq<Line>, b: seq<Line>, j: Include)
    ensures LineHits(a + b, j) == LineHits(a, j) + LineHits(b, j)
  {
    if a == [] {
      assert a + b == b;
    } else {
      assert (a + b)[1..] == a[1..] + b;
      LineHitsAdd(a[1..], b, j);
    }
  }

  lemma {:induction false} NoLineHits(text: seq<Line>, j: Include)
    requires forall k :: 0 <= k < |text| ==> text[k].Own? || !Holds(text[k].inc, j)
    ensures LineHits(text, j) == 0
  {
    if text != [] {
      NoLineHits(text[1..], j);
    }
  }

  lemma {:induction false} FewerHits(text: seq<Line>, i: Include, c: seq<Line>, j: Include)
    requires Flat(c)
    ensures LineHits(StrReplace(text, i, c), j) <= LineHits(text, j)
  {
    if text != [] {
      FewerHits(text[1..], i, c, j);
      var here := ReplaceIn(text[0], i, c);
      LineHitsAdd(here, StrReplace(text[1..], i, c), j);
      if text[0].Own? {
        FragmentsFlat(text[0].origin, text[0].index, Split(Spelled(i), text[0].text), c);
      }
      if here == [text[0]] {
        assert here[1..] == [] && LineHits([], j) == 0;
      } else {
        NoLineHits(here, j);
      }
    }
  }

  lemma {:induction false} OneHit(text: seq<Line>, i: Include)
    requires forall j, k :: 0 <= j < k < |text| && text[j].Inc? && text[k].Inc? && Holds(text[j].inc, i) ==>
               !Holds(text[k].inc, i)
    ensures LineHits(text, i) <= 1
  {
    if text != [] {
      if text[0].Inc? && Holds(text[0].inc, i) {
        NoLineHits(text[1..], i);
      } else {
        OneHit(text[1..], i);
      }
    }
  }

  // ---------------------------------------------------------------- distinct statements

  ghost predicate FewHits(text: seq<Line>, incs: seq<Include>) {
    forall k :: 0 <= k < |incs| ==> LineHits(text, incs[k]) <= 1
  }

  lemma {:induction false} QuietFile(s: Source, f: Path, w: set<Path>)
    requires Unmentioned(s)
    ensures SparesFile(s, true, f, w)
    ensures ExpandFile(s, f, w).Ok? ==> QuietText(s, ExpandFile(s, f, w).value.text)
    ensures Distinct(s) ==> SingleFile(s, f, w)
    decreases s.files.Keys - w, 0
  {
    if f !in w && f in s.files && Targets(s, Statements(s.files[f])).Ok? {
      var text, incs := s.files[f], Statements(s.files[f]);
      var ps := Targets(s, incs).value;
      if Distinct(s) {
        forall k | 0 <= k < |incs| ensures LineHits(text, incs[k]) <= 1 {
          DistinctHits(s, f, incs[k]);
        }
      }
      QuietAll(s, text, incs, ps, w + {f});
      if ReplaceAll(s, text, incs, ps, w + {f}).Ok? {
        QuietTidy(s, ReplaceAll(s, text, incs, ps, w + {f}).value.text);
      }
    }
  }

  lemma {:induction false} DistinctHits(s: Source, f: Path, i: Include)
    requires Distinct(s) && f in s.files && Inc(i) in s.files[f]
    ensures LineHits(s.files[f], i) <= 1
  {
    var text := s.files[f];
    var m :| 0 <= m < |text| && text[m] == Inc(i);
    assert forall k :: 0 <= k < |text| && text[k].Inc? && k != m ==> !Holds(text[k].inc, text[m].inc);
    OneHit(text, i);
  }

  lemma {:induction false} QuietAll(s: Source, text: seq<Line>, incs: seq<Include>, ps: seq<Path>, w: set<Path>)
    requires Unmentioned(s) && QuietText(s, text) && Leads(s, incs, ps) && Alive(text, incs, ps, w)
    requires forall k :: 0 <= k < |incs| ==> IsStatement(s, incs[k])
    ensures SparesAll(s, true, text, incs, ps, w)
    ensures var r := ReplaceAll(s, text, incs, ps, w); r.Ok? ==> QuietText(s, r.value.text)
    ensures Distinct(s) && FewHits(text, incs) ==> SingleAll(s, text, incs, ps, w)
    decreases s.files.Keys - w, 1, |incs|
  {
    if incs != [] {
      QuietFile(s, ps[0], w);
      if ExpandFile(s, ps[0], w).Ok? {
        var o := ExpandFile(s, ps[0], w).value;
        var next := StrReplace(text, incs[0], o.text);
        QuietReplace(s, text, incs[0], o.text);
        FileFlat(s, ps[0], w);
        StillAlive(s, text, incs, ps, w, o.text, o.written);
        forall k | 0 < k < |incs| ensures LineHits(next, incs[k]) <= LineHits(text, incs[k]) {
          FewerHits(text, incs[0], o.text, incs[k]);
        }
        QuietAll(s, next, incs[1..], ps[1..], o.written);
        if o.text != [] {
          HitsItself(text, incs[0]);
        }
      }
    }
  }

  lemma {:induction false} UnmentionedSpares(s: Source, mains: seq<Path>)
    requires Unmentioned(s)
    ensures SparesProgram(s, true, mains)
  {
    if mains != [] {
      var init, last := mains[..|mains| - 1], mains[|mains| - 1];
      UnmentionedSpares(s, init);
      if Program(s, init).Ok? {
        QuietFile(s, last, Program(s, init).value.written);
      }
    }
  }

  /** Where no own line mentions a statement, the header is, to the letter, what reading line
      by line gives, repeated statements standing for the same text again. */
  lemma {:induction false} UnmentionedIsStream(s: Source, mains: seq<Path>)
    requires Unmentioned(s)
    ensures Program(s, mains) == StreamProgram(s, true, mains)
  {
    UnmentionedSpares(s, mains);
    ProgramIsStream(s, true, mains);
    if Program(s, mains).Ok? {
      var a, b := Program(s, mains).value.text, StreamProgram(s, true, mains).value.text;
      forall k | 0 <= k < |a| ensures a[k] == b[k] {
        assert AlikeLine(true, a[k], b[k]);
      }
      assert a == b;
    }
  }

  /** There the header is, to the letter, what a preprocessor makes that goes into each file
      once, if and only if a statement that comes again in a file stood for nothing the first
      time. */
  lemma {:induction false} UnmentionedIsIncludeOnce(s: Source, mains: seq<Path>)
    requires Unmentioned(s) && Program(s, mains).Ok?
    ensures Program(s, mains) == StreamProgram(s, false, mains) <==> CleanProgram(s, mains)
  {
    UnmentionedIsStream(s, mains);
    StreamProgramLonger(s, mains);
  }

  /** Sources whose include lines are distinct within a file, and mentioned in no own line,
      meet the condition. */
  lemma {:induction false} DistinctIsSingle(s: Source, mains: seq<Path>)
    requires Distinct(s) && Unmentioned(s)
    ensures SingleProgram(s, mains)
  {
    if mains != [] {
      var init, last := mains[..|mains| - 1], mains[|mains| - 1];
      DistinctIsSingle(s, init);
      if Program(s, init).Ok? {
        QuietFile(s, last, Program(s, init).value.written);
      }
    }
  }

  // ---------------------------------------------------------------- sources that fail

  const X := Include("#include ", "x")
  const INDENTED := Include("  #include ", "x")
  const LINE := Own("d/x", 0, "x")

  /** A main file `m`, and one header. */
  function With(m: seq<Line>): Source {
    Source(map["m" := m, "d/x" := [LINE]], ["d"])
  }

  lemma {:induction false} FindX(m: seq<Line>, i: Include)
    requires i.name == "x"
    ensures Resolve(With(m), i) == Some("d/x")
  {
    assert With(m).dirs[0] + "/" + i.name == "d/x";
  }

  lemma {:induction false} ReadX(m: seq<Line>, w: set<Path>)
    ensures ExpandFile(With(m), "d/x", w) == Ok(Out(if "d/x" in w then [] else [LINE], w + {"d/x"}))
  {
    var d := With(m).files["d/x"];
    assert d[..0] == [] && Statements(d) == [];
    assert Remove("#pragma once", "x") == "x";
    assert Tidy([LINE]) == [LINE];
    assert "d/x" in w ==> w + {"d/x"} == w;
  }

  lemma {:induction false} TwoTargets(s: Source, i: Include, j: Include, p: Path)
    requires Resolve(s, i) == Resolve(s, j) == Some(p)
    ensures Targets(s, [i]) == Ok([p]) && Targets(s, [i, j]) == Ok([p, p])
  {
    assert [i][..0] == [] && [i, j][..1] == [i] && [] + [p] == [p] && [p] + [p] == [p, p];
    assert Targets(s, [i]) == Ok([p]);
  }

  lemma {:induction false} TwoLines(a: Line, b: Line, i: Include, c: seq<Line>)
    ensures StrReplace([a, b], i, c) == ReplaceIn(a, i, c) + ReplaceIn(b, i, c)
    ensures Statements([a, b]) ==
            (if a.Inc? then [a.inc] else []) + if b.Inc? && a != b then [b.inc] else []
  {
    assert [a, b][1..] == [b] && [b][1..] == [] && ReplaceIn(b, i, c) + [] == ReplaceIn(b, i, c);
    assert StrReplace([b], i, c) == ReplaceIn(b, i, c);
    assert [a, b][..1] == [a] && [a][..0] == [];
    assert Statements([a]) == if a.Inc? then [a.inc] else [];
  }

  /** What `m` gets for `X`. */
  lemma {:induction false} GetX(m: seq<Line>)
    ensures "m" in With(m).files && With(m).files["m"] == m && Resolve(With(m), X) == Some("d/x")
    ensures ExpandFile(With(m), "d/x", {"m"}) == Ok(Out([LINE], {"m", "d/x"}))
  {
    FindX(m, X);
    ReadX(m, {"m"});
    assert {"m"} + {"d/x"} == {"m", "d/x"};
  }

  /** What a main file with one statement expands to. */
  lemma {:induction false} ExpandOne(s: Source, f: Path, i: Include, p: Path, c: Out)
    requires f in s.files && Statements(s.files[f]) == [i] && Resolve(s, i) == Some(p)
    requires ExpandFile(s, p, {f}) == Ok(c)
    ensures Program(s, [f]) == Ok(Out(Tidy(StrReplace(s.files[f], i, c.text)), c.written))
  {
    TwoTargets(s, i, i, p);
    assert [i][1..] == [] && [p][1..] == [];
    assert ReplaceAll(s, s.files[f], [i], [p], {f}) == Ok(Out(StrReplace(s.files[f], i, c.text), c.written));
    assert {} + {f} == {f};
    OneMain(s, f);
  }

  /** What a main file with two statements expands to. */
  lemma {:induction false} ExpandTwo(s: Source, f: Path, i: Include, j: Include, p: Path, q: Path, c: Out, d: Out)
    requires f in s.files && Statements(s.files[f]) == [i, j] && Targets(s, [i, j]) == Ok([p, q])
    requires ExpandFile(s, p, {f}) == Ok(c) && ExpandFile(s, q, c.written) == Ok(d)
    ensures Program(s, [f]) == Ok(Out(Tidy(StrReplace(StrReplace(s.files[f], i, c.text), j, d.text)), d.written))
  {
    var next := StrReplace(s.files[f], i, c.text);
    assert [i, j][1..] == [j] && [p, q][1..] == [q] && [j][1..] == [] && [q][1..] == [];
    assert ReplaceAll(s, next, [j], [q], c.written) == Ok(Out(StrReplace(next, j, d.text), d.written));
    assert {} + {f} == {f};
    OneMain(s, f);
  }

  lemma {:induction false} OneMain(s: Source, f: Path)
    requires ExpandFile(s, f, {}).Ok?
    ensures Program(s, [f]) == ExpandFile(s, f, {})
  {
    assert [f][..0] == [] && Program(s, []) == Ok(Out([], {}));
    assert [] + ExpandFile(s, f, {}).value.text == ExpandFile(s, f, {}).value.text;
  }

  lemma {:induction false} TidyX(text: seq<Line>)
    requires forall k :: 0 <= k < |text| ==> text[k] == LINE
    ensures Tidy(text) == text
  {
    assert Remove("#pragma once", "x") == "x";
  }

  lemma {:induction false} ReplaceX()
    ensures ReplaceIn(Inc(X), X, [LINE]) == ReplaceIn(Inc(INDENTED), X, [LINE]) == [LINE]
    ensures ReplaceIn(LINE, INDENTED, []) == [LINE]
    ensures X != INDENTED && X.name == INDENTED.name == "x"
  {
    assert X.lead[0..] == X.lead && INDENTED.lead[2..] == X.lead;
    assert |Spelled(INDENTED)| > 1;
    assert Remove(Spelled(INDENTED), "") == "" && Remove(Spelled(INDENTED), "x") == "x";
  }

  /** The same statement twice: the included line comes twice. */
  lemma {:induction false} RepeatedStatement()
    ensures var m := [Inc(X), Inc(X)];
            Program(With(m), ["m"]) == Ok(Out([LINE, LINE], {"m", "d/x"}))
  {
    hide *;
    TwoLines(Inc(X), Inc(X), X, [LINE]);
    assert [X] + [] == [X] && [LINE] + [LINE] == [LINE, LINE];
    GetX([Inc(X), Inc(X)]);
    ExpandOne(With([Inc(X), Inc(X)]), "m", X, "d/x", Out([LINE], {"m", "d/x"}));
    ReplaceX();
    TidyX([LINE, LINE]);
  }

  lemma {:induction false} ExpandIndented()
    requires Statements([Inc(X), Inc(INDENTED)]) == [X, INDENTED]
    ensures var m := [Inc(X), Inc(INDENTED)];
            Program(With(m), ["m"]) ==
            Ok(Out(Tidy(StrReplace(StrReplace(m, X, [LINE]), INDENTED, [])), {"m", "d/x"}))
  {
    var m, w := [Inc(X), Inc(INDENTED)], {"m", "d/x"};
    FindX(m, X);
    FindX(m, INDENTED);
    TwoTargets(With(m), X, INDENTED, "d/x");
    ReadX(m, {"m"});
    ReadX(m, w);
    assert {"m"} + {"d/x"} == w && w + {"d/x"} == w;
    ExpandTwo(With(m), "m", X, INDENTED, "d/x", "d/x", Out([LINE], w), Out([], w));
  }

  /** The same statement with blanks in front: it is another statement, and yet the
      included line comes twice. */
  lemma {:induction false} IndentedStatement()
    ensures var m := [Inc(X), Inc(INDENTED)];
            Statements(m) == [X, INDENTED] && Program(With(m), ["m"]) == Ok(Out([LINE, LINE], {"m", "d/x"}))
  {
    hide *;
    ReplaceX();
    TwoLines(Inc(X), Inc(INDENTED), X, [LINE]);
    TwoLines(LINE, LINE, INDENTED, []);
    assert [X] + [INDENTED] == [X, INDENTED] && [LINE] + [LINE] == [LINE, LINE];
    ExpandIndented();
    TidyX([LINE, LINE]);
  }

  lemma {:induction false} ReplaceMention()
    ensures ReplaceIn(Own("m", 0, "/" + Spelled(X)), X, [LINE]) == [Own("m", 0, "/")] + [LINE] + [Own("m", 0, "")]
  {
    SplitAfter("/", Spelled(X));
    TwoFragments("m", 0, "/", "", [LINE]);
  }

  /** A statement mentioned in an own line: the included line comes twice, once inside the
      own line. */
  lemma {:induction false} MentionedStatement()
    ensures var mention := Own("m", 0, "/" + Spelled(X));
            Program(With([mention, Inc(X)]), ["m"])
            == Ok(Out([Own("m", 0, "/"), LINE, Own("m", 0, ""), LINE], {"m", "d/x"}))
  {
    hide *;
    var mention := Own("m", 0, "/" + Spelled(X));
    TwoLines(mention, Inc(X), X, [LINE]);
    ReplaceMention();
    assert [] + [X] == [X];
    GetX([mention, Inc(X)]);
    ExpandOne(With([mention, Inc(X)]), "m", X, "d/x", Out([LINE], {"m", "d/x"}));
    ReplaceX();
    var before, after := Own("m", 0, "/"), Own("m", 0, "");
    assert ([before] + [LINE] + [after]) + [LINE] == [before, LINE, after, LINE];
    TidyMention();
  }

  lemma {:induction false} SplitAfter(a: string, p: string)
    requires |a| == 1 && p != "" && a[0] != p[0]
    ensures Split(p, a + p) == [a, ""]
  {
    assert (a + p)[1..] == p && p[|p|..] == "" && Split(p, "") == [""];
    assert p[..|p|] == p && Split(p, p) == ["", ""];
    assert [a[0]] + "" == a;
    assert Split(p, a + p) == [a] + [""];
  }

  lemma {:induction false} TwoFragments(o: Path, n: nat, a: string, b: string, c: seq<Line>)
    ensures Fragments(o, n, [a, b], c) == [Own(o, n, a)] + c + [Own(o, n, b)]
  {
    assert [a, b][1..] == [b];
    OneFragment(o, n, b, c);
  }

  lemma {:induction false} TidyMention()
    ensures var r := [Own("m", 0, "/"), LINE, Own("m", 0, ""), LINE]; Tidy(r) == r
  {
    assert Remove("#pragma once", "x") == "x" && Remove("#pragma once", "/") == "/";
  }
}
