/** Sources whose header holds lines out of order. */
module RepeatedOrder {
  import opened Amalgamator
  import opened ExactlyOnce
  import opened IncludeGraph
  import opened IncludeOnce
  import opened IncludeOrder
  import opened RepeatedIncludes
  import opened Wrappers

  lemma {:induction false} ThreeLines(a: Line, b: Line, d: Line, i: Include, c: seq<Line>)
    ensures StrReplace([a, b, d], i, c) == ReplaceIn(a, i, c) + (ReplaceIn(b, i, c) + ReplaceIn(d, i, c))
    ensures Statements([a, b, d]) ==
            Statements([a, b]) + if d.Inc? && d != a && d != b then [d.inc] else []
  {
    TwoLines(b, d, i, c);
    assert [a, b, d][1..] == [b, d] && [a, b, d][..2] == [a, b];
  }

  lemma {:induction false} IncludesMeanReaching(s: Source, f: Path, k: nat, g: Path)
    requires f in s.files && k < |s.files[f]| && s.files[f][k].Inc? && Resolve(s, s.files[f][k].inc) == Some(g)
    ensures Brings(s, f, k, g)
  {
    assert ReachesIn(s, g, g, 0);
  }

  // ---------------------------------------------------------------- a repeated statement

  const BETWEEN := Own("m", 1, "a")

  /** `m` includes `x`, has a line of its own, and includes `x` again. */
  const AGAIN := With([Inc(X), BETWEEN, Inc(X)])

  lemma {:induction false} AgainText()
    ensures Program(AGAIN, ["m"]) == Ok(Out([LINE, BETWEEN, LINE], {"m", "d/x"}))
  {
    var m := [Inc(X), BETWEEN, Inc(X)];
    assert BETWEEN.Own? && BETWEEN.text == "a" && AGAIN == With(m);
    AgainStatements(m);
    GetX(m);
    ExpandOne(AGAIN, "m", X, "d/x", Out([LINE], {"m", "d/x"}));
    AgainReplaced();
    AgainTidy();
    hide *;
    assert [LINE] + ([BETWEEN] + [LINE]) == [LINE, BETWEEN, LINE];
  }

  lemma {:induction false} AgainStatements(m: seq<Line>)
    requires m == [Inc(X), BETWEEN, Inc(X)]
    ensures Statements(m) == [X]
  {
    ThreeLines(Inc(X), BETWEEN, Inc(X), X, [LINE]);
    TwoLines(Inc(X), BETWEEN, X, [LINE]);
  }

  lemma {:induction false} AgainReplaced()
    ensures StrReplace([Inc(X), BETWEEN, Inc(X)], X, [LINE]) == [LINE] + ([BETWEEN] + [LINE])
  {
    ThreeLines(Inc(X), BETWEEN, Inc(X), X, [LINE]);
    ReplaceX();
    SplitShort(Spelled(X), "a");
    OneFragment("m", 1, "a", [LINE]);
  }

  lemma {:induction false} SplitShort(p: string, t: string)
    requires |t| == 1 < |p|
    ensures Split(p, t) == [t]
  {
    assert t[1..] == "" && Split(p, "") == [""] && [t[0]] + "" == t;
  }

  lemma {:induction false} AgainTidy()
    ensures Tidy([LINE, BETWEEN, LINE]) == [LINE, BETWEEN, LINE]
  {
    assert Remove("#pragma once", "x") == "x" && Remove("#pragma once", "a") == "a";
  }

  lemma {:induction false} AgainEdges(f: Path, g: Path)
    requires Edge(AGAIN, f, g)
    ensures f == "m" && g == "d/x"
  {
    FindX([Inc(X), BETWEEN, Inc(X)], X);
  }

  /** A repeated statement puts the lines it brings in below a line that needs them; only
      their first copies are in order. */
  lemma {:induction false} RepeatedOutOfOrder()
    ensures Labelled(AGAIN) && Acyclic(AGAIN) && Program(AGAIN, ["m"]).Ok?
    ensures !Ordered(AGAIN, Program(AGAIN, ["m"]).value.text)
  {
    AgainText();
    forall f, g | Edge(AGAIN, f, g) ensures !Reaches(AGAIN, g, f) {
      AgainEdges(f, g);
      if n: nat :| ReachesIn(AGAIN, g, f, n) {
        if n > 0 {
          var h :| Edge(AGAIN, g, h) && ReachesIn(AGAIN, h, f, n - 1);
          AgainEdges(g, h);
        }
      }
    }
    FindX([Inc(X), BETWEEN, Inc(X)], X);
    IncludesMeanReaching(AGAIN, "m", 0, "d/x");
    var text := Program(AGAIN, ["m"]).value.text;
    assert NeedsLine(AGAIN, text[1], text[2]);
  }

  // ---------------------------------------------------------------- a mentioned statement

  const Y := Include("#include ", "y")
  const YLINE := Own("d/y", 0, "y")
  const XLINE := Own("d/x", 1, "x")

  /** `x` includes `y`; `m` mentions the statement for `x`, then includes `y` and `x`. */
  const MENTION := Own("m", 0, "/" + Spelled(X))
  const MENTIONING := Source(map["m" := [MENTION, Inc(Y), Inc(X)], "d/x" := [Inc(Y), XLINE], "d/y" := [YLINE]], ["d"])

  lemma {:induction false} FindXY()
    ensures Resolve(MENTIONING, X) == Some("d/x") && Resolve(MENTIONING, Y) == Some("d/y")
    ensures Targets(MENTIONING, [Y]) == Ok(["d/y"]) && Targets(MENTIONING, [Y, X]) == Ok(["d/y", "d/x"])
  {
    assert MENTIONING.dirs[0] + "/" + X.name == "d/x" && MENTIONING.dirs[0] + "/" + Y.name == "d/y";
    assert [Y][..0] == [] && [Y, X][..1] == [Y] && [] + ["d/y"] == ["d/y"] && ["d/y"] + ["d/x"] == ["d/y", "d/x"];
    assert Targets(MENTIONING, [Y]) == Ok(["d/y"]);
  }

  lemma {:induction false} ReadY(w: set<Path>)
    ensures ExpandFile(MENTIONING, "d/y", w) == Ok(Out(if "d/y" in w then [] else [YLINE], w + {"d/y"}))
  {
    var d := MENTIONING.files["d/y"];
    assert d[..0] == [] && Statements(d) == [];
    assert Remove("#pragma once", "y") == "y";
    assert Tidy([YLINE]) == [YLINE];
    assert "d/y" in w ==> w + {"d/y"} == w;
  }

  lemma {:induction false} ReplaceXY()
    ensures ReplaceIn(XLINE, Y, []) == [XLINE] && ReplaceIn(YLINE, X, [XLINE]) == [YLINE]
    ensures ReplaceIn(Inc(Y), Y, []) == [] && ReplaceIn(Inc(Y), Y, [YLINE]) == [YLINE]
    ensures ReplaceIn(Inc(X), X, [XLINE]) == [XLINE] && ReplaceIn(Inc(X), Y, [YLINE]) == [Inc(X)]
  {
    assert Y.lead[0..] == Y.lead && X.lead[0..] == X.lead;
    assert |Spelled(Y)| > 1 && Remove(Spelled(Y), "x") == "x";
    SplitShort(Spelled(X), "y");
    OneFragment("d/y", 0, "y", [XLINE]);
  }

  lemma {:induction false} ReplaceMentions()
    ensures ReplaceIn(MENTION, Y, [YLINE]) == [MENTION]
    ensures ReplaceIn(MENTION, X, [XLINE]) == [Own("m", 0, "/")] + [XLINE] + [Own("m", 0, "")]
  {
    SplitAfter("/", Spelled(X));
    TwoFragments("m", 0, "/", "", [XLINE]);
    SplitNot(Spelled(Y), "/" + Spelled(X), 'y');
    OneFragment("m", 0, MENTION.text, [YLINE]);
  }

  lemma {:induction false} ReadXAfterY()
    ensures ExpandFile(MENTIONING, "d/x", {"m", "d/y"}) == Ok(Out([XLINE], {"m", "d/y", "d/x"}))
  {
    var w := {"m", "d/y"} + {"d/x"};
    FindXY();
    TwoLines(Inc(Y), XLINE, Y, []);
    assert [Y] + [] == [Y] && [] + [XLINE] == [XLINE];
    ReplaceXY();
    ReadY(w);
    assert w + {"d/y"} == w && w == {"m", "d/y", "d/x"};
    assert [Y][1..] == [] && ["d/y"][1..] == [];
    assert ReplaceAll(MENTIONING, [Inc(Y), XLINE], [Y], ["d/y"], w) == Ok(Out([XLINE], w));
    assert Remove("#pragma once", "x") == "x";
    assert Tidy([XLINE]) == [XLINE];
  }

  lemma {:induction false} MentioningStatements()
    ensures Statements([MENTION, Inc(Y), Inc(X)]) == [Y, X]
  {
    ThreeLines(MENTION, Inc(Y), Inc(X), X, []);
    TwoLines(MENTION, Inc(Y), X, []);
    assert [] + [Y] == [Y] && [Y] + [X] == [Y, X];
  }

  lemma {:induction false} MentioningReplaced()
    ensures StrReplace([MENTION, Inc(Y), Inc(X)], Y, [YLINE]) == [MENTION, YLINE, Inc(X)]
    ensures StrReplace([MENTION, YLINE, Inc(X)], X, [XLINE]) ==
            [Own("m", 0, "/"), XLINE, Own("m", 0, ""), YLINE, XLINE]
  {
    ThreeLines(MENTION, Inc(Y), Inc(X), Y, [YLINE]);
    ThreeLines(MENTION, YLINE, Inc(X), X, [XLINE]);
    ReplaceXY();
    ReplaceMentions();
    hide *;
    assert [MENTION] + ([YLINE] + [Inc(X)]) == [MENTION, YLINE, Inc(X)];
    var before, after := Own("m", 0, "/"), Own("m", 0, "");
    assert ([before] + [XLINE] + [after]) + ([YLINE] + [XLINE]) == [before, XLINE, after, YLINE, XLINE];
  }

  lemma {:induction false} MentioningTidy()
    ensures var r := [Own("m", 0, "/"), XLINE, Own("m", 0, ""), YLINE, XLINE]; Tidy(r) == r
  {
    assert Remove("#pragma once", "x") == "x" && Remove("#pragma once", "y") == "y";
    assert Remove("#pragma once", "/") == "/";
  }

  lemma {:induction false} MentioningText()
    ensures Program(MENTIONING, ["m"]) ==
            Ok(Out([Own("m", 0, "/"), XLINE, Own("m", 0, ""), YLINE, XLINE], {"m", "d/y", "d/x"}))
  {
    assert MENTIONING.files["m"] == [MENTION, Inc(Y), Inc(X)];
    var w, all := {"m", "d/y"}, {"m", "d/y", "d/x"};
    assert "m" != "d/y" && {"m"} + {"d/y"} == w;
    hide *;
    FindXY();
    MentioningStatements();
    MentioningReplaced();
    MentioningTidy();
    ReadY({"m"});
    ReadXAfterY();
    ExpandTwo(MENTIONING, "m", Y, X, "d/y", "d/x", Out([YLINE], w), Out([XLINE], all));
  }

  lemma {:induction false} MentioningEdges(f: Path, g: Path)
    requires Edge(MENTIONING, f, g)
    ensures (f == "m" && (g == "d/x" || g == "d/y")) || (f == "d/x" && g == "d/y")
  {
    FindXY();
  }

  function Height(f: Path): nat { if f == "m" then 2 else if f == "d/x" then 1 else 0 }

  lemma {:induction false} MentioningGoesDown(f: Path, g: Path, n: nat)
    ensures ReachesIn(MENTIONING, f, g, n) ==> Height(g) <= Height(f)
    decreases n
  {
    if n > 0 && ReachesIn(MENTIONING, f, g, n) {
      var h :| Edge(MENTIONING, f, h) && ReachesIn(MENTIONING, h, g, n - 1);
      MentioningEdges(f, h);
      MentioningGoesDown(h, g, n - 1);
    }
  }

  lemma {:induction false} MentioningAcyclic()
    ensures Acyclic(MENTIONING)
  {
    forall f, g | Edge(MENTIONING, f, g) ensures !Reaches(MENTIONING, g, f) {
      MentioningEdges(f, g);
      forall n: nat ensures !ReachesIn(MENTIONING, g, f, n) {
        MentioningGoesDown(g, f, n);
      }
    }
  }

  /** Mentioned above the include statement of another file it needs, a header is put
      above what it needs: not even the first copies are in order. */
  lemma {:induction false} MentionedOutOfOrder()
    ensures Labelled(MENTIONING) && Acyclic(MENTIONING) && Program(MENTIONING, ["m"]).Ok?
    ensures !FirstOrdered(MENTIONING, {}, Program(MENTIONING, ["m"]).value.text)
  {
    MentioningText();
    MentioningAcyclic();
    MentioningLabelled();
    MentioningNeeds();
    hide *;
    var text := Program(MENTIONING, ["m"]).value.text;
    NotFirstOrdered(MENTIONING, text);
  }

  lemma {:induction false} MentioningLabelled()
    ensures Labelled(MENTIONING)
  {
  }

  lemma {:induction false} MentioningNeeds()
    ensures NeedsLine(MENTIONING, XLINE, YLINE) && LabelOf(YLINE) != LabelOf(Own("m", 0, "/"))
  {
    FindXY();
    IncludesMeanReaching(MENTIONING, "d/x", 0, "d/y");
  }

  lemma {:induction false} NotFirstOrdered(s: Source, text: seq<Line>)
    requires |text| > 3 && NeedsLine(s, text[1], text[3]) && LabelOf(text[0]) != LabelOf(text[3])
    ensures !FirstOrdered(s, {}, text)
  {
    assert !Above(text, 1, LabelOf(text[3]));
  }
}
