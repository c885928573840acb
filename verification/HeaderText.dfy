/** What the own lines of the sources read in the amalgamated header. */
module HeaderText {
  import opened Amalgamator
  import opened ExactlyOnce
  import opened IncludeOnce
  import opened RepeatedIncludes

  /** The own line of the sources a line of the header comes from. */
  ghost predicate ComesFrom(s: Source, x: Line, t: string) {
    && x.Own? && x.origin in s.files && x.index < |s.files[x.origin]|
    && s.files[x.origin][x.index].Own? && s.files[x.origin][x.index].text == t
  }

  /** A line that no replacement changes: it mentions neither `#pragma once` nor a statement. */
  ghost predicate Untouched(s: Source, t: string) {
    |Split("#pragma once", t)| == 1 && forall i :: IsStatement(s, i) ==> |Split(Spelled(i), t)| == 1
  }

  /** While a file is expanded: `#pragma once` may still be there. */
  ghost predicate Settling(s: Source, x: Line) {
    && (ComesFrom(s, x, "#pragma once") ==> x.text == "" || x.text == "#pragma once")
    && forall t :: ComesFrom(s, x, t) && Untouched(s, t) ==> x.text == t
  }

  /** Then it is gone. */
  ghost predicate Settled(s: Source, x: Line) {
    && (ComesFrom(s, x, "#pragma once") ==> x.text == "")
    && forall t :: ComesFrom(s, x, t) && Untouched(s, t) ==> x.text == t
  }

  ghost predicate AllSettling(s: Source, text: seq<Line>) {
    forall k :: 0 <= k < |text| ==> Settling(s, text[k])
  }

  ghost predicate AllSettled(s: Source, text: seq<Line>) {
    forall k :: 0 <= k < |text| ==> Settled(s, text[k])
  }

  lemma {:induction false} SettledSettles(s: Source, text: seq<Line>)
    requires AllSettled(s, text)
    ensures AllSettling(s, text)
  {
    forall k | 0 <= k < |text| ensures Settling(s, text[k]) {
      assert Settled(s, text[k]);
    }
  }

  lemma {:induction false} PragmaHasNoStatement(i: Include)
    ensures Split(Spelled(i), "#pragma once") == ["#pragma once"] && Split(Spelled(i), "") == [""]
    ensures Remove(Spelled(i), "#pragma once") == "#pragma once" && Remove(Spelled(i), "") == ""
  {
    assert Spelled(i)[|i.lead|] == '"';
    SplitNot(Spelled(i), "#pragma once", '"');
    SplitOnce(Spelled(i), "#pragma once");
  }

  /** A line of which only the statement was removed. */
  lemma {:induction false} RemovedSettling(s: Source, x: Line, i: Include)
    requires x.Own? && Settling(s, x) && IsStatement(s, i)
    ensures Settling(s, Own(x.origin, x.index, Remove(Spelled(i), x.text)))
  {
    hide Remove, Split, IsStatement;
    var y := Own(x.origin, x.index, Remove(Spelled(i), x.text));
    PragmaHasNoStatement(i);
    assert ComesFrom(s, y, "#pragma once") ==> ComesFrom(s, x, "#pragma once");
    forall t | ComesFrom(s, y, t) && Untouched(s, t) ensures y.text == t {
      assert ComesFrom(s, x, t);
      SplitOnce(Spelled(i), t);
    }
  }

  lemma {:induction false} LineSettling(s: Source, x: Line, i: Include, c: seq<Line>)
    requires Settling(s, x) && AllSettling(s, c) && IsStatement(s, i)
    ensures AllSettling(s, ReplaceIn(x, i, c))
  {
    hide Settling, IsStatement, Remove, Split, Fragments;
    if x.Own? {
      if c == [] {
        RemovedSettling(s, x, i);
      } else {
        FragmentsSettling(s, x, i, c);
      }
    }
  }

  lemma {:induction false} FragmentsSettling(s: Source, x: Line, i: Include, c: seq<Line>)
    requires x.Own? && Settling(s, x) && AllSettling(s, c) && IsStatement(s, i)
    ensures AllSettling(s, Fragments(x.origin, x.index, Split(Spelled(i), x.text), c))
  {
    var parts := Split(Spelled(i), x.text);
    if |parts| == 1 {
      SplitOnce(Spelled(i), x.text);
      OneFragment(x.origin, x.index, x.text, c);
    } else {
      PragmaHasNoStatement(i);
      assert !ComesFrom(s, x, "#pragma once");
      assert forall t :: ComesFrom(s, x, t) ==> !Untouched(s, t);
      OthersSettling(s, x, parts, c);
    }
  }

  /** Fragments of a line nothing is said of. */
  lemma {:induction false} OthersSettling(s: Source, x: Line, parts: seq<string>, c: seq<Line>)
    requires x.Own? && parts != [] && AllSettling(s, c)
    requires !ComesFrom(s, x, "#pragma once") && forall t :: ComesFrom(s, x, t) ==> !Untouched(s, t)
    ensures AllSettling(s, Fragments(x.origin, x.index, parts, c))
  {
    var y := Own(x.origin, x.index, parts[0]);
    assert forall t :: ComesFrom(s, y, t) ==> ComesFrom(s, x, t);
    assert Settling(s, y);
    if |parts| > 1 {
      OthersSettling(s, x, parts[1..], c);
    }
  }

  lemma {:induction false} ReplaceSettling(s: Source, text: seq<Line>, i: Include, c: seq<Line>)
    requires AllSettling(s, text) && AllSettling(s, c) && IsStatement(s, i)
    ensures AllSettling(s, StrReplace(text, i, c))
  {
    if text != [] {
      ReplaceSettling(s, text[1..], i, c);
      LineSettling(s, text[0], i, c);
    }
  }

  lemma {:induction false} TidySettles(s: Source, text: seq<Line>)
    requires AllSettling(s, text)
    ensures AllSettled(s, Tidy(text))
  {
    forall k | 0 <= k < |text| ensures Settled(s, Tidy(text)[k]) {
      var x, y := text[k], Tidy(text)[k];
      assert Settling(s, x);
      PragmaRemoved();
      forall t | ComesFrom(s, y, t) && Untouched(s, t) ensures y.text == t {
        assert ComesFrom(s, x, t);
        SplitOnce("#pragma once", t);
      }
      assert ComesFrom(s, y, "#pragma once") ==> ComesFrom(s, x, "#pragma once");
    }
  }

  lemma {:induction false} PragmaRemoved()
    ensures Remove("#pragma once", "#pragma once") == Remove("#pragma once", "") == ""
  {
    var p := "#pragma once";
    assert p[..|p|] == p && p[|p|..] == "";
  }

  lemma {:induction false} FileSettled(s: Source, f: Path, w: set<Path>)
    requires Labelled(s) && ExpandFile(s, f, w).Ok?
    ensures AllSettled(s, ExpandFile(s, f, w).value.text)
    decreases s.files.Keys - w, 0
  {
    if f !in w && f in s.files {
      var text, incs := s.files[f], Statements(s.files[f]);
      var ps := Targets(s, incs).value;
      forall k | 0 <= k < |text| ensures Settling(s, text[k]) {
        assert text[k].Own? ==> text[k].origin == f && text[k].index == k;
      }
      assert forall k :: 0 <= k < |incs| ==> Inc(incs[k]) in text;
      AllSettle(s, text, incs, ps, w + {f});
      TidySettles(s, ReplaceAll(s, text, incs, ps, w + {f}).value.text);
    }
  }

  lemma {:induction false} AllSettle(s: Source, text: seq<Line>, incs: seq<Include>, ps: seq<Path>, w: set<Path>)
    requires Labelled(s) && AllSettling(s, text) && |incs| == |ps| && ReplaceAll(s, text, incs, ps, w).Ok?
    requires forall k :: 0 <= k < |incs| ==> IsStatement(s, incs[k])
    ensures AllSettling(s, ReplaceAll(s, text, incs, ps, w).value.text)
    decreases s.files.Keys - w, 1, |incs|
  {
    if incs != [] {
      var o := ExpandFile(s, ps[0], w).value;
      FileSettled(s, ps[0], w);
      SettledSettles(s, o.text);
      ReplaceSettling(s, text, incs[0], o.text);
      AllSettle(s, StrReplace(text, incs[0], o.text), incs[1..], ps[1..], o.written);
    }
  }

  /** In the header, on any include graph and whatever the replacements hit, a line that was
      `#pragma once` is empty, and a line that mentions neither that nor a statement reads as
      in its file. */
  lemma {:induction false} LinesReadTheSame(s: Source, mains: seq<Path>)
    requires Labelled(s) && Program(s, mains).Ok?
    ensures AllSettled(s, Program(s, mains).value.text)
  {
    if mains != [] {
      var init, last := mains[..|mains| - 1], mains[|mains| - 1];
      LinesReadTheSame(s, init);
      FileSettled(s, last, Program(s, init).value.written);
    }
  }
}
