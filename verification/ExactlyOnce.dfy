/** How often each line of the sources stands in the amalgamated header. */
module ExactlyOnce {
  import opened Amalgamator
  import opened IncludeOnce
  import opened IncludeGraph
  import opened Wrappers

  /** Where a line comes from; nothing for an include statement. */
  type Label = Option<(Path, nat)>

  function LabelOf(l: Line): Label {
    if l.Own? then Some((l.origin, l.index)) else None
  }

  function Labels(text: seq<Line>): (r: seq<Label>)
    ensures |r| == |text|
  {
    seq(|text|, k requires 0 <= k < |text| => LabelOf(text[k]))
  }

  function Copies(text: seq<Line>): multiset<Label> {
    multiset(Labels(text))
  }

  /** The label of an own line of a file. */
  ghost predicate IsOwn(s: Source, l: Label) {
    l.Some? && l.value.0 in s.files && l.value.1 < |s.files[l.value.0]| && s.files[l.value.0][l.value.1].Own?
  }

  /** One for the label of an own line of a file in `files`. */
  ghost function One(s: Source, l: Label, files: set<Path>): nat {
    if IsOwn(s, l) && l.value.0 in files then 1 else 0
  }

  /** The text holds each own line of the files in `files` once, and nothing else. */
  ghost predicate EachOnce(s: Source, text: seq<Line>, files: set<Path>) {
    forall l :: Copies(text)[l] == One(s, l, files)
  }

  lemma {:induction false} CopiesAdd(a: seq<Line>, b: seq<Line>)
    ensures Copies(a + b) == Copies(a) + Copies(b)
  {
    assert Labels(a + b) == Labels(a) + Labels(b);
  }

  lemma {:induction false} TidyKeepsCopies(text: seq<Line>)
    ensures Copies(Tidy(text)) == Copies(text)
  {
    assert Labels(Tidy(text)) == Labels(text);
  }

  // ---------------------------------------------------------------- what a replacement does to the copies

  /** What `n` more copies of something come to at least. */
  function AtLeast(n: nat, x: nat): nat { if n == 0 then 0 else if n == 1 then x else 2 * x }

  lemma {:induction false} FragmentCopies(origin: Path, index: nat, parts: seq<string>, c: seq<Line>, l: Label)
    requires parts != []
    ensures Copies(Fragments(origin, index, parts, c))[l] >=
            (if l == Some((origin, index)) then 1 else 0) + AtLeast(|parts| - 1, Copies(c)[l])
  {
    var x := [Own(origin, index, parts[0])];
    assert Labels(x) == [Some((origin, index))];
    if |parts| > 1 {
      var rest := Fragments(origin, index, parts[1..], c);
      FragmentCopies(origin, index, parts[1..], c, l);
      CopiesAdd(x, c + rest);
      CopiesAdd(c, rest);
    } else {
      assert x + [] == x;
    }
  }

  lemma {:induction false} LineCopies(x: Line, i: Include, c: seq<Line>, l: Label)
    requires l.Some?
    ensures Copies(ReplaceIn(x, i, c))[l] >=
            Copies([x])[l] + AtLeast(OwnHits([x], i) + LineHits([x], i), Copies(c)[l])
    ensures c == [] || OwnHits([x], i) == 0 ==>
              Copies(ReplaceIn(x, i, c))[l] == Copies([x])[l] + if LineHits([x], i) == 0 then 0 else Copies(c)[l]
  {
    assert Labels([x]) == [LabelOf(x)];
    assert [x][1..] == [] && OwnHits([], i) == LineHits([], i) == 0;
    if x.Own? {
      hide Fragments, Split, Remove;
      if c == [] {
        assert Labels(ReplaceIn(x, i, c)) == [LabelOf(x)];
      } else {
        FragmentCopies(x.origin, x.index, Split(Spelled(i), x.text), c, l);
        if OwnHits([x], i) == 0 {
          SplitOnce(Spelled(i), x.text);
          OneFragment(x.origin, x.index, x.text, c);
        }
      }
    }
  }

  lemma {:induction false} OneFragment(origin: Path, index: nat, text: string, c: seq<Line>)
    ensures Fragments(origin, index, [text], c) == [Own(origin, index, text)]
  {
    assert [Own(origin, index, text)] + [] == [Own(origin, index, text)];
  }

  lemma {:induction false} HitsAdd(text: seq<Line>, i: Include)
    requires text != []
    ensures OwnHits(text, i) == OwnHits([text[0]], i) + OwnHits(text[1..], i)
    ensures LineHits(text, i) == LineHits([text[0]], i) + LineHits(text[1..], i)
  {
    assert [text[0]][1..] == [] && OwnHits([], i) == LineHits([], i) == 0;
  }

  lemma {:induction false} ReplaceAtLeast(text: seq<Line>, i: Include, c: seq<Line>, l: Label)
    requires l.Some?
    ensures Copies(StrReplace(text, i, c))[l] >=
            Copies(text)[l] + AtLeast(OwnHits(text, i) + LineHits(text, i), Copies(c)[l])
  {
    NothingReplaced(i, c, l);
    hide *;
    if text != [] {
      var x, rest := text[0], text[1..];
      ReplaceAtLeast(rest, i, c, l);
      LineCopies(x, i, c, l);
      HitsAdd(text, i);
      ReplaceCons(text, i, c, l);
      AtLeastAdd(OwnHits([x], i) + LineHits([x], i), OwnHits(rest, i) + LineHits(rest, i), Copies(c)[l]);
    }
  }

  lemma {:induction false} NothingReplaced(i: Include, c: seq<Line>, l: Label)
    ensures Copies(StrReplace([], i, c))[l] == Copies([])[l] == 0 == OwnHits([], i) + LineHits([], i)
    ensures AtLeast(0, Copies(c)[l]) == 0
  {
  }

  lemma {:induction false} ReplaceExactly(text: seq<Line>, i: Include, c: seq<Line>, l: Label)
    requires l.Some?
    ensures OwnHits(text, i) == LineHits(text, i) == 0 ==> Copies(StrReplace(text, i, c))[l] == Copies(text)[l]
    ensures c == [] || (OwnHits(text, i) == 0 && LineHits(text, i) == 1) ==>
              Copies(StrReplace(text, i, c))[l] == Copies(text)[l] + Copies(c)[l]
  {
    NothingReplaced(i, c, l);
    hide *;
    if c == [] {
      NoCopies(l);
    }
    if text != [] {
      var x, rest := text[0], text[1..];
      ReplaceExactly(rest, i, c, l);
      LineCopies(x, i, c, l);
      HitsAdd(text, i);
      ReplaceCons(text, i, c, l);
    }
  }

  lemma {:induction false} AtLeastAdd(m: nat, n: nat, x: nat)
    ensures AtLeast(m + n, x) <= AtLeast(m, x) + AtLeast(n, x)
  {
  }

  lemma {:induction false} ReplaceCons(text: seq<Line>, i: Include, c: seq<Line>, l: Label)
    requires text != []
    ensures Copies(text)[l] == Copies([text[0]])[l] + Copies(text[1..])[l]
    ensures Copies(StrReplace(text, i, c))[l] ==
            Copies(ReplaceIn(text[0], i, c))[l] + Copies(StrReplace(text[1..], i, c))[l]
  {
    assert text == [text[0]] + text[1..];
    CopiesAdd([text[0]], text[1..]);
    CopiesAdd(ReplaceIn(text[0], i, c), StrReplace(text[1..], i, c));
  }

  lemma {:induction false} NoCopies(l: Label)
    ensures Copies([])[l] == 0
  {
  }

  lemma {:induction false} StaysIn(text: seq<Line>, j: Include, i: Include, c: seq<Line>)
    requires Inc(j) in text && !Holds(j, i)
    ensures Inc(j) in StrReplace(text, i, c)
  {
    if text[0] != Inc(j) {
      StaysIn(text[1..], j, i, c);
    }
  }

  lemma {:induction false} HitsItself(text: seq<Line>, i: Include)
    requires Inc(i) in text
    ensures LineHits(text, i) >= 1
  {
    assert i.lead[0..] == i.lead;
    if text[0] != Inc(i) {
      HitsItself(text[1..], i);
    }
  }

  lemma {:induction false} FragmentsFlat(origin: Path, index: nat, parts: seq<string>, c: seq<Line>)
    requires parts != [] && Flat(c)
    ensures Flat(Fragments(origin, index, parts, c))
  {
    if |parts| > 1 {
      FragmentsFlat(origin, index, parts[1..], c);
    }
  }

  lemma {:induction false} IncStays(text: seq<Line>, i: Include, c: seq<Line>, x: Line)
    requires Flat(c) && x in StrReplace(text, i, c) && x.Inc?
    ensures x in text && !Holds(x.inc, i)
  {
    if x in ReplaceIn(text[0], i, c) {
      if text[0].Own? {
        FragmentsFlat(text[0].origin, text[0].index, Split(Spelled(i), text[0].text), c);
      }
    } else {
      IncStays(text[1..], i, c, x);
    }
  }

  // ---------------------------------------------------------------- no include statement remains

  lemma {:induction false} FileFlat(s: Source, f: Path, w: set<Path>)
    ensures ExpandFile(s, f, w).Ok? ==> Flat(ExpandFile(s, f, w).value.text)
    decreases s.files.Keys - w, 0
  {
    if f !in w && f in s.files && Targets(s, Statements(s.files[f])).Ok? {
      var incs := Statements(s.files[f]);
      AllFlat(s, s.files[f], incs, Targets(s, incs).value, w + {f});
    }
  }

  lemma {:induction false} AllFlat(s: Source, text: seq<Line>, incs: seq<Include>, ps: seq<Path>, w: set<Path>)
    requires |incs| == |ps| && forall x :: x in text && x.Inc? ==> x.inc in incs
    ensures ReplaceAll(s, text, incs, ps, w).Ok? ==> Flat(ReplaceAll(s, text, incs, ps, w).value.text)
    decreases s.files.Keys - w, 1, |incs|
  {
    if incs != [] && ExpandFile(s, ps[0], w).Ok? {
      var o := ExpandFile(s, ps[0], w).value;
      FileFlat(s, ps[0], w);
      forall x | x in StrReplace(text, incs[0], o.text) && x.Inc? ensures x.inc in incs[1..] {
        IncStays(text, incs[0], o.text, x);
        assert incs[0].lead[0..] == incs[0].lead;
      }
      AllFlat(s, StrReplace(text, incs[0], o.text), incs[1..], ps[1..], o.written);
    }
  }

  lemma {:induction false} FlatCopies(text: seq<Line>)
    requires Flat(text)
    ensures Copies(text)[None] == 0
    ensures text != [] ==> LabelOf(text[0]).Some? && Copies(text)[LabelOf(text[0])] >= 1
  {
    assert None !in Labels(text);
    if text != [] {
      assert Labels(text)[0] == LabelOf(text[0]);
    }
  }

  // ---------------------------------------------------------------- once, or not

  /** While `f` is expanded, a text that is not empty is put in one place: the include line
      of its statement. */
  ghost predicate SingleFile(s: Source, f: Path, w: set<Path>)
    decreases s.files.Keys - w, 0
  {
    f !in w && f in s.files ==>
      match Targets(s, Statements(s.files[f]))
      case Err(_) => true
      case Ok(ps) => SingleAll(s, s.files[f], Statements(s.files[f]), ps, w + {f})
  }

  ghost predicate SingleAll(s: Source, text: seq<Line>, incs: seq<Include>, ps: seq<Path>, w: set<Path>)
    requires |incs| == |ps|
    decreases s.files.Keys - w, 1, |incs|
  {
    incs != [] ==>
      && SingleFile(s, ps[0], w)
      && match ExpandFile(s, ps[0], w)
         case Err(_) => true
         case Ok(o) =>
           && (o.text != [] ==> LineHits(text, incs[0]) == 1 && OwnHits(text, incs[0]) == 0)
           && SingleAll(s, StrReplace(text, incs[0], o.text), incs[1..], ps[1..], o.written)
  }

  ghost predicate SingleProgram(s: Source, mains: seq<Path>) {
    mains != [] ==>
      var before := Program(s, mains[..|mains| - 1]);
      && SingleProgram(s, mains[..|mains| - 1])
      && (before.Ok? ==> SingleFile(s, mains[|mains| - 1], before.value.written))
  }

  ghost predicate Twice(text: seq<Line>) {
    exists l: Label :: l.Some? && Copies(text)[l] >= 2
  }

  /** On top of `was`, the text holds each own line of `files` at least once; just once if
      `single`, and if not, some line twice. */
  ghost predicate OnceMore(s: Source, single: bool, was: seq<Line>, text: seq<Line>, files: set<Path>) {
    && (forall l: Label :: l.Some? ==> Copies(text)[l] >= Copies(was)[l] + One(s, l, files))
    && (single ==> forall l: Label :: l.Some? ==> Copies(text)[l] == Copies(was)[l] + One(s, l, files))
    && (!single ==> Twice(text))
  }

  lemma {:induction false} OnceTwice(s: Source, single: bool, single': bool, was: seq<Line>, mid: seq<Line>,
                                     text: seq<Line>, files: set<Path>, files': set<Path>)
    requires OnceMore(s, single, was, mid, files) && OnceMore(s, single', mid, text, files') && files !! files'
    ensures OnceMore(s, single && single', was, text, files + files')
  {
    assert forall l: Label :: One(s, l, files) + One(s, l, files') == One(s, l, files + files');
    if Twice(mid) {
      var l: Label :| l.Some? && Copies(mid)[l] >= 2;
      assert Copies(text)[l] >= 2;
    }
  }

  lemma {:induction false} FileOnce(s: Source, f: Path, w: set<Path>)
    requires Labelled(s) && ExpandFile(s, f, w).Ok?
    ensures var o := ExpandFile(s, f, w).value; OnceMore(s, SingleFile(s, f, w), [], o.text, o.written - w)
    decreases s.files.Keys - w, 0
  {
    if f !in w && f in s.files {
      var text, incs := s.files[f], Statements(s.files[f]);
      var ps := Targets(s, incs).value;
      var o := ReplaceAll(s, text, incs, ps, w + {f}).value;
      var single, all := SingleAll(s, text, incs, ps, w + {f}), ExpandFile(s, f, w).value;
      assert all == Out(Tidy(o.text), o.written) && SingleFile(s, f, w) == single;
      assert all.written - w == {f} + (o.written - (w + {f}));
      StatementsAlive(s, f, w);
      hide *;
      AllOnce(s, text, incs, ps, w + {f});
      OwnLinesOnce(s, f);
      OnceTwice(s, true, single, [], text, o.text, {f}, o.written - (w + {f}));
      OnceTidied(s, single, o.text, all.written - w);
    }
  }

  lemma {:induction false} StatementsAlive(s: Source, f: Path, w: set<Path>)
    requires f in s.files && Targets(s, Statements(s.files[f])).Ok?
    ensures var incs := Statements(s.files[f]);
            var ps := Targets(s, incs).value;
            Leads(s, incs, ps) && Alive(s.files[f], incs, ps, w + {f})
  {
  }

  lemma {:induction false} OwnLinesOnce(s: Source, f: Path)
    requires Labelled(s) && f in s.files
    ensures OnceMore(s, true, [], s.files[f], {f})
  {
    var text := s.files[f];
    forall l: Label | l.Some? ensures Copies(text)[l] == One(s, l, {f}) && Copies([])[l] == 0 {
      LineOnce(s, f, |text|, l);
      assert text[..|text|] == text;
    }
  }

  lemma {:induction false} OnceTidied(s: Source, single: bool, text: seq<Line>, files: set<Path>)
    requires OnceMore(s, single, [], text, files)
    ensures OnceMore(s, single, [], Tidy(text), files)
  {
    TidyKeepsCopies(text);
  }

  lemma {:induction false} LineOnce(s: Source, f: Path, k: nat, l: Label)
    requires Labelled(s) && f in s.files && k <= |s.files[f]| && l.Some?
    ensures Copies(s.files[f][..k])[l] == if IsOwn(s, l) && l.value.0 == f && l.value.1 < k then 1 else 0
  {
    if k > 0 {
      LineOnce(s, f, k - 1, l);
      var x := s.files[f][k - 1];
      assert s.files[f][..k] == s.files[f][..k - 1] + [x];
      CopiesAdd(s.files[f][..k - 1], [x]);
      assert Labels([x]) == [LabelOf(x)];
    }
  }

  /** Every statement still to replace stands in the text, or leads to a file written. */
  ghost predicate Alive(text: seq<Line>, incs: seq<Include>, ps: seq<Path>, w: set<Path>)
    requires |incs| == |ps|
  {
    forall k :: 0 <= k < |incs| ==> Inc(incs[k]) in text || ps[k] in w
  }

  lemma {:induction false} AllOnce(s: Source, text: seq<Line>, incs: seq<Include>, ps: seq<Path>, w: set<Path>)
    requires Labelled(s) && Leads(s, incs, ps) && Alive(text, incs, ps, w) && ReplaceAll(s, text, incs, ps, w).Ok?
    ensures var o := ReplaceAll(s, text, incs, ps, w).value;
            OnceMore(s, SingleAll(s, text, incs, ps, w), text, o.text, o.written - w)
    decreases s.files.Keys - w, 1, |incs|
  {
    if incs != [] {
      var i, o := incs[0], ExpandFile(s, ps[0], w).value;
      var next := StrReplace(text, i, o.text);
      var here := SingleFile(s, ps[0], w) && (o.text != [] ==> LineHits(text, i) == 1 && OwnHits(text, i) == 0);
      var later := SingleAll(s, next, incs[1..], ps[1..], o.written);
      assert SingleAll(s, text, incs, ps, w) == (here && later);
      var all := ReplaceAll(s, text, incs, ps, w).value;
      assert all == ReplaceAll(s, next, incs[1..], ps[1..], o.written).value;
      assert all.written - w == (o.written - w) + (all.written - o.written);
      FileOnce(s, ps[0], w);
      StillAlive(s, text, incs, ps, w, o.text, o.written);
      AllOnce(s, next, incs[1..], ps[1..], o.written);
      StepOnce(s, text, i, ps[0], w);
      hide *;
      OnceTwice(s, here, later, text, next, all.text, o.written - w, all.written - o.written);
    }
  }

  lemma {:induction false} StillAlive(s: Source, text: seq<Line>, incs: seq<Include>, ps: seq<Path>, w: set<Path>,
                                      c: seq<Line>, w': set<Path>)
    requires Leads(s, incs, ps) && Alive(text, incs, ps, w) && incs != [] && w <= w' && ps[0] in w'
    ensures Alive(StrReplace(text, incs[0], c), incs[1..], ps[1..], w')
  {
    forall k | 0 < k < |incs| ensures Inc(incs[k]) in StrReplace(text, incs[0], c) || ps[k] in w' {
      if ps[k] !in w' {
        assert Resolve(s, incs[k]) != Resolve(s, incs[0]);
        StaysIn(text, incs[k], incs[0], c);
      }
    }
  }

  /** Replacing one statement by what its file expands to. */
  lemma {:induction false} StepOnce(s: Source, text: seq<Line>, i: Include, p: Path, w: set<Path>)
    requires ExpandFile(s, p, w).Ok? && (Inc(i) in text || p in w)
    requires var o := ExpandFile(s, p, w).value; OnceMore(s, SingleFile(s, p, w), [], o.text, o.written - w)
    ensures var o := ExpandFile(s, p, w).value;
            OnceMore(s, SingleFile(s, p, w) && (o.text != [] ==> LineHits(text, i) == 1 && OwnHits(text, i) == 0),
                     text, StrReplace(text, i, o.text), o.written - w)
  {
    var o := ExpandFile(s, p, w).value;
    var next := StrReplace(text, i, o.text);
    forall l: Label | l.Some?
      ensures Copies(next)[l] >= Copies(text)[l] + AtLeast(OwnHits(text, i) + LineHits(text, i), Copies(o.text)[l])
      ensures o.text == [] || (OwnHits(text, i) == 0 && LineHits(text, i) == 1) ==>
                Copies(next)[l] == Copies(text)[l] + Copies(o.text)[l]
    {
      ReplaceAtLeast(text, i, o.text, l);
      ReplaceExactly(text, i, o.text, l);
    }
    FileFlat(s, p, w);
    FlatCopies(o.text);
    if o.text != [] {
      HitsItself(text, i);
      if OwnHits(text, i) + LineHits(text, i) >= 2 {
        assert Copies(next)[LabelOf(o.text[0])] >= 2;
      } else if !SingleFile(s, p, w) {
        var l: Label :| l.Some? && Copies(o.text)[l] >= 2;
        assert Copies(next)[l] >= 2;
      }
    }
  }

  lemma {:induction false} OnceAppended(s: Source, single: bool, a: seq<Line>, b: seq<Line>, files: set<Path>)
    requires OnceMore(s, single, [], b, files)
    ensures OnceMore(s, single, a, a + b, files)
  {
    CopiesAdd(a, b);
    assert forall l: Label :: l.Some? ==> Copies([])[l] == 0;
    if Twice(b) {
      var l: Label :| l.Some? && Copies(b)[l] >= 2;
      assert Copies(a + b)[l] >= 2;
    }
  }

  lemma {:induction false} ProgramOnce(s: Source, mains: seq<Path>)
    requires Labelled(s) && Program(s, mains).Ok?
    ensures var o := Program(s, mains).value;
            OnceMore(s, SingleProgram(s, mains), [], o.text, o.written) && Flat(o.text)
  {
    if mains != [] {
      var init, last := mains[..|mains| - 1], mains[|mains| - 1];
      var before := Program(s, init).value;
      var o := ExpandFile(s, last, before.written).value;
      var all := Program(s, mains).value;
      assert all == Out(before.text + o.text, o.written) && o.written == before.written + (o.written - before.written);
      var single, here := SingleProgram(s, init), SingleFile(s, last, before.written);
      assert SingleProgram(s, mains) == (single && here);
      ProgramOnce(s, init);
      FileFlat(s, last, before.written);
      assert Flat(all.text);
      hide *;
      FileOnce(s, last, before.written);
      OnceAppended(s, here, before.text, o.text, o.written - before.written);
      OnceTwice(s, single, here, [], before.text, all.text, before.written, o.written - before.written);
    }
  }

  /** The header holds each own line of each file written exactly once, and no include
      statement, if and only if no text was put in more than one place: on any include
      graph, cyclic ones too. */
  lemma {:induction false} EachLineOnce(s: Source, mains: seq<Path>)
    requires Labelled(s) && Program(s, mains).Ok?
    ensures var o := Program(s, mains).value; EachOnce(s, o.text, o.written) <==> SingleProgram(s, mains)
  {
    ProgramOnce(s, mains);
    FlatCopies(Program(s, mains).value.text);
  }

  // ---------------------------------------------------------------- include-once

  lemma {:induction false} StreamFileOnce(s: Source, f: Path, w: set<Path>)
    requires Labelled(s)
    ensures var r := StreamFile(s, false, f, w); r.Ok? ==> EachOnce(s, r.value.text, r.value.written - w)
    decreases s.files.Keys - w, 0, 0
  {
    if f !in w && f in s.files && StreamFile(s, false, f, w).Ok? {
      StreamFromOnce(s, f, 0, [], w + {f});
      TidyKeepsCopies(StreamFrom(s, false, f, 0, [], w + {f}).value.text);
    }
  }

  /** The text holds each own line of `f` from line `k` on and of the files in `files` once. */
  ghost predicate EachOnceFrom(s: Source, text: seq<Line>, f: Path, k: nat, files: set<Path>) {
    forall l :: Copies(text)[l] ==
      if IsOwn(s, l) && (l.value.0 in files || (l.value.0 == f && k <= l.value.1)) then 1 else 0
  }

  lemma {:induction false} OwnLineOnce(s: Source, f: Path, k: nat, rest: seq<Line>, files: set<Path>)
    requires Labelled(s) && f in s.files && k < |s.files[f]| && s.files[f][k].Own?
    requires EachOnceFrom(s, rest, f, k + 1, files) && f !in files
    ensures EachOnceFrom(s, [s.files[f][k]] + rest, f, k, files)
  {
    CopiesAdd([s.files[f][k]], rest);
    assert Labels([s.files[f][k]]) == [Some((f, k))];
  }

  lemma {:induction false} IncludedOnce(s: Source, f: Path, k: nat, a: seq<Line>, b: seq<Line>,
                                        w: set<Path>, w1: set<Path>, w2: set<Path>)
    requires f in s.files && k < |s.files[f]| && s.files[f][k].Inc? && f in w && w <= w1 <= w2
    requires EachOnce(s, a, w1 - w) && EachOnceFrom(s, b, f, k + 1, w2 - w1)
    ensures EachOnceFrom(s, a + b, f, k, w2 - w)
  {
    CopiesAdd(a, b);
  }

  lemma {:induction false} StreamFromOnce(s: Source, f: Path, k: nat, memo: Memo, w: set<Path>)
    requires Labelled(s) && f in s.files && k <= |s.files[f]| && f in w
    ensures var r := StreamFrom(s, false, f, k, memo, w);
            r.Ok? ==> EachOnceFrom(s, r.value.text, f, k, r.value.written - w)
    decreases s.files.Keys - w, 1, |s.files[f]| - k
  {
    if k < |s.files[f]| && StreamFrom(s, false, f, k, memo, w).Ok? {
      match s.files[f][k]
      case Own(_, _, _) =>
        StreamFromOnce(s, f, k + 1, memo, w);
        OwnLineOnce(s, f, k, StreamFrom(s, false, f, k + 1, memo, w).value.text,
                    StreamFrom(s, false, f, k + 1, memo, w).value.written - w);
      case Inc(i) =>
        if Lookup(memo, i).Some? {
          StreamFromOnce(s, f, k + 1, memo, w);
          PrependNothing(StreamFrom(s, false, f, k + 1, memo, w));
        } else {
          var p := Resolve(s, i).value;
          var o := StreamFile(s, false, p, w).value;
          StreamFileOnce(s, p, w);
          StreamFromOnce(s, f, k + 1, memo + [(i, o.text)], o.written);
          var rest := StreamFrom(s, false, f, k + 1, memo + [(i, o.text)], o.written).value;
          IncludedOnce(s, f, k, o.text, rest.text, w, o.written, rest.written);
        }
    }
  }

  lemma {:induction false} StreamProgramOnce(s: Source, mains: seq<Path>)
    requires Labelled(s) && StreamProgram(s, false, mains).Ok?
    ensures var o := StreamProgram(s, false, mains).value; EachOnce(s, o.text, o.written)
  {
    if mains != [] {
      var init, last := mains[..|mains| - 1], mains[|mains| - 1];
      StreamProgramOnce(s, init);
      var o := StreamProgram(s, false, init).value;
      StreamFileOnce(s, last, o.written);
      CopiesAdd(o.text, StreamFile(s, false, last, o.written).value.text);
    }
  }

  /** In the order of reading: a statement that comes again in a file, as it is or with blanks
      in front, stood for nothing the first time. */
  ghost predicate CleanFile(s: Source, f: Path, w: set<Path>)
    decreases s.files.Keys - w, 0, 0
  {
    f !in w && f in s.files ==> CleanFrom(s, f, 0, [], w + {f})
  }

  ghost predicate CleanFrom(s: Source, f: Path, k: nat, memo: Memo, w: set<Path>)
    requires f in s.files && k <= |s.files[f]|
    decreases s.files.Keys - w, 1, |s.files[f]| - k
  {
    k < |s.files[f]| ==>
      match s.files[f][k]
      case Own(_, _, _) => CleanFrom(s, f, k + 1, memo, w)
      case Inc(i) =>
        match Lookup(memo, i)
        case Some(text) => text == [] && CleanFrom(s, f, k + 1, memo, w)
        case None =>
          Resolve(s, i).Some? ==>
            var r := StreamFile(s, false, Resolve(s, i).value, w);
            && CleanFile(s, Resolve(s, i).value, w)
            && (r.Ok? ==> CleanFrom(s, f, k + 1, memo + [(i, r.value.text)], r.value.written))
  }

  ghost predicate CleanProgram(s: Source, mains: seq<Path>) {
    mains != [] ==>
      var before := StreamProgram(s, false, mains[..|mains| - 1]);
      && CleanProgram(s, mains[..|mains| - 1])
      && (before.Ok? ==> CleanFile(s, mains[|mains| - 1], before.value.written))
  }

  /** The first text is at least as long as the second; if it is no longer, it is the second,
      and `clean`; and if `clean`, and what went before was the `same`, it is the second. The
      rest of the two results is the same. */
  ghost predicate Longer(a: Result<Out, string>, b: Result<Out, string>, clean: bool, same: bool) {
    && SameOutcome(a, b)
    && (a.Ok? ==>
          && |a.value.text| >= |b.value.text|
          && (|a.value.text| == |b.value.text| ==> clean && a.value.text == b.value.text)
          && (clean && same ==> a.value.text == b.value.text))
  }

  predicate LongerMemo(a: Memo, b: Memo) {
    |a| == |b| && forall k :: 0 <= k < |a| ==> a[k].0 == b[k].0 && |a[k].1| >= |b[k].1|
  }

  lemma {:induction false} LongerLookup(a: Memo, b: Memo, i: Include)
    requires LongerMemo(a, b)
    ensures Lookup(a, i).Some? <==> Lookup(b, i).Some?
    ensures Lookup(a, i).Some? ==> |Lookup(a, i).value| >= |Lookup(b, i).value|
  {
    if a != [] {
      LongerLookup(a[1..], b[1..], i);
    }
  }

  lemma {:induction false} StreamFileLonger(s: Source, f: Path, w: set<Path>)
    ensures Longer(StreamFile(s, true, f, w), StreamFile(s, false, f, w), CleanFile(s, f, w), true)
    decreases s.files.Keys - w, 0, 0
  {
    if f !in w && f in s.files {
      StreamFromLonger(s, f, 0, [], [], w + {f});
    }
  }

  lemma {:induction false} StreamFromLonger(s: Source, f: Path, k: nat, memo: Memo, once: Memo, w: set<Path>)
    requires f in s.files && k <= |s.files[f]| && LongerMemo(memo, once)
    ensures Longer(StreamFrom(s, true, f, k, memo, w), StreamFrom(s, false, f, k, once, w),
                   CleanFrom(s, f, k, once, w), memo == once)
    decreases s.files.Keys - w, 1, |s.files[f]| - k
  {
    if k < |s.files[f]| {
      match s.files[f][k]
      case Own(_, _, _) => StreamFromLonger(s, f, k + 1, memo, once, w);
      case Inc(i) =>
        LongerLookup(memo, once, i);
        if Lookup(memo, i).Some? {
          StreamFromLonger(s, f, k + 1, memo, once, w);
        } else if Resolve(s, i).Some? {
          var p := Resolve(s, i).value;
          var a, b := StreamFile(s, true, p, w), StreamFile(s, false, p, w);
          StreamFileLonger(s, p, w);
          if b.Ok? {
            StreamFromLonger(s, f, k + 1, memo + [(i, a.value.text)], once + [(i, b.value.text)], b.value.written);
          }
        }
    }
  }

  lemma {:induction false} StreamProgramLonger(s: Source, mains: seq<Path>)
    ensures Longer(StreamProgram(s, true, mains), StreamProgram(s, false, mains), CleanProgram(s, mains), true)
  {
    if mains != [] {
      var init, last := mains[..|mains| - 1], mains[|mains| - 1];
      StreamProgramLonger(s, init);
      if StreamProgram(s, false, init).Ok? {
        StreamFileLonger(s, last, StreamProgram(s, false, init).value.written);
      }
    }
  }

  // ---------------------------------------------------------------- the program and the streams

  ghost predicate SparesProgram(s: Source, strict: bool, mains: seq<Path>) {
    mains != [] ==>
      var before := Program(s, mains[..|mains| - 1]);
      && SparesProgram(s, strict, mains[..|mains| - 1])
      && (before.Ok? ==> SparesFile(s, strict, mains[|mains| - 1], before.value.written))
  }

  /** The whole program against the line-by-line reading. */
  lemma {:induction false} ProgramIsStream(s: Source, strict: bool, mains: seq<Path>)
    requires SparesProgram(s, strict, mains)
    ensures var a, b := Program(s, mains), StreamProgram(s, true, mains);
            SameOutcome(a, b) && (a.Ok? ==> Alike(strict, a.value.text, b.value.text))
  {
    if mains != [] {
      var init, last := mains[..|mains| - 1], mains[|mains| - 1];
      ProgramIsStream(s, strict, init);
      if Program(s, init).Ok? {
        ExpandIsStream(s, strict, last, Program(s, init).value.written);
      }
    }
  }

  lemma {:induction false} SingleSpares(s: Source, f: Path, w: set<Path>)
    requires SingleFile(s, f, w)
    ensures SparesFile(s, false, f, w)
    decreases s.files.Keys - w, 0
  {
    if f !in w && f in s.files && Targets(s, Statements(s.files[f])).Ok? {
      var incs := Statements(s.files[f]);
      SingleSparesAll(s, s.files[f], incs, Targets(s, incs).value, w + {f});
    }
  }

  lemma {:induction false} SingleSparesAll(s: Source, text: seq<Line>, incs: seq<Include>, ps: seq<Path>, w: set<Path>)
    requires |incs| == |ps| && SingleAll(s, text, incs, ps, w)
    ensures SparesAll(s, false, text, incs, ps, w)
    decreases s.files.Keys - w, 1, |incs|
  {
    if incs != [] {
      SingleSpares(s, ps[0], w);
      if ExpandFile(s, ps[0], w).Ok? {
        var o := ExpandFile(s, ps[0], w).value;
        SingleSparesAll(s, StrReplace(text, incs[0], o.text), incs[1..], ps[1..], o.written);
      }
    }
  }

  lemma {:induction false} SingleProgramSpares(s: Source, mains: seq<Path>)
    requires SingleProgram(s, mains)
    ensures SparesProgram(s, false, mains)
  {
    if mains != [] {
      var init, last := mains[..|mains| - 1], mains[|mains| - 1];
      SingleProgramSpares(s, init);
      if Program(s, init).Ok? {
        SingleSpares(s, last, Program(s, init).value.written);
      }
    }
  }

  lemma {:induction false} AlikeLabels(strict: bool, a: seq<Line>, b: seq<Line>)
    requires Alike(strict, a, b)
    ensures Labels(a) == Labels(b)
  {
    forall k | 0 <= k < |a| ensures Labels(a)[k] == Labels(b)[k] {
      assert AlikeLine(strict, a[k], b[k]);
    }
  }

  /** The header has the lines, in the order, of a preprocessor that goes into each file
      once, if and only if no text was put in more than one place. */
  lemma {:induction false} HeaderIsIncludeOnce(s: Source, mains: seq<Path>)
    requires Labelled(s) && Program(s, mains).Ok?
    ensures var b := StreamProgram(s, false, mains);
            b.Ok? && b.value.written == Program(s, mains).value.written
            && (Labels(Program(s, mains).value.text) == Labels(b.value.text) <==> SingleProgram(s, mains))
  {
    ProgramReadsTheSame(s, false, mains);
    StreamProgramOnce(s, mains);
    EachLineOnce(s, mains);
    var o, b := Program(s, mains).value, StreamProgram(s, false, mains).value;
    if SingleProgram(s, mains) {
      SingleProgramSpares(s, mains);
      ProgramIsStream(s, false, mains);
      StreamProgramLonger(s, mains);
      AlikeLabels(false, o.text, StreamProgram(s, true, mains).value.text);
      SameCopies(s, o.text, b.text, o.written);
    }
  }

  /** Where no text is put inside an own line the condition can be read off the sources in
      the order of reading: each line comes once, if and only if a statement that comes again
      in a file stood for nothing the first time. */
  lemma {:induction false} EachLineOnceWhenSpared(s: Source, strict: bool, mains: seq<Path>)
    requires Labelled(s) && Program(s, mains).Ok? && SparesProgram(s, strict, mains)
    ensures var o := Program(s, mains).value; EachOnce(s, o.text, o.written) <==> CleanProgram(s, mains)
  {
    ProgramReadsTheSame(s, false, mains);
    ProgramIsStream(s, strict, mains);
    StreamProgramOnce(s, mains);
    StreamProgramLonger(s, mains);
    var o, b := Program(s, mains).value, StreamProgram(s, false, mains).value;
    AlikeLabels(strict, o.text, StreamProgram(s, true, mains).value.text);
    if EachOnce(s, o.text, o.written) {
      SameCopies(s, o.text, b.text, o.written);
    }
  }

  lemma {:induction false} SameCopies(s: Source, a: seq<Line>, b: seq<Line>, files: set<Path>)
    requires EachOnce(s, a, files) && EachOnce(s, b, files)
    ensures |a| == |b|
  {
    assert Copies(a) == Copies(b);
    assert |a| == |Copies(a)| && |b| == |Copies(b)|;
  }
}
