/** In which order the amalgamated header holds its lines. */
module IncludeOrder {
  import opened Amalgamator
  import opened ExactlyOnce
  import opened IncludeGraph
  import opened IncludeOnce
  import opened Wrappers

  /** No file includes itself, not over other files either. */
  ghost predicate Acyclic(s: Source) {
    forall f, g :: Edge(s, f, g) ==> !Reaches(s, g, f)
  }

  /** Line `m` of `f` stands after an include statement that brings in `g`, itself or over
      other files. */
  ghost predicate Needs(s: Source, f: Path, m: nat, g: Path) {
    f in s.files && exists k :: 0 <= k < m && k < |s.files[f]| && Brings(s, f, k, g)
  }

  ghost predicate Brings(s: Source, f: Path, k: nat, g: Path)
    requires f in s.files && k < |s.files[f]|
  {
    s.files[f][k].Inc? && Resolve(s, s.files[f][k].inc).Some? && Reaches(s, Resolve(s, s.files[f][k].inc).value, g)
  }

  ghost predicate NeedsLine(s: Source, x: Line, y: Line) {
    x.Own? && y.Own? && Needs(s, x.origin, x.index, y.origin)
  }

  /** A line that needs a file stands after all lines of that file, all copies of them. */
  ghost predicate Ordered(s: Source, text: seq<Line>) {
    forall p, q :: 0 <= p <= q < |text| ==> !NeedsLine(s, text[p], text[q])
  }

  predicate Above(text: seq<Line>, p: nat, l: Label)
    requires p <= |text|
  {
    exists r :: 0 <= r < p && LabelOf(text[r]) == l
  }

  /** Where a line that needs a file stands, each line of that file has a copy above, or is
      in `pre`; so first copies are in order. */
  ghost predicate FirstOrdered(s: Source, pre: set<Label>, text: seq<Line>) {
    forall p, q :: 0 <= p <= q < |text| && NeedsLine(s, text[p], text[q]) ==>
      LabelOf(text[q]) in pre || Above(text, p, LabelOf(text[q]))
  }

  function LabelSet(text: seq<Line>): set<Label> {
    set x | x in text :: LabelOf(x)
  }

  lemma {:induction false} OrderedMore(s: Source, pre: set<Label>, more: set<Label>, text: seq<Line>)
    requires FirstOrdered(s, pre, text) && pre <= more
    ensures FirstOrdered(s, more, text)
  {
  }

  /** What a line of `a` needs of `b` is in `pre`, or in `a` as well. */
  ghost predicate Joins(s: Source, pre: set<Label>, a: seq<Line>, b: seq<Line>) {
    forall x, y :: x in a && y in b && NeedsLine(s, x, y) ==> LabelOf(y) in pre + LabelSet(a)
  }

  lemma {:induction false} OrderedAdd(s: Source, pre: set<Label>, a: seq<Line>, b: seq<Line>)
    requires FirstOrdered(s, pre, a) && FirstOrdered(s, pre + LabelSet(a), b) && Joins(s, pre, a, b)
    ensures FirstOrdered(s, pre, a + b)
  {
    forall p, q | 0 <= p <= q < |a + b| && NeedsLine(s, (a + b)[p], (a + b)[q])
      ensures LabelOf((a + b)[q]) in pre || Above(a + b, p, LabelOf((a + b)[q]))
    {
      if q < |a| {
        AboveAdd(a, b, p, LabelOf(a[q]));
      } else {
        var l := LabelOf(b[q - |a|]);
        if |a| <= p && Above(b, p - |a|, l) {
          var r :| 0 <= r < p - |a| && LabelOf(b[r]) == l;
          assert LabelOf((a + b)[|a| + r]) == l;
        } else if l in LabelSet(a) && l !in pre {
          var r :| 0 <= r < |a| && LabelOf(a[r]) == l;
          assert LabelOf((a + b)[r]) == l;
          if p <= r {
            assert NeedsLine(s, a[p], a[r]);
            AboveAdd(a, b, p, l);
          }
        } else if p < |a| {
          assert a[p] in a && b[q - |a|] in b;
        }
      }
    }
  }

  lemma {:induction false} AboveAdd(a: seq<Line>, b: seq<Line>, p: nat, l: Label)
    requires p <= |a|
    ensures Above(a, p, l) ==> Above(a + b, p, l)
  {
    if Above(a, p, l) {
      var r :| 0 <= r < p && LabelOf(a[r]) == l;
      assert LabelOf((a + b)[r]) == l;
    }
  }

  /** Order depends on where lines come from only. */
  lemma {:induction false} AlikeOrdered(s: Source, strict: bool, pre: set<Label>, a: seq<Line>, b: seq<Line>)
    requires Alike(strict, a, b) && FirstOrdered(s, pre, b)
    ensures FirstOrdered(s, pre, a)
  {
    forall p, q | 0 <= p <= q < |a| && NeedsLine(s, a[p], a[q])
      ensures LabelOf(a[q]) in pre || Above(a, p, LabelOf(a[q]))
    {
      assert AlikeLine(strict, a[p], b[p]) && AlikeLine(strict, a[q], b[q]);
      assert NeedsLine(s, b[p], b[q]);
      if Above(b, p, LabelOf(b[q])) {
        var r :| 0 <= r < p && LabelOf(b[r]) == LabelOf(b[q]);
        assert AlikeLine(strict, a[r], b[r]);
        assert LabelOf(a[r]) == LabelOf(a[q]);
      }
    }
  }

  lemma {:induction false} TidyAlikeItself(text: seq<Line>)
    ensures Alike(false, Tidy(text), text) && LabelSet(Tidy(text)) == LabelSet(text)
  {
    forall l ensures l in LabelSet(Tidy(text)) <==> l in LabelSet(text) {
      if l in LabelSet(Tidy(text)) {
        var k :| 0 <= k < |text| && LabelOf(Tidy(text)[k]) == l;
        assert LabelOf(text[k]) == l;
      }
      if l in LabelSet(text) {
        var k :| 0 <= k < |text| && LabelOf(text[k]) == l;
        assert Tidy(text)[k] in Tidy(text) && LabelOf(Tidy(text)[k]) == l;
      }
    }
  }

  // ---------------------------------------------------------------- reaching

  lemma {:induction false} ReachOneMore(s: Source, f: Path, g: Path, h: Path, n: nat)
    requires ReachesIn(s, f, g, n) && Edge(s, g, h)
    ensures Reaches(s, f, h)
    decreases n
  {
    if n == 0 {
      assert ReachesIn(s, h, h, 0);
      assert ReachesIn(s, f, h, 1);
    } else {
      var x :| Edge(s, f, x) && ReachesIn(s, x, g, n - 1);
      ReachOneMore(s, x, g, h, n - 1);
      ReachStep(s, f, x, h);
    }
  }

  /** Every file still being read leads to `f`. */
  ghost predicate AllReach(s: Source, open: set<Path>, f: Path) {
    forall o :: o in open ==> Reaches(s, o, f)
  }

  lemma {:induction false} AllReachOneMore(s: Source, open: set<Path>, f: Path, g: Path)
    requires AllReach(s, open, f) && Edge(s, f, g)
    ensures AllReach(s, open, g)
  {
    forall o | o in open ensures Reaches(s, o, g) {
      var n: nat :| ReachesIn(s, o, f, n);
      ReachOneMore(s, o, f, g, n);
    }
  }

  lemma {:induction false} AllReachMore(s: Source, open: set<Path>, f: Path, g: Path, n: nat)
    requires AllReach(s, open, f) && ReachesIn(s, f, g, n)
    ensures AllReach(s, open, g)
    decreases n
  {
    if n > 0 {
      var x :| Edge(s, f, x) && ReachesIn(s, x, g, n - 1);
      AllReachOneMore(s, open, f, x);
      AllReachMore(s, open, x, g, n - 1);
    }
  }

  /** While `f` is read: what was read is closed but for the files still open, which lead
      to `f`. */
  ghost predicate Reading(s: Source, open: set<Path>, w: set<Path>, f: Path) {
    open <= w && Closed(s, open, w) && AllReach(s, open, f)
  }

  /** What a file that has been read brings in has been read as well. */
  lemma {:induction false} ReadHoldsReachable(s: Source, open: set<Path>, w: set<Path>, f: Path, g: Path, n: nat)
    requires Acyclic(s) && Reading(s, open, w, f)
    requires f in w && f !in open && ReachesIn(s, f, g, n)
    ensures g in w && g !in open
    decreases n
  {
    if n > 0 {
      var x :| Edge(s, f, x) && ReachesIn(s, x, g, n - 1);
      AllReachOneMore(s, open, f, x);
      ReadHoldsReachable(s, open, w, x, g, n - 1);
    }
  }

  // ---------------------------------------------------------------- where the lines come from

  function MemoLabels(memo: Memo): set<Label> {
    if memo == [] then {} else MemoLabels(memo[..|memo| - 1]) + LabelSet(memo[|memo| - 1].1)
  }

  lemma {:induction false} MemoSnoc(memo: Memo, i: Include, text: seq<Line>)
    ensures MemoLabels(memo + [(i, text)]) == MemoLabels(memo) + LabelSet(text)
  {
    assert (memo + [(i, text)])[..|memo|] == memo;
  }

  lemma {:induction false} LookupLabels(memo: Memo, i: Include)
    requires Lookup(memo, i).Some?
    ensures LabelSet(Lookup(memo, i).value) <= MemoLabels(memo)
  {
    LookupIn(memo, i);
    var k :| 0 <= k < |memo| && memo[k].1 == Lookup(memo, i).value;
    MemoHas(memo, k);
  }

  lemma {:induction false} MemoHas(memo: Memo, k: nat)
    requires k < |memo|
    ensures LabelSet(memo[k].1) <= MemoLabels(memo)
  {
    if k < |memo| - 1 {
      MemoHas(memo[..|memo| - 1], k);
    }
  }

  predicate From(l: Label, files: set<Path>) { l.Some? && l.value.0 in files }

  lemma {:induction false} LinesFile(s: Source, f: Path, w: set<Path>)
    requires Labelled(s) && StreamFile(s, true, f, w).Ok?
    ensures var o := StreamFile(s, true, f, w).value; forall l :: l in LabelSet(o.text) ==> From(l, o.written - w)
    decreases s.files.Keys - w, 0, 0
  {
    if f !in w && f in s.files {
      LinesFrom(s, f, 0, [], w + {f});
      TidyAlikeItself(StreamFrom(s, true, f, 0, [], w + {f}).value.text);
    }
  }

  lemma {:induction false} LinesFrom(s: Source, f: Path, k: nat, memo: Memo, w: set<Path>)
    requires Labelled(s) && f in s.files && k <= |s.files[f]| && f in w && StreamFrom(s, true, f, k, memo, w).Ok?
    ensures var o := StreamFrom(s, true, f, k, memo, w).value;
            forall l :: l in LabelSet(o.text) ==> l in MemoLabels(memo) || From(l, {f} + (o.written - w))
    decreases s.files.Keys - w, 1, |s.files[f]| - k
  {
    hide Labelled, LabelSet, Lookup, MemoLabels;
    LabelSetOne(s, f, k);
    if k < |s.files[f]| {
      match s.files[f][k]
      case Own(_, _, _) =>
        LinesFrom(s, f, k + 1, memo, w);
        LabelSetAdd([s.files[f][k]], StreamFrom(s, true, f, k + 1, memo, w).value.text);
      case Inc(i) =>
        if Lookup(memo, i).Some? {
          LinesFrom(s, f, k + 1, memo, w);
          LookupLabels(memo, i);
          LabelSetAdd(Lookup(memo, i).value, StreamFrom(s, true, f, k + 1, memo, w).value.text);
        } else {
          var p := Resolve(s, i).value;
          var o := StreamFile(s, true, p, w).value;
          LinesFile(s, p, w);
          MemoSnoc(memo, i, o.text);
          LinesFrom(s, f, k + 1, memo + [(i, o.text)], o.written);
          LabelSetAdd(o.text, StreamFrom(s, true, f, k + 1, memo + [(i, o.text)], o.written).value.text);
        }
    }
  }

  lemma {:induction false} LabelSetOne(s: Source, f: Path, k: nat)
    requires Labelled(s) && f in s.files
    ensures LabelSet([]) == {}
    ensures k < |s.files[f]| && s.files[f][k].Own? ==> LabelSet([s.files[f][k]]) == {Some((f, k))}
  {
    if k < |s.files[f]| {
      var x := s.files[f][k];
      assert x in [x] && forall y :: y in [x] ==> y == x;
    }
  }

  lemma {:induction false} LabelSetAdd(a: seq<Line>, b: seq<Line>)
    ensures LabelSet(a + b) == LabelSet(a) + LabelSet(b)
  {
  }

  lemma {:induction false} LinesProgram(s: Source, mains: seq<Path>)
    requires Labelled(s) && StreamProgram(s, true, mains).Ok?
    ensures var o := StreamProgram(s, true, mains).value; forall l :: l in LabelSet(o.text) ==> From(l, o.written)
  {
    if mains != [] {
      var init, last := mains[..|mains| - 1], mains[|mains| - 1];
      LinesProgram(s, init);
      var o := StreamProgram(s, true, init).value;
      var more := StreamFile(s, true, last, o.written).value;
      LinesFile(s, last, o.written);
      LabelSetAdd(o.text, more.text);
    }
  }

  // ---------------------------------------------------------------- first copies

  lemma {:induction false} Wider(s: Source, open: set<Path>, w: set<Path>, open': set<Path>, w': set<Path>)
    requires Closed(s, open, w) && open <= open' && w <= w' && Closed(s, w + open', w')
    ensures Closed(s, open', w')
  {
  }

  lemma {:induction false} NeededIsReached(s: Source, x: Line, y: Line)
    requires NeedsLine(s, x, y)
    ensures Reaches(s, x.origin, y.origin)
  {
    var f := x.origin;
    var j :| 0 <= j < x.index && j < |s.files[f]| && Brings(s, f, j, y.origin);
    var h := Resolve(s, s.files[f][j].inc).value;
    assert LeadsTo(s, f, j, h);
    ReachStep(s, f, h, y.origin);
  }

  /** A line of a file that has been read needs only files that have been read. */
  lemma {:induction false} ReadNeeds(s: Source, open: set<Path>, w: set<Path>, x: Line, y: Line)
    requires Acyclic(s) && NeedsLine(s, x, y) && Reading(s, open, w, x.origin) && x.origin in w - open
    ensures y.origin in w - open
  {
    NeededIsReached(s, x, y);
    var n: nat :| ReachesIn(s, x.origin, y.origin, n);
    ReadHoldsReachable(s, open, w, x.origin, y.origin, n);
  }

  /** An own line of a file being read needs only files that have been read. */
  lemma {:induction false} OwnNeeds(s: Source, open: set<Path>, f: Path, k: nat, w: set<Path>, y: Line)
    requires Labelled(s) && Acyclic(s) && Reading(s, open, w, f) && f in open
    requires f in s.files && k < |s.files[f]| && Behind(s, f, k, w)
    requires s.files[f][k].Own? && NeedsLine(s, s.files[f][k], y)
    ensures y.origin in w - open
  {
    var j :| 0 <= j < k && Brings(s, f, j, y.origin);
    var h := Resolve(s, s.files[f][j].inc).value;
    assert LeadsTo(s, f, j, h);
    AllReachOneMore(s, open, f, h);
    var n: nat :| ReachesIn(s, h, y.origin, n);
    ReadHoldsReachable(s, open, w, h, y.origin, n);
  }

  /** These lines come from files that have been read, each led to by all files still open. */
  ghost predicate AllRead(s: Source, open: set<Path>, w: set<Path>, ls: set<Label>) {
    forall l :: l in ls ==> From(l, w - open) && AllReach(s, open, l.value.0)
  }

  lemma {:induction false} IncludedAreRead(s: Source, open: set<Path>, p: Path, w: set<Path>)
    requires Labelled(s) && open <= w && AllReach(s, open, p) && StreamFile(s, true, p, w).Ok?
    ensures var o := StreamFile(s, true, p, w).value; AllRead(s, open, o.written, LabelSet(o.text))
  {
    var o := StreamFile(s, true, p, w).value;
    LinesFile(s, p, w);
    FileReaches(s, true, p, w);
    forall l | l in LabelSet(o.text) ensures From(l, o.written - open) && AllReach(s, open, l.value.0) {
      var n: nat :| ReachesIn(s, p, l.value.0, n);
      AllReachMore(s, open, p, l.value.0, n);
    }
  }

  lemma {:induction false} OrderFile(s: Source, open: set<Path>, f: Path, w: set<Path>)
    requires Labelled(s) && Acyclic(s) && Reading(s, open, w, f)
    ensures var r := StreamFile(s, true, f, w); r.Ok? ==> FirstOrdered(s, {}, r.value.text)
    decreases s.files.Keys - w, 0, 0
  {
    if f !in w && f in s.files && StreamFile(s, true, f, w).Ok? {
      assert ReachesIn(s, f, f, 0);
      Wider(s, open, w, open + {f}, w + {f});
      OrderFrom(s, open + {f}, f, 0, [], w + {f});
      var text := StreamFrom(s, true, f, 0, [], w + {f}).value.text;
      TidyAlikeItself(text);
      AlikeOrdered(s, false, {}, Tidy(text), text);
    }
  }

  /** Before line `k` of `f` is read. */
  ghost predicate Halfway(s: Source, open: set<Path>, f: Path, k: nat, memo: Memo, w: set<Path>) {
    && Labelled(s) && Acyclic(s) && Reading(s, open, w, f) && f in open
    && f in s.files && k <= |s.files[f]| && Behind(s, f, k, w) && MemoBehind(s, memo, w)
    && AllRead(s, open, w, MemoLabels(memo))
  }

  lemma {:induction false} OrderFrom(s: Source, open: set<Path>, f: Path, k: nat, memo: Memo, w: set<Path>)
    requires Halfway(s, open, f, k, memo, w)
    ensures var r := StreamFrom(s, true, f, k, memo, w);
            r.Ok? ==> FirstOrdered(s, MemoLabels(memo), r.value.text)
    decreases s.files.Keys - w, 1, |s.files[f]| - k, 1
  {
    if k < |s.files[f]| && StreamFrom(s, true, f, k, memo, w).Ok? {
      if s.files[f][k].Own? || Lookup(memo, s.files[f][k].inc).Some? {
        OrderMet(s, open, f, k, memo, w);
      } else {
        OrderNew(s, open, f, k, memo, w);
      }
    }
  }

  /** An own line, or a statement already met. */
  lemma {:induction false} OrderMet(s: Source, open: set<Path>, f: Path, k: nat, memo: Memo, w: set<Path>)
    requires Halfway(s, open, f, k, memo, w) && k < |s.files[f]| && StreamFrom(s, true, f, k, memo, w).Ok?
    requires s.files[f][k].Own? || Lookup(memo, s.files[f][k].inc).Some?
    ensures FirstOrdered(s, MemoLabels(memo), StreamFrom(s, true, f, k, memo, w).value.text)
    decreases s.files.Keys - w, 1, |s.files[f]| - k, 0
  {
    var x := s.files[f][k];
    var c := if x.Own? then [x] else Lookup(memo, x.inc).value;
    assert StreamFrom(s, true, f, k, memo, w) == Prepend(c, StreamFrom(s, true, f, k + 1, memo, w));
    if x.Inc? {
      LookupIn(memo, x.inc);
    }
    assert Halfway(s, open, f, k + 1, memo, w);
    hide Halfway, StreamFrom, Labelled, Acyclic, Reading, Behind, MemoBehind, AllRead, Lookup, FirstOrdered;
    OrderFrom(s, open, f, k + 1, memo, w);
    if x.Own? {
      OwnLine(s, open, f, k, memo, w);
    } else {
      RepeatedText(s, open, f, k, memo, w, x.inc);
    }
  }

  /** A statement met for the first time. */
  lemma {:induction false} OrderNew(s: Source, open: set<Path>, f: Path, k: nat, memo: Memo, w: set<Path>)
    requires Halfway(s, open, f, k, memo, w) && k < |s.files[f]| && StreamFrom(s, true, f, k, memo, w).Ok?
    requires s.files[f][k].Inc? && Lookup(memo, s.files[f][k].inc).None?
    ensures FirstOrdered(s, MemoLabels(memo), StreamFrom(s, true, f, k, memo, w).value.text)
    decreases s.files.Keys - w, 1, |s.files[f]| - k, 0
  {
    var i := s.files[f][k].inc;
    var p := Resolve(s, i).value;
    var o := StreamFile(s, true, p, w).value;
    var memo' := memo + [(i, o.text)];
    assert LeadsTo(s, f, k, p) && f in w;
    assert StreamFrom(s, true, f, k, memo, w) == Prepend(o.text, StreamFrom(s, true, f, k + 1, memo', o.written));
    GoIn(s, open, f, k, memo, w, p);
    assert Halfway(s, open, f, k + 1, memo', o.written);
    assert Labelled(s) && Acyclic(s) && f in open;
    hide Halfway, StreamFrom, StreamFile, Labelled, Acyclic, Reading, Behind, MemoBehind, AllRead, Lookup, FirstOrdered;
    OrderFile(s, open, p, w);
    OrderFrom(s, open, f, k + 1, memo', o.written);
    IncludedText(s, open, f, k, memo, w, p);
  }

  lemma {:induction false} OwnLine(s: Source, open: set<Path>, f: Path, k: nat, memo: Memo, w: set<Path>)
    requires Halfway(s, open, f, k, memo, w) && k < |s.files[f]| && s.files[f][k].Own?
    requires StreamFrom(s, true, f, k + 1, memo, w).Ok?
    requires FirstOrdered(s, MemoLabels(memo), StreamFrom(s, true, f, k + 1, memo, w).value.text)
    ensures FirstOrdered(s, MemoLabels(memo), [s.files[f][k]] + StreamFrom(s, true, f, k + 1, memo, w).value.text)
  {
    var x, rest, pre := s.files[f][k], StreamFrom(s, true, f, k + 1, memo, w).value.text, MemoLabels(memo);
    forall y | NeedsLine(s, x, y) ensures y.origin in w - open {
      OwnNeeds(s, open, f, k, w, y);
    }
    LinesFrom(s, f, k + 1, memo, w);
    forall y | y in rest && NeedsLine(s, x, y) ensures LabelOf(y) in pre {
      assert LabelOf(y) in LabelSet(rest);
    }
    OrderedMore(s, pre, pre + LabelSet([x]), rest);
    OrderedAdd(s, pre, [x], rest);
  }

  lemma {:induction false} RepeatedText(s: Source, open: set<Path>, f: Path, k: nat, memo: Memo, w: set<Path>,
                                        i: Include)
    requires Halfway(s, open, f, k, memo, w) && k < |s.files[f]| && Lookup(memo, i).Some?
    requires StreamFrom(s, true, f, k + 1, memo, w).Ok?
    requires FirstOrdered(s, MemoLabels(memo), StreamFrom(s, true, f, k + 1, memo, w).value.text)
    ensures FirstOrdered(s, MemoLabels(memo),
                         Lookup(memo, i).value + StreamFrom(s, true, f, k + 1, memo, w).value.text)
  {
    var c, rest, pre := Lookup(memo, i).value, StreamFrom(s, true, f, k + 1, memo, w).value.text, MemoLabels(memo);
    LookupLabels(memo, i);
    LinesFrom(s, f, k + 1, memo, w);
    forall x | x in c ensures LabelOf(x) in pre {
      assert LabelOf(x) in LabelSet(c);
    }
    forall x, y | x in c && y in rest && NeedsLine(s, x, y) ensures LabelOf(y) in pre {
      ReadNeeds(s, open, w, x, y);
      assert LabelOf(y) in LabelSet(rest);
    }
    OrderedMore(s, pre, pre + LabelSet(c), rest);
    OrderedAdd(s, pre, c, rest);
  }

  lemma {:induction false} IncludedText(s: Source, open: set<Path>, f: Path, k: nat, memo: Memo, w: set<Path>, p: Path)
    requires Reading(s, open, w, p) && f in s.files && k < |s.files[f]| && LeadsTo(s, f, k, p)
    requires StreamFile(s, true, p, w).Ok? && FirstOrdered(s, {}, StreamFile(s, true, p, w).value.text)
    requires var o := StreamFile(s, true, p, w).value;
             && var memo' := memo + [(s.files[f][k].inc, o.text)];
             && Halfway(s, open, f, k + 1, memo', o.written)
             && StreamFrom(s, true, f, k + 1, memo', o.written).Ok?
             && FirstOrdered(s, MemoLabels(memo'), StreamFrom(s, true, f, k + 1, memo', o.written).value.text)
    ensures var o := StreamFile(s, true, p, w).value;
            FirstOrdered(s, MemoLabels(memo), o.text +
              StreamFrom(s, true, f, k + 1, memo + [(s.files[f][k].inc, o.text)], o.written).value.text)
  {
    var o, pre := StreamFile(s, true, p, w).value, MemoLabels(memo);
    var memo' := memo + [(s.files[f][k].inc, o.text)];
    var rest := StreamFrom(s, true, f, k + 1, memo', o.written).value.text;
    MemoSnoc(memo, s.files[f][k].inc, o.text);
    LinesFrom(s, f, k + 1, memo', o.written);
    IncludedAreRead(s, open, p, w);
    forall x, y | x in o.text && y in rest && NeedsLine(s, x, y) ensures LabelOf(y) in pre + LabelSet(o.text) {
      assert LabelOf(x) in LabelSet(o.text) && LabelOf(y) in LabelSet(rest);
      ReadNeeds(s, open, o.written, x, y);
    }
    OrderedMore(s, {}, pre, o.text);
    OrderedAdd(s, pre, o.text, rest);
  }

  lemma {:induction false} GoIn(s: Source, open: set<Path>, f: Path, k: nat, memo: Memo, w: set<Path>, p: Path)
    requires Halfway(s, open, f, k, memo, w) && k < |s.files[f]| && LeadsTo(s, f, k, p)
    ensures Reading(s, open, w, p)
    ensures var r := StreamFile(s, true, p, w);
            r.Ok? ==> Halfway(s, open, f, k + 1, memo + [(s.files[f][k].inc, r.value.text)], r.value.written)
  {
    AllReachOneMore(s, open, f, p);
    FileCloses(s, true, p, w);
    if StreamFile(s, true, p, w).Ok? {
      var o := StreamFile(s, true, p, w).value;
      Wider(s, open, w, open, o.written);
      IncludedAreRead(s, open, p, w);
      MemoSnoc(memo, s.files[f][k].inc, o.text);
    }
  }

  lemma {:induction false} OrderProgram(s: Source, mains: seq<Path>)
    requires Labelled(s) && Acyclic(s) && StreamProgram(s, true, mains).Ok?
    ensures FirstOrdered(s, {}, StreamProgram(s, true, mains).value.text)
  {
    if mains != [] {
      var init, last := mains[..|mains| - 1], mains[|mains| - 1];
      OrderProgram(s, init);
      ProgramCloses(s, true, init);
      LinesProgram(s, init);
      var o := StreamProgram(s, true, init).value;
      var more := StreamFile(s, true, last, o.written).value;
      LinesFile(s, last, o.written);
      OrderFile(s, {}, last, o.written);
      forall x, y | x in o.text && y in more.text ensures !NeedsLine(s, x, y) {
        assert LabelOf(x) in LabelSet(o.text) && LabelOf(y) in LabelSet(more.text);
        if NeedsLine(s, x, y) {
          ReadNeeds(s, {}, o.written, x, y);
        }
      }
      OrderedMore(s, {}, {} + LabelSet(o.text), more.text);
      OrderedAdd(s, {}, o.text, more.text);
    }
  }

  /** On an acyclic include graph, where no text is put inside an own line, the first copy of
      every line stands after the first copies of all lines of all files brought in above
      it, over all main files; repeated statements do no harm. */
  lemma {:induction false} FirstCopiesAreOrdered(s: Source, strict: bool, mains: seq<Path>)
    requires Labelled(s) && Acyclic(s) && Program(s, mains).Ok? && SparesProgram(s, strict, mains)
    ensures FirstOrdered(s, {}, Program(s, mains).value.text)
  {
    ProgramIsStream(s, strict, mains);
    OrderProgram(s, mains);
    AlikeOrdered(s, strict, {}, Program(s, mains).value.text, StreamProgram(s, true, mains).value.text);
  }

  lemma {:induction false} TwoCopies(text: seq<Line>, r: nat, q: nat)
    requires r < q < |text| && LabelOf(text[r]) == LabelOf(text[q])
    ensures Copies(text)[LabelOf(text[q])] >= 2
  {
    assert text == text[..q] + text[q..];
    CopiesAdd(text[..q], text[q..]);
    assert Labels(text[..q])[r] == LabelOf(text[r]) && Labels(text[q..])[0] == LabelOf(text[q]);
  }

  /** Where moreover no text is put in more than one place, every line stands after all
      lines it needs. */
  lemma {:induction false} HeaderIsOrdered(s: Source, mains: seq<Path>)
    requires Labelled(s) && Acyclic(s) && Program(s, mains).Ok? && SingleProgram(s, mains)
    ensures Ordered(s, Program(s, mains).value.text)
  {
    var text := Program(s, mains).value.text;
    SingleProgramSpares(s, mains);
    FirstCopiesAreOrdered(s, false, mains);
    EachLineOnce(s, mains);
    forall p, q | 0 <= p <= q < |text| ensures !NeedsLine(s, text[p], text[q]) {
      if Above(text, p, LabelOf(text[q])) {
        var r :| 0 <= r < p && LabelOf(text[r]) == LabelOf(text[q]);
        TwoCopies(text, r, q);
      }
    }
  }
}
