/** Which files the amalgamated header holds. */
module IncludeGraph {
  import opened Amalgamator
  import opened IncludeOnce
  import opened Wrappers

  // ---------------------------------------------------------------- every reachable file, and no other

  /** File `f` has an include statement that leads to `g`. */
  ghost predicate Edge(s: Source, f: Path, g: Path) {
    f in s.files && exists k :: 0 <= k < |s.files[f]| && LeadsTo(s, f, k, g)
  }

  ghost predicate LeadsTo(s: Source, f: Path, k: nat, g: Path)
    requires f in s.files && k < |s.files[f]|
  {
    s.files[f][k].Inc? && Resolve(s, s.files[f][k].inc) == Some(g)
  }

  ghost predicate ReachesIn(s: Source, f: Path, g: Path, n: nat)
    decreases n
  {
    if n == 0 then f == g else exists h :: Edge(s, f, h) && ReachesIn(s, h, g, n - 1)
  }

  ghost predicate Reaches(s: Source, f: Path, g: Path) {
    exists n: nat :: ReachesIn(s, f, g, n)
  }

  /** The includes of `f` before line `k` lead to files already in `w`. */
  ghost predicate Behind(s: Source, f: Path, k: nat, w: set<Path>)
    requires f in s.files && k <= |s.files[f]|
  {
    forall j :: 0 <= j < k && s.files[f][j].Inc? ==>
      Resolve(s, s.files[f][j].inc).Some? && Resolve(s, s.files[f][j].inc).value in w
  }

  /** The files in `w` but not in `old` have all their includes in `w`. */
  ghost predicate Closed(s: Source, before: set<Path>, w: set<Path>) {
    forall f :: f in w && f !in before && f in s.files ==> Behind(s, f, |s.files[f]|, w)
  }

  lemma {:induction false} FileCloses(s: Source, again: bool, f: Path, w: set<Path>)
    ensures StreamFile(s, again, f, w).Ok? ==> Closed(s, w, StreamFile(s, again, f, w).value.written)
    decreases s.files.Keys - w, 0, 0
  {
    if f !in w && f in s.files && StreamFile(s, again, f, w).Ok? {
      FromCloses(s, again, f, 0, [], w + {f});
    }
  }

  ghost predicate MemoBehind(s: Source, memo: Memo, w: set<Path>) {
    forall k :: 0 <= k < |memo| ==> Resolve(s, memo[k].0).Some? && Resolve(s, memo[k].0).value in w
  }

  lemma {:induction false} FromCloses(s: Source, again: bool, f: Path, k: nat, memo: Memo, w: set<Path>)
    requires f in s.files && k <= |s.files[f]| && Behind(s, f, k, w) && MemoBehind(s, memo, w)
    ensures var r := StreamFrom(s, again, f, k, memo, w);
            r.Ok? ==> Closed(s, w, r.value.written) && Behind(s, f, |s.files[f]|, r.value.written)
    decreases s.files.Keys - w, 1, |s.files[f]| - k
  {
    if k < |s.files[f]| && StreamFrom(s, again, f, k, memo, w).Ok? {
      match s.files[f][k]
      case Own(_, _, _) => FromCloses(s, again, f, k + 1, memo, w);
      case Inc(i) =>
        LookupIn(memo, i);
        if Lookup(memo, i).Some? {
          FromCloses(s, again, f, k + 1, memo, w);
        } else {
          var p := Resolve(s, i).value;
          var o := StreamFile(s, again, p, w).value;
          FileCloses(s, again, p, w);
          FromCloses(s, again, f, k + 1, memo + [(i, o.text)], o.written);
        }
    }
  }

  lemma {:induction false} ReachStep(s: Source, f: Path, h: Path, g: Path)
    requires Edge(s, f, h) && Reaches(s, h, g)
    ensures Reaches(s, f, g)
  {
    var n: nat :| ReachesIn(s, h, g, n);
    assert ReachesIn(s, f, g, n + 1);
  }

  lemma {:induction false} FileReaches(s: Source, again: bool, f: Path, w: set<Path>)
    ensures var r := StreamFile(s, again, f, w);
            r.Ok? ==> forall g :: g in r.value.written && g !in w ==> Reaches(s, f, g)
    decreases s.files.Keys - w, 0, 0
  {
    assert ReachesIn(s, f, f, 0);
    if f !in w && f in s.files && StreamFile(s, again, f, w).Ok? {
      FromReaches(s, again, f, 0, [], w + {f});
    }
  }

  lemma {:induction false} FromReaches(s: Source, again: bool, f: Path, k: nat, memo: Memo, w: set<Path>)
    requires f in s.files && k <= |s.files[f]|
    ensures var r := StreamFrom(s, again, f, k, memo, w);
            r.Ok? ==> forall g :: g in r.value.written && g !in w ==> Reaches(s, f, g)
    decreases s.files.Keys - w, 1, |s.files[f]| - k
  {
    if k < |s.files[f]| && StreamFrom(s, again, f, k, memo, w).Ok? {
      match s.files[f][k]
      case Own(_, _, _) => FromReaches(s, again, f, k + 1, memo, w);
      case Inc(i) =>
        if Lookup(memo, i).Some? {
          FromReaches(s, again, f, k + 1, memo, w);
        } else {
          var p := Resolve(s, i).value;
          var o := StreamFile(s, again, p, w).value;
          FileReaches(s, again, p, w);
          FromReaches(s, again, f, k + 1, memo + [(i, o.text)], o.written);
          assert LeadsTo(s, f, k, p);
          forall g | g in o.written && g !in w ensures Reaches(s, f, g) {
            ReachStep(s, f, p, g);
          }
        }
    }
  }

  lemma {:induction false} ClosedHoldsReachable(s: Source, w: set<Path>, f: Path, g: Path, n: nat)
    requires Closed(s, {}, w) && f in w && ReachesIn(s, f, g, n)
    ensures g in w
    decreases n
  {
    if n > 0 {
      var h :| Edge(s, f, h) && ReachesIn(s, h, g, n - 1);
      ClosedHoldsReachable(s, w, h, g, n - 1);
    }
  }

  /** The main files, one after the other, read line by line. */
  function StreamProgram(s: Source, again: bool, mains: seq<Path>): Result<Out, string> {
    if mains == [] then Ok(Out([], {}))
    else match StreamProgram(s, again, mains[..|mains| - 1])
      case Err(e) => Err(e)
      case Ok(o) => Prepend(o.text, StreamFile(s, again, mains[|mains| - 1], o.written))
  }

  lemma {:induction false} ProgramReadsTheSame(s: Source, again: bool, mains: seq<Path>)
    ensures SameOutcome(Program(s, mains), StreamProgram(s, again, mains))
  {
    if mains != [] {
      var init, last := mains[..|mains| - 1], mains[|mains| - 1];
      ProgramReadsTheSame(s, again, init);
      if Program(s, init).Ok? {
        ExpandReadsTheSame(s, again, last, Program(s, init).value.written);
      }
    }
  }

  lemma {:induction false} ProgramCloses(s: Source, again: bool, mains: seq<Path>)
    requires StreamProgram(s, again, mains).Ok?
    ensures var w := StreamProgram(s, again, mains).value.written;
            && Closed(s, {}, w) && (forall m :: m in mains ==> m in w)
            && forall g :: g in w ==> exists m :: m in mains && Reaches(s, m, g)
  {
    if mains != [] {
      var init, last := mains[..|mains| - 1], mains[|mains| - 1];
      ProgramCloses(s, again, init);
      var before := StreamProgram(s, again, init).value.written;
      FileCloses(s, again, last, before);
      FileReaches(s, again, last, before);
      assert forall m :: m in mains <==> m in init || m == last;
      var w := StreamProgram(s, again, mains).value.written;
      assert before <= w && last in w;
      forall f | f in w && f in s.files ensures Behind(s, f, |s.files[f]|, w) {
        if f in before {
          assert Behind(s, f, |s.files[f]|, before);
        }
      }
      forall g | g in w ensures exists m :: m in mains && Reaches(s, m, g) {
        if g in before {
          var m :| m in init && Reaches(s, m, g);
          assert m in mains;
        } else {
          assert last in mains && Reaches(s, last, g);
        }
      }
    }
  }

  /** The files written are exactly those a main file reaches, on any include graph. */
  lemma {:induction false} WrittenIsReachable(s: Source, mains: seq<Path>, g: Path)
    requires Program(s, mains).Ok?
    ensures g in Program(s, mains).value.written <==> exists m :: m in mains && Reaches(s, m, g)
  {
    ProgramReadsTheSame(s, true, mains);
    ProgramCloses(s, true, mains);
    var w := Program(s, mains).value.written;
    if m :| m in mains && Reaches(s, m, g) {
      var n: nat :| ReachesIn(s, m, g, n);
      ClosedHoldsReachable(s, w, m, g, n);
    }
  }

  // ---------------------------------------------------------------- when it fails

  /** File `f` includes a header that no directory has. */
  ghost predicate Broken(s: Source, f: Path) {
    f in s.files && exists k :: 0 <= k < |s.files[f]| && Dangles(s, f, k)
  }

  ghost predicate Dangles(s: Source, f: Path, k: nat)
    requires f in s.files && k < |s.files[f]|
  {
    s.files[f][k].Inc? && Resolve(s, s.files[f][k].inc).None?
  }

  ghost predicate ReachesBroken(s: Source, f: Path) {
    exists g :: Reaches(s, f, g) && Broken(s, g)
  }

  lemma {:induction false} BrokenFile(s: Source, f: Path, w: set<Path>)
    requires StreamFile(s, true, f, w).Err?
    ensures ReachesBroken(s, f)
    decreases s.files.Keys - w, 0, 0
  {
    var incs := Statements(s.files[f]);
    if Targets(s, incs).Err? {
      var n :| 0 <= n < |incs| && Resolve(s, incs[n]).None?;
      assert Inc(incs[n]) in s.files[f];
      var k :| 0 <= k < |s.files[f]| && s.files[f][k] == Inc(incs[n]);
      assert Dangles(s, f, k) && ReachesIn(s, f, f, 0) && Reaches(s, f, f);
    } else {
      BrokenFrom(s, f, 0, [], w + {f});
    }
  }

  lemma {:induction false} BrokenFrom(s: Source, f: Path, k: nat, memo: Memo, w: set<Path>)
    requires f in s.files && k <= |s.files[f]| && StreamFrom(s, true, f, k, memo, w).Err?
    ensures ReachesBroken(s, f)
    decreases s.files.Keys - w, 1, |s.files[f]| - k
  {
    match s.files[f][k]
    case Own(_, _, _) => BrokenFrom(s, f, k + 1, memo, w);
    case Inc(i) =>
      if Lookup(memo, i).Some? {
        BrokenFrom(s, f, k + 1, memo, w);
      } else if Resolve(s, i).None? {
        assert Dangles(s, f, k) && ReachesIn(s, f, f, 0) && Reaches(s, f, f);
      } else {
        var p := Resolve(s, i).value;
        var r := StreamFile(s, true, p, w);
        if r.Err? {
          BrokenFile(s, p, w);
          assert LeadsTo(s, f, k, p);
          var g :| Reaches(s, p, g) && Broken(s, g);
          ReachStep(s, f, p, g);
        } else {
          BrokenFrom(s, f, k + 1, memo + [(i, r.value.text)], r.value.written);
        }
      }
  }

  lemma {:induction false} BrokenProgram(s: Source, mains: seq<Path>)
    requires StreamProgram(s, true, mains).Err?
    ensures exists m :: m in mains && ReachesBroken(s, m)
  {
    var init, last := mains[..|mains| - 1], mains[|mains| - 1];
    if StreamProgram(s, true, init).Err? {
      BrokenProgram(s, init);
      var m :| m in init && ReachesBroken(s, m);
      assert m in mains;
    } else {
      BrokenFile(s, last, StreamProgram(s, true, init).value.written);
      assert last in mains;
    }
  }

  lemma {:induction false} WrittenIsWhole(s: Source, mains: seq<Path>, g: Path)
    requires Program(s, mains).Ok? && g in Program(s, mains).value.written
    ensures !Broken(s, g)
  {
    hide Program, StreamProgram, Reaches;
    ProgramReadsTheSame(s, true, mains);
    ProgramCloses(s, true, mains);
    if g in s.files {
      assert Behind(s, g, |s.files[g]|, Program(s, mains).value.written);
    }
  }

  /** It fails exactly when a main file reaches one that includes a header that is nowhere. */
  lemma {:induction false} FailsExactly(s: Source, mains: seq<Path>)
    ensures Program(s, mains).Err? <==> exists m :: m in mains && ReachesBroken(s, m)
  {
    hide Program, StreamProgram, Reaches, Broken;
    ProgramReadsTheSame(s, true, mains);
    if Program(s, mains).Err? {
      BrokenProgram(s, mains);
    } else if m :| m in mains && ReachesBroken(s, m) {
      var g :| Reaches(s, m, g) && Broken(s, g);
      WrittenIsReachable(s, mains, g);
      WrittenIsWhole(s, mains, g);
    }
  }
}
