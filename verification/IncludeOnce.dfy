/** The amalgamator against a plain include-once preprocessor, and what both promise of
    the header. */
module IncludeOnce {
  import opened Amalgamator
  import opened Wrappers

  /** The statements met so far, each with what stands in its place. */
  type Memo = seq<(Include, seq<Line>)>

  /** What stands in the place of a statement: the text of the first one met that it holds. */
  function Lookup(memo: Memo, i: Include): Option<seq<Line>> {
    if memo == [] then None
    else if Holds(i, memo[0].0) then Some(memo[0].1)
    else Lookup(memo[1..], i)
  }

  function Prepend(text: seq<Line>, r: Result<Out, string>): Result<Out, string> {
    match r
    case Err(e) => Err(e)
    case Ok(o) => Ok(Out(text + o.text, o.written))
  }

  // ---------------------------------------------------------------- the reference

  /** Reading a file line by line, going into each include statement where it stands. A
      statement that comes again in the same file, or comes again with blanks in front,
      stands for nothing, or, with `again`, for the same text as the first time. */
  function StreamFile(s: Source, again: bool, f: Path, w: set<Path>): (r: Result<Out, string>)
    ensures r.Ok? ==> w + {f} <= r.value.written
    decreases s.files.Keys - w, 0, 0
  {
    if f in w then Ok(Out([], w))
    else if f !in s.files then Ok(Out([], w + {f}))
    else match Targets(s, Statements(s.files[f]))
      case Err(e) => Err(e)
      case Ok(_) =>
        match StreamFrom(s, again, f, 0, [], w + {f})
        case Err(e) => Err(e)
        case Ok(o) => Ok(Out(Tidy(o.text), o.written))
  }

  function StreamFrom(s: Source, again: bool, f: Path, k: nat, memo: Memo, w: set<Path>): (r: Result<Out, string>)
    requires f in s.files && k <= |s.files[f]|
    ensures r.Ok? ==> w <= r.value.written
    decreases s.files.Keys - w, 1, |s.files[f]| - k
  {
    if k == |s.files[f]| then Ok(Out([], w))
    else match s.files[f][k]
      case Own(_, _, _) => Prepend([s.files[f][k]], StreamFrom(s, again, f, k + 1, memo, w))
      case Inc(i) =>
        match Lookup(memo, i)
        case Some(text) => Prepend(if again then text else [], StreamFrom(s, again, f, k + 1, memo, w))
        case None =>
          match Resolve(s, i)
          case None => Err(i.name)
          case Some(p) =>
            match StreamFile(s, again, p, w)
            case Err(e) => Err(e)
            case Ok(o) => Prepend(o.text, StreamFrom(s, again, f, k + 1, memo + [(i, o.text)], o.written))
  }

  predicate FlatMemo(memo: Memo) {
    forall k :: 0 <= k < |memo| ==> Flat(memo[k].1)
  }

  lemma {:induction false} LookupIn(memo: Memo, i: Include)
    ensures match Lookup(memo, i)
            case Some(text) => exists k :: 0 <= k < |memo| && Holds(i, memo[k].0) && memo[k].1 == text
            case None => forall k :: 0 <= k < |memo| ==> !Holds(i, memo[k].0)
  {
    if memo != [] && !Holds(i, memo[0].0) {
      LookupIn(memo[1..], i);
      assert forall k :: 0 < k < |memo| ==> memo[k] == memo[1..][k - 1];
    }
  }

  lemma {:induction false} LookupSnoc(memo: Memo, j: Include, text: seq<Line>, i: Include)
    ensures Lookup(memo + [(j, text)], i) ==
            if Lookup(memo, i).Some? then Lookup(memo, i) else if Holds(i, j) then Some(text) else None
  {
    var more := memo + [(j, text)];
    if memo == [] {
      assert more[1..] == [];
    } else {
      assert more[1..] == memo[1..] + [(j, text)];
      LookupSnoc(memo[1..], j, text, i);
    }
  }

  /** Nothing that has been read holds an include statement any more. */
  lemma {:induction false} FileIsFlat(s: Source, again: bool, f: Path, w: set<Path>)
    ensures StreamFile(s, again, f, w).Ok? ==> Flat(StreamFile(s, again, f, w).value.text)
    decreases s.files.Keys - w, 0, 0
  {
    if f !in w && f in s.files {
      FromIsFlat(s, again, f, 0, [], w + {f});
    }
  }

  lemma {:induction false} FromIsFlat(s: Source, again: bool, f: Path, k: nat, memo: Memo, w: set<Path>)
    requires f in s.files && k <= |s.files[f]| && FlatMemo(memo)
    ensures StreamFrom(s, again, f, k, memo, w).Ok? ==> Flat(StreamFrom(s, again, f, k, memo, w).value.text)
    decreases s.files.Keys - w, 1, |s.files[f]| - k
  {
    if k < |s.files[f]| {
      match s.files[f][k]
      case Own(_, _, _) => FromIsFlat(s, again, f, k + 1, memo, w);
      case Inc(i) =>
        LookupIn(memo, i);
        if Lookup(memo, i).Some? {
          FromIsFlat(s, again, f, k + 1, memo, w);
        } else if Resolve(s, i).Some? && StreamFile(s, again, Resolve(s, i).value, w).Ok? {
          var o := StreamFile(s, again, Resolve(s, i).value, w).value;
          FileIsFlat(s, again, Resolve(s, i).value, w);
          FromIsFlat(s, again, f, k + 1, memo + [(i, o.text)], o.written);
        }
    }
  }

  // ---------------------------------------------------------------- where a replacement hits

  /** How often a statement is hit inside own lines. */
  function OwnHits(text: seq<Line>, i: Include): nat {
    if text == [] then 0
    else OwnHits(text[1..], i) + if text[0].Own? then |Split(Spelled(i), text[0].text)| - 1 else 0
  }

  /** How many include lines are, or hold, a statement. */
  function LineHits(text: seq<Line>, i: Include): nat {
    if text == [] then 0
    else LineHits(text[1..], i) + if text[0].Inc? && Holds(text[0].inc, i) then 1 else 0
  }

  lemma {:induction false} SplitOnce(p: string, t: string)
    requires p != "" && |Split(p, t)| == 1
    ensures Split(p, t) == [t] && Remove(p, t) == t
    decreases |t|
  {
    if t != "" {
      SplitOnce(p, t[1..]);
      assert t == [t[0]] + t[1..];
    }
  }

  /** A text without a character of `p` is not cut at `p`. */
  lemma {:induction false} SplitNot(p: string, t: string, c: char)
    requires p != "" && c in p && c !in t
    ensures Split(p, t) == [t]
    decreases |t|
  {
    if t != "" {
      SplitNot(p, t[1..], c);
      assert t == [t[0]] + t[1..];
      var n :| 0 <= n < |p| && p[n] == c;
      assert |p| <= |t| ==> t[..|p|][n] == t[n];
    }
  }

  /** While `f` is expanded no text is put inside an own line; or, if `strict`, no own line
      is hit at all. */
  ghost predicate SparesFile(s: Source, strict: bool, f: Path, w: set<Path>)
    decreases s.files.Keys - w, 0
  {
    f !in w && f in s.files ==>
      match Targets(s, Statements(s.files[f]))
      case Err(_) => true
      case Ok(ps) => SparesAll(s, strict, s.files[f], Statements(s.files[f]), ps, w + {f})
  }

  ghost predicate SparesAll(s: Source, strict: bool, text: seq<Line>, incs: seq<Include>, ps: seq<Path>, w: set<Path>)
    requires |incs| == |ps|
    decreases s.files.Keys - w, 1, |incs|
  {
    incs != [] ==>
      && SparesFile(s, strict, ps[0], w)
      && match ExpandFile(s, ps[0], w)
         case Err(_) => true
         case Ok(o) =>
           && ((o.text == [] && !strict) || OwnHits(text, incs[0]) == 0)
           && SparesAll(s, strict, StrReplace(text, incs[0], o.text), incs[1..], ps[1..], o.written)
  }

  // ---------------------------------------------------------------- replacing is streaming

  /** The statements of a text that are not seen yet, each once, in order. */
  function Todo(text: seq<Line>, seen: set<Include>): seq<Include> {
    if text == [] then []
    else if text[0].Inc? && text[0].inc !in seen then [text[0].inc] + Todo(text[1..], seen + {text[0].inc})
    else Todo(text[1..], seen)
  }

  lemma {:induction false} TodoSnoc(text: seq<Line>, x: Line, seen: set<Include>)
    ensures Todo(text + [x], seen) ==
            Todo(text, seen) + if x.Inc? && x.inc !in seen && x !in text then [x.inc] else []
  {
    if text == [] {
      assert (text + [x])[1..] == [];
    } else {
      assert (text + [x])[1..] == text[1..] + [x];
      TodoSnoc(text[1..], x, if text[0].Inc? && text[0].inc !in seen then seen + {text[0].inc} else seen);
    }
  }

  lemma {:induction false} StatementsAreTodo(text: seq<Line>)
    ensures Statements(text) == Todo(text, {})
  {
    if text != [] {
      var init, x := text[..|text| - 1], text[|text| - 1];
      StatementsAreTodo(init);
      assert text == init + [x];
      TodoSnoc(init, x, {});
    }
  }

  /** A text with the statements replaced so far. */
  function Subst(text: seq<Line>, memo: Memo): seq<Line> {
    if text == [] then []
    else (if text[0].Inc? && Lookup(memo, text[0].inc).Some? then Lookup(memo, text[0].inc).value else [text[0]])
         + Subst(text[1..], memo)
  }

  /** Replacing whole include lines only. */
  function Swap(text: seq<Line>, i: Include, content: seq<Line>): seq<Line> {
    if text == [] then []
    else (if text[0].Inc? && Holds(text[0].inc, i) then content else [text[0]]) + Swap(text[1..], i, content)
  }

  lemma {:induction false} SwapFlat(text: seq<Line>, rest: seq<Line>, i: Include, c: seq<Line>)
    requires Flat(text)
    ensures Swap(text + rest, i, c) == text + Swap(rest, i, c)
  {
    if text == [] {
      assert text + rest == rest;
    } else {
      assert (text + rest)[1..] == text[1..] + rest;
      SwapFlat(text[1..], rest, i, c);
    }
  }

  lemma {:induction false} SwapSubst(text: seq<Line>, memo: Memo, i: Include, c: seq<Line>)
    requires FlatMemo(memo)
    ensures Swap(Subst(text, memo), i, c) == Subst(text, memo + [(i, c)])
  {
    if text != [] {
      SwapSubst(text[1..], memo, i, c);
      var x := text[0];
      if x.Inc? {
        LookupIn(memo, x.inc);
        LookupSnoc(memo, i, c, x.inc);
      }
      if x.Inc? && Lookup(memo, x.inc).Some? {
        SwapFlat(Lookup(memo, x.inc).value, Subst(text[1..], memo), i, c);
      } else {
        assert ([x] + Subst(text[1..], memo))[1..] == Subst(text[1..], memo);
      }
    }
  }

  /** A statement that holds one already met has nothing left to replace. */
  lemma {:induction false} SubstSame(text: seq<Line>, memo: Memo, i: Include, c: seq<Line>)
    requires Lookup(memo, i).Some?
    ensures Subst(text, memo + [(i, c)]) == Subst(text, memo)
  {
    if text != [] {
      SubstSame(text[1..], memo, i, c);
      if text[0].Inc? {
        LookupSnoc(memo, i, c, text[0].inc);
        LookupIn(memo, i);
        LookupIn(memo, text[0].inc);
      }
    }
  }

  lemma {:induction false} SubstEmpty(text: seq<Line>)
    ensures Subst(text, []) == text
  {
    if text != [] {
      SubstEmpty(text[1..]);
    }
  }

  // ---------------------------------------------------------------- alike

  /** Two lines from the same place, and if `strict` the same line. */
  predicate AlikeLine(strict: bool, x: Line, y: Line) {
    || x == y
    || (!strict && x.Own? && y.Own? && x.origin == y.origin && x.index == y.index)
  }

  predicate Alike(strict: bool, a: seq<Line>, b: seq<Line>) {
    |a| == |b| && forall k :: 0 <= k < |a| ==> AlikeLine(strict, a[k], b[k])
  }

  lemma {:induction false} ReplaceAlike(strict: bool, a: seq<Line>, b: seq<Line>, i: Include,
                                        c: seq<Line>, d: seq<Line>)
    requires Alike(strict, a, b) && Alike(strict, c, d)
    requires (c == [] && !strict) || OwnHits(a, i) == 0
    ensures Alike(strict, StrReplace(a, i, c), Swap(b, i, d))
  {
    if a != [] {
      ReplaceAlike(strict, a[1..], b[1..], i, c, d);
      if a[0].Own? && OwnHits(a, i) == 0 {
        SplitOnce(Spelled(i), a[0].text);
      }
      assert AlikeLine(strict, a[0], b[0]);
    }
  }

  lemma {:induction false} TidyAlike(strict: bool, a: seq<Line>, b: seq<Line>)
    requires Alike(strict, a, b)
    ensures Alike(strict, Tidy(a), Tidy(b))
  {
    forall k | 0 <= k < |a| ensures AlikeLine(strict, Tidy(a)[k], Tidy(b)[k]) {
      assert AlikeLine(strict, a[k], b[k]);
    }
  }

  // ---------------------------------------------------------------- the same files

  /** The same failure, or the same files written. */
  predicate SameOutcome(a: Result<Out, string>, b: Result<Out, string>) {
    match (a, b)
    case (Ok(o), Ok(p)) => o.written == p.written
    case (Err(e), Err(d)) => e == d
    case _ => false
  }

  ghost predicate Leads(s: Source, incs: seq<Include>, ps: seq<Path>) {
    |incs| == |ps| && forall n :: 0 <= n < |incs| ==> Resolve(s, incs[n]) == Some(ps[n])
  }

  /** The statements met lead to files already written, and those seen stand for them. */
  ghost predicate Met(s: Source, memo: Memo, seen: set<Include>, w: set<Path>) {
    && (forall k :: 0 <= k < |memo| ==> Resolve(s, memo[k].0).Some? && Resolve(s, memo[k].0).value in w)
    && (forall i :: i in seen ==> Lookup(memo, i).Some?)
  }

  lemma {:induction false} MetAgain(s: Source, memo: Memo, seen: set<Include>, w: set<Path>, i: Include)
    requires Met(s, memo, seen, w) && Lookup(memo, i).Some?
    ensures Resolve(s, i).Some? && Resolve(s, i).value in w && Met(s, memo, seen + {i}, w)
  {
    LookupIn(memo, i);
  }

  lemma {:induction false} MetOneMore(s: Source, memo: Memo, seen: set<Include>, w: set<Path>, i: Include,
                                      text: seq<Line>, w': set<Path>)
    requires Met(s, memo, seen, w) && Resolve(s, i).Some? && w <= w' && Resolve(s, i).value in w'
    ensures Met(s, memo + [(i, text)], seen + {i}, w')
  {
    forall j | j in seen + {i} ensures Lookup(memo + [(i, text)], j).Some? {
      LookupSnoc(memo, i, text, j);
    }
  }

  /** On every include graph, cyclic ones too, expanding and reading line by line fail alike
      and write the same files, wherever the replacements hit. */
  lemma {:induction false} ExpandReadsTheSame(s: Source, again: bool, f: Path, w: set<Path>)
    ensures SameOutcome(ExpandFile(s, f, w), StreamFile(s, again, f, w))
    decreases s.files.Keys - w, 0, 0
  {
    if f !in w && f in s.files && Targets(s, Statements(s.files[f])).Ok? {
      var text := s.files[f];
      StatementsAreTodo(text);
      assert text[0..] == text;
      ReplaceReadsTheSame(s, again, f, 0, [], {}, w + {f}, text, Targets(s, Statements(text)).value);
    }
  }

  lemma {:induction false} ReplaceReadsTheSame(s: Source, again: bool, f: Path, k: nat, memo: Memo, seen: set<Include>,
                                               w: set<Path>, text: seq<Line>, ps: seq<Path>)
    requires f in s.files && k <= |s.files[f]| && Met(s, memo, seen, w)
    requires Leads(s, Todo(s.files[f][k..], seen), ps)
    ensures SameOutcome(ReplaceAll(s, text, Todo(s.files[f][k..], seen), ps, w), StreamFrom(s, again, f, k, memo, w))
    decreases s.files.Keys - w, 1, |s.files[f]| - k
  {
    var rest := s.files[f][k..];
    if rest != [] {
      var x := rest[0];
      assert rest[1..] == s.files[f][k + 1..];
      if x.Own? || x.inc in seen {
        ReplaceReadsTheSame(s, again, f, k + 1, memo, seen, w, text, ps);
      } else if Lookup(memo, x.inc).Some? {
        MetAgain(s, memo, seen, w, x.inc);
        assert ExpandFile(s, ps[0], w) == Ok(Out([], w));
        ReplaceReadsTheSame(s, again, f, k + 1, memo, seen + {x.inc}, w, StrReplace(text, x.inc, []), ps[1..]);
      } else {
        ExpandReadsTheSame(s, again, ps[0], w);
        if StreamFile(s, again, ps[0], w).Ok? {
          var c, o := ExpandFile(s, ps[0], w).value.text, StreamFile(s, again, ps[0], w).value;
          MetOneMore(s, memo, seen, w, x.inc, o.text, o.written);
          ReplaceReadsTheSame(s, again, f, k + 1, memo + [(x.inc, o.text)], seen + {x.inc}, o.written,
                              StrReplace(text, x.inc, c), ps[1..]);
        }
      }
    }
  }

  // ---------------------------------------------------------------- the same lines

  /** Where no text is put inside an own line, replacing statement by statement over the
      whole text gives line for line what reading line by line gives, on every include
      graph, cyclic ones and repeated statements included; and the very same text where no
      own line is hit at all. */
  lemma {:induction false} ExpandIsStream(s: Source, strict: bool, f: Path, w: set<Path>)
    requires SparesFile(s, strict, f, w)
    ensures var a, b := ExpandFile(s, f, w), StreamFile(s, true, f, w);
            SameOutcome(a, b) && (a.Ok? ==> Alike(strict, a.value.text, b.value.text))
    decreases s.files.Keys - w, 0, 0
  {
    ExpandReadsTheSame(s, true, f, w);
    if f !in w && f in s.files && ExpandFile(s, f, w).Ok? {
      var text := s.files[f];
      StatementsAreTodo(text);
      SubstEmpty(text);
      assert text[0..] == text && [] + Subst(text, []) == text;
      ReplaceIsStream(s, strict, f, 0, [], {}, w + {f}, text, [], Targets(s, Statements(text)).value);
      var b := StreamFrom(s, true, f, 0, [], w + {f});
      assert [] + b.value.text == b.value.text;
      TidyAlike(strict, ReplaceAll(s, text, Statements(text), Targets(s, Statements(text)).value, w + {f}).value.text,
                b.value.text);
    }
  }

  /** Replacing what is still to do in `text`, and reading on from line `k`, both end; and the
      lines of `text` are those read so far, with the rest of the file. */
  ghost predicate Along(s: Source, strict: bool, f: Path, k: nat, memo: Memo, seen: set<Include>, w: set<Path>,
                        text: seq<Line>, done: seq<Line>, ps: seq<Path>)
  {
    && f in s.files && k <= |s.files[f]| && Met(s, memo, seen, w) && FlatMemo(memo) && Flat(done)
    && Leads(s, Todo(s.files[f][k..], seen), ps)
    && SparesAll(s, strict, text, Todo(s.files[f][k..], seen), ps, w)
    && Alike(strict, text, done + Subst(s.files[f][k..], memo))
    && ReplaceAll(s, text, Todo(s.files[f][k..], seen), ps, w).Ok? && StreamFrom(s, true, f, k, memo, w).Ok?
  }

  lemma {:induction false} ReplaceIsStream(s: Source, strict: bool, f: Path, k: nat, memo: Memo, seen: set<Include>,
                                           w: set<Path>, text: seq<Line>, done: seq<Line>, ps: seq<Path>)
    requires Along(s, strict, f, k, memo, seen, w, text, done, ps)
    ensures Alike(strict, ReplaceAll(s, text, Todo(s.files[f][k..], seen), ps, w).value.text,
                  done + StreamFrom(s, true, f, k, memo, w).value.text)
    decreases s.files.Keys - w, 1, |s.files[f]| - k, 1
  {
    var rest := s.files[f][k..];
    if rest == [] {
      assert done + [] == done;
    } else if rest[0].Own? || Lookup(memo, rest[0].inc).Some? {
      ReplaceMet(s, strict, f, k, memo, seen, w, text, done, ps);
    } else {
      ReplaceNew(s, strict, f, k, memo, seen, w, text, done, ps);
    }
  }

  /** An own line, or a statement already met. */
  lemma {:induction false} ReplaceMet(s: Source, strict: bool, f: Path, k: nat, memo: Memo, seen: set<Include>,
                                      w: set<Path>, text: seq<Line>, done: seq<Line>, ps: seq<Path>)
    requires Along(s, strict, f, k, memo, seen, w, text, done, ps) && k < |s.files[f]|
    requires s.files[f][k].Own? || Lookup(memo, s.files[f][k].inc).Some?
    ensures Alike(strict, ReplaceAll(s, text, Todo(s.files[f][k..], seen), ps, w).value.text,
                  done + StreamFrom(s, true, f, k, memo, w).value.text)
    decreases s.files.Keys - w, 1, |s.files[f]| - k, 0
  {
    hide Alike, Met, Resolve, StrReplace, OwnHits;
    var x, rest := s.files[f][k], s.files[f][k..];
    assert rest[1..] == s.files[f][k + 1..];
    var c := if x.Own? then [x] else Lookup(memo, x.inc).value;
    Assoc(done, c, Subst(rest[1..], memo));
    Assoc(done, c, StreamFrom(s, true, f, k + 1, memo, w).value.text);
    if x.Inc? {
      LookupIn(memo, x.inc);
    }
    hide Lookup;
    if x.Own? || x.inc in seen {
      ReplaceIsStream(s, strict, f, k + 1, memo, seen, w, text, done + c, ps);
    } else {
      MetAgain(s, memo, seen, w, x.inc);
      ReplaceNothing(strict, text, done, rest, memo, x.inc);
      ReplaceIsStream(s, strict, f, k + 1, memo, seen + {x.inc}, w, StrReplace(text, x.inc, []), done + c, ps[1..]);
    }
  }

  /** A statement met for the first time. */
  lemma {:induction false} ReplaceNew(s: Source, strict: bool, f: Path, k: nat, memo: Memo, seen: set<Include>,
                                      w: set<Path>, text: seq<Line>, done: seq<Line>, ps: seq<Path>)
    requires Along(s, strict, f, k, memo, seen, w, text, done, ps) && k < |s.files[f]|
    requires s.files[f][k].Inc? && Lookup(memo, s.files[f][k].inc).None?
    ensures Alike(strict, ReplaceAll(s, text, Todo(s.files[f][k..], seen), ps, w).value.text,
                  done + StreamFrom(s, true, f, k, memo, w).value.text)
    decreases s.files.Keys - w, 1, |s.files[f]| - k, 0
  {
    var i, rest := s.files[f][k].inc, s.files[f][k..];
    assert i !in seen;
    hide Alike, Met, Lookup, Resolve, StrReplace, OwnHits;
    assert rest[1..] == s.files[f][k + 1..];
    ExpandIsStream(s, strict, ps[0], w);
    FileIsFlat(s, true, ps[0], w);
    var c, o := ExpandFile(s, ps[0], w).value.text, StreamFile(s, true, ps[0], w).value;
    MetOneMore(s, memo, seen, w, i, o.text, o.written);
    ReplaceOne(strict, text, done, rest, memo, c, o.text);
    Assoc(done, o.text, StreamFrom(s, true, f, k + 1, memo + [(i, o.text)], o.written).value.text);
    ReplaceIsStream(s, strict, f, k + 1, memo + [(i, o.text)], seen + {i}, o.written,
                    StrReplace(text, i, c), done + o.text, ps[1..]);
  }

  lemma {:induction false} ReplaceNothing(strict: bool, text: seq<Line>, done: seq<Line>, rest: seq<Line>, memo: Memo,
                                          i: Include)
    requires Flat(done) && FlatMemo(memo) && Lookup(memo, i).Some? && Alike(strict, text, done + Subst(rest, memo))
    requires !strict || OwnHits(text, i) == 0
    ensures Alike(strict, StrReplace(text, i, []), done + Subst(rest, memo))
  {
    ReplaceAlike(strict, text, done + Subst(rest, memo), i, [], []);
    SwapFlat(done, Subst(rest, memo), i, []);
    SwapSubst(rest, memo, i, []);
    SubstSame(rest, memo, i, []);
  }

  lemma {:induction false} ReplaceOne(strict: bool, text: seq<Line>, done: seq<Line>, rest: seq<Line>, memo: Memo,
                                      c: seq<Line>, d: seq<Line>)
    requires Flat(done) && FlatMemo(memo) && rest != [] && rest[0].Inc? && Lookup(memo, rest[0].inc).None?
    requires Alike(strict, text, done + Subst(rest, memo)) && Alike(strict, c, d)
    requires (c == [] && !strict) || OwnHits(text, rest[0].inc) == 0
    ensures Alike(strict, StrReplace(text, rest[0].inc, c),
                  done + d + Subst(rest[1..], memo + [(rest[0].inc, d)]))
  {
    var i := rest[0].inc;
    ReplaceAlike(strict, text, done + Subst(rest, memo), i, c, d);
    SwapFlat(done, Subst(rest, memo), i, d);
    SwapSubst(rest, memo, i, d);
    LookupSnoc(memo, i, d, i);
    assert i.lead[0..] == i.lead;
    Assoc(done, d, Subst(rest[1..], memo + [(i, d)]));
  }

  lemma {:induction false} Assoc(a: seq<Line>, b: seq<Line>, c: seq<Line>)
    ensures a + b + c == a + (b + c)
  {
  }

  lemma {:induction false} PrependNothing(r: Result<Out, string>)
    ensures Prepend([], r) == r
  {
    if r.Ok? {
      assert [] + r.value.text == r.value.text;
    }
  }
}
