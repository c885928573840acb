/** create_duckdb_hpp.php: one header out of many, each file's text put where it is first
    included. */
module Amalgamator {
  import opened Wrappers

  type Path = string

  /** An include statement: the text up to the opening quote, and the name in quotes. */
  datatype Include = Include(lead: string, name: string)

  /** A line of text with where it came from, or an include statement. */
  datatype Line = Own(origin: Path, index: nat, text: string) | Inc(inc: Include)

  /** The files there are, and the directories searched for an included one. */
  datatype Source = Source(files: map<Path, seq<Line>>, dirs: seq<Path>)

  /** Lines are labelled with the file and the position they stand at. */
  ghost predicate Labelled(s: Source) {
    forall f, i :: f in s.files && 0 <= i < |s.files[f]| && s.files[f][i].Own? ==>
      s.files[f][i].origin == f && s.files[f][i].index == i
  }

  // ---------------------------------------------------------------- finding includes

  /** The first directory that has the file. */
  function Find(s: Source, dirs: seq<Path>, name: string): Option<Path> {
    if dirs == [] then None
    else if dirs[0] + "/" + name in s.files then Some(dirs[0] + "/" + name)
    else Find(s, dirs[1..], name)
  }

  function Resolve(s: Source, i: Include): Option<Path> {
    Find(s, s.dirs, i.name)
  }

  /** The include statements of the text, each once, in order. */
  function Statements(text: seq<Line>): (r: seq<Include>)
    ensures forall i :: i in r <==> Inc(i) in text
  {
    if text == [] then [] else
      var before, last := Statements(text[..|text| - 1]), text[|text| - 1];
      if last.Inc? && last.inc !in before then before + [last.inc] else before
  }

  /** Where the statements lead, or the first name that is nowhere. */
  function Targets(s: Source, incs: seq<Include>): (r: Result<seq<Path>, string>)
    ensures r.Ok? ==> |r.value| == |incs| && forall k :: 0 <= k < |incs| ==> Resolve(s, incs[k]) == Some(r.value[k])
    ensures r.Err? ==> exists k :: 0 <= k < |incs| && Resolve(s, incs[k]).None?
  {
    if incs == [] then Ok([]) else
      match Targets(s, incs[..|incs| - 1])
      case Err(e) => Err(e)
      case Ok(ps) =>
        match Resolve(s, incs[|incs| - 1])
        case None => Err(incs[|incs| - 1].name)
        case Some(p) => Ok(ps + [p])
  }

  /** No directory has the file, or it is found in the first that does. */
  lemma {:induction false} FindIsFirst(s: Source, dirs: seq<Path>, name: string)
    ensures match Find(s, dirs, name)
            case None => forall d :: 0 <= d < |dirs| ==> dirs[d] + "/" + name !in s.files
            case Some(p) => exists d :: 0 <= d < |dirs| && p == dirs[d] + "/" + name && p in s.files
                                        && forall e :: 0 <= e < d ==> dirs[e] + "/" + name !in s.files
  {
    if dirs != [] && dirs[0] + "/" + name !in s.files {
      FindIsFirst(s, dirs[1..], name);
      assert forall e :: 0 < e < |dirs| ==> dirs[e] == dirs[1..][e - 1];
    }
  }

  /** The search through the directories. */
  method Search(s: Source, included: Include) returns (file: Option<Path>)
    ensures file == Resolve(s, included)
  {
    for d := 0 to |s.dirs|
      invariant Resolve(s, included) == Find(s, s.dirs[d..], included.name)
    {
      assert s.dirs[d..][1..] == s.dirs[d + 1..];
      var path := s.dirs[d] + "/" + included.name;
      if path in s.files {
        return Some(path);
      }
    }
    return None;
  }

  lemma {:induction false} OneMore(s: Source, text: seq<Line>, i: nat)
    requires i < |text|
    ensures var before, here := Statements(text[..i]), text[i];
            && Statements(text[..i + 1]) == (if here.Own? || here.inc in before then before else before + [here.inc])
            && (here.Inc? && Targets(s, before).Ok? ==>
                  Targets(s, before + [here.inc]) ==
                    match Resolve(s, here.inc)
                    case None => Err(here.inc.name)
                    case Some(p) => Ok(Targets(s, before).value + [p]))
  {
    assert text[..i + 1][..i] == text[..i];
    if text[i].Inc? {
      var before := Statements(text[..i]);
      assert (before + [text[i].inc])[..|before|] == before;
    }
  }

  method GetIncludes(s: Source, text: seq<Line>) returns (r: Result<(seq<Include>, seq<Path>), string>)
    ensures r == match Targets(s, Statements(text)) case Ok(ps) => Ok((Statements(text), ps)) case Err(e) => Err(e)
  {
    hide Resolve;
    var statements: seq<Include>, files: seq<Path> := [], [];
    assert text[..0] == [];
    for i := 0 to |text|
      invariant statements == Statements(text[..i]) && Targets(s, statements) == Ok(files)
    {
      hide Statements, Targets;
      OneMore(s, text, i);
      if text[i].Own? || text[i].inc in statements {
        continue;
      }
      statements := statements + [text[i].inc];
      var file := Search(s, text[i].inc);
      if file.None? {
        MissingStays(s, text, i + 1);
        return Err(text[i].inc.name);
      }
      files := files + [file.value];
    }
    assert text[..|text|] == text;
    return Ok((statements, files));
  }

  lemma {:induction false} MissingStays(s: Source, text: seq<Line>, n: nat)
    requires n <= |text| && Targets(s, Statements(text[..n])).Err?
    ensures Targets(s, Statements(text)) == Targets(s, Statements(text[..n]))
    decreases |text|
  {
    if n == |text| {
      assert text[..n] == text;
    } else {
      var init := text[..|text| - 1];
      assert init[..n] == text[..n];
      MissingStays(s, init, n);
      var before, all := Statements(init), Statements(text);
      assert all != before ==> all[..|all| - 1] == before;
    }
  }

  // ---------------------------------------------------------------- text

  predicate IsPrefix(p: string, t: string) { |p| <= |t| && t[..|p|] == p }

  /** `str_replace` with the empty string. */
  function Remove(p: string, t: string): string
    requires p != ""
    decreases |t|
  {
    if t == "" then "" else if IsPrefix(p, t) then Remove(p, t[|p|..]) else [t[0]] + Remove(p, t[1..])
  }

  /** The statement as it is written. */
  function Spelled(i: Include): (r: string)
    ensures r != ""
  {
    i.lead + "\"" + i.name + "\""
  }

  predicate EndsWith(t: string, p: string) { |p| <= |t| && t[|t| - |p|..] == p }

  /** Statement `j` is statement `i`, or `i` with blanks in front: its text holds that of `i`. */
  predicate Holds(j: Include, i: Include) { j.name == i.name && EndsWith(j.lead, i.lead) }

  /** `t` cut at every `p`. */
  function Split(p: string, t: string): (r: seq<string>)
    requires p != ""
    ensures r != []
    decreases |t|
  {
    if t == "" then [""]
    else if IsPrefix(p, t) then [""] + Split(p, t[|p|..])
    else var rest := Split(p, t[1..]); [[t[0]] + rest[0]] + rest[1..]
  }

  /** The parts of an own line, with `content` in between. */
  function Fragments(origin: Path, index: nat, parts: seq<string>, content: seq<Line>): seq<Line>
    requires parts != []
  {
    [Own(origin, index, parts[0])] +
      if |parts| == 1 then [] else content + Fragments(origin, index, parts[1..], content)
  }

  /** `str_replace` of a statement in one line: it also hits where the statement stands
      inside a longer one, or inside an own line. */
  function ReplaceIn(l: Line, i: Include, content: seq<Line>): seq<Line> {
    match l
    case Inc(j) => if Holds(j, i) then content else [l]
    case Own(o, n, t) =>
      if content == [] then [Own(o, n, Remove(Spelled(i), t))]
      else Fragments(o, n, Split(Spelled(i), t), content)
  }

  function StrReplace(text: seq<Line>, i: Include, content: seq<Line>): seq<Line> {
    if text == [] then [] else ReplaceIn(text[0], i, content) + StrReplace(text[1..], i, content)
  }

  /** The text without `#pragma once`. */
  function Tidy(text: seq<Line>): (r: seq<Line>)
    ensures |r| == |text|
    ensures forall k :: 0 <= k < |text| ==>
              r[k] == if text[k].Own? then text[k].(text := Remove("#pragma once", text[k].text)) else text[k]
  {
    seq(|text|, k requires 0 <= k < |text| =>
      if text[k].Own? then text[k].(text := Remove("#pragma once", text[k].text)) else text[k])
  }

  predicate Flat(text: seq<Line>) {
    forall k :: 0 <= k < |text| ==> text[k].Own?
  }

  // ---------------------------------------------------------------- cutting and removing

  /** The parts with `glue` between them. */
  function Joined(glue: string, parts: seq<string>): string
    requires parts != []
  {
    if |parts| == 1 then parts[0] else parts[0] + glue + Joined(glue, parts[1..])
  }

  lemma {:induction false} JoinedCons(glue: string, c: char, parts: seq<string>)
    requires parts != []
    ensures Joined(glue, [[c] + parts[0]] + parts[1..]) == [c] + Joined(glue, parts)
  {
    var longer := [[c] + parts[0]] + parts[1..];
    assert longer[1..] == parts[1..];
    if |parts| > 1 {
      assert [c] + parts[0] + glue + Joined(glue, parts[1..]) == [c] + (parts[0] + glue + Joined(glue, parts[1..]));
    }
  }

  lemma {:induction false} JoinedEmpty(glue: string, parts: seq<string>)
    requires parts != []
    ensures Joined(glue, [""] + parts) == glue + Joined(glue, parts)
  {
    assert ([""] + parts)[1..] == parts && "" + glue == glue;
  }

  /** Cutting a text and joining its parts gives the text; joining them with nothing in
      between gives the text with every `p` the cuts were made at removed. */
  lemma {:induction false} SplitJoins(p: string, t: string)
    requires p != ""
    ensures Joined(p, Split(p, t)) == t && Joined("", Split(p, t)) == Remove(p, t)
    decreases |t|
  {
    if t != "" {
      if IsPrefix(p, t) {
        var rest := Split(p, t[|p|..]);
        SplitJoins(p, t[|p|..]);
        JoinedEmpty(p, rest);
        JoinedEmpty("", rest);
        assert p + t[|p|..] == t && "" + Remove(p, t[|p|..]) == Remove(p, t[|p|..]);
      } else {
        var rest := Split(p, t[1..]);
        SplitJoins(p, t[1..]);
        JoinedCons(p, t[0], rest);
        JoinedCons("", t[0], rest);
        assert [t[0]] + t[1..] == t;
      }
    }
  }

  lemma {:induction false} FirstPartIsPrefix(p: string, t: string)
    requires p != ""
    ensures IsPrefix(Split(p, t)[0], t)
    decreases |t|
  {
    if t != "" && !IsPrefix(p, t) {
      FirstPartIsPrefix(p, t[1..]);
      var part := Split(p, t[1..])[0];
      assert t[..|part| + 1] == [t[0]] + t[1..][..|part|];
    }
  }

  /** No part holds a `p` any more. */
  lemma {:induction false} PartsAreClean(p: string, t: string, n: nat, k: nat)
    requires p != "" && n < |Split(p, t)|
    ensures !StandsAt(p, Split(p, t)[n], k)
    decreases |t|
  {
    if t != "" {
      if IsPrefix(p, t) {
        if n > 0 {
          PartsAreClean(p, t[|p|..], n - 1, k);
        }
      } else if n > 0 {
        PartsAreClean(p, t[1..], n, k);
      } else if k > 0 {
        var part := Split(p, t[1..])[0];
        PartsAreClean(p, t[1..], 0, k - 1);
        assert k <= |part| + 1 ==> ([t[0]] + part)[k..] == part[k - 1..];
      } else {
        FirstPartIsPrefix(p, t);
        var part := Split(p, t)[0];
        assert part[0..] == part;
        assert |p| <= |part| ==> part[..|p|] == t[..|part|][..|p|] == t[..|p|];
      }
    }
  }

  predicate NoQuote(i: Include) { '"' !in i.lead && '"' !in i.name }

  ghost predicate StandsAt(p: string, t: string, k: nat) {
    k <= |t| && IsPrefix(p, t[k..])
  }

  lemma {:induction false} SubstringHolds(j: Include, i: Include, k: nat)
    requires NoQuote(i) && NoQuote(j) && StandsAt(Spelled(i), Spelled(j), k)
    ensures Holds(j, i)
  {
    var p, t := Spelled(i), Spelled(j);
    forall n | 0 <= n < |p| ensures p[n] == t[k + n] {
      assert t[k..][..|p|][n] == t[k + n];
    }
    assert t[k + |i.lead|] == t[k + |p| - 1] == '"';
    assert k + |i.lead| == |j.lead| && k + |p| == |t|;
    forall n | 0 <= n < |i.name| ensures i.name[n] == j.name[n] {
      assert p[|i.lead| + 1 + n] == t[k + |i.lead| + 1 + n];
    }
    forall n | 0 <= n < |i.lead| ensures i.lead[n] == j.lead[k + n] {
      assert p[n] == t[k + n];
    }
  }

  /** One statement holds another exactly when the text of the other stands in its text. */
  lemma {:induction false} HoldsIsSubstring(j: Include, i: Include)
    requires NoQuote(i) && NoQuote(j)
    ensures Holds(j, i) <==> exists k: nat :: StandsAt(Spelled(i), Spelled(j), k)
  {
    if Holds(j, i) {
      assert Spelled(j)[|j.lead| - |i.lead|..] == Spelled(i);
      assert StandsAt(Spelled(i), Spelled(j), |j.lead| - |i.lead|);
    }
    forall k: nat | StandsAt(Spelled(i), Spelled(j), k) ensures Holds(j, i) {
      SubstringHolds(j, i, k);
    }
  }

  // ---------------------------------------------------------------- what the program computes

  /** An expanded text and the files written by then. */
  datatype Out = Out(text: seq<Line>, written: set<Path>)

  function ExpandFile(s: Source, f: Path, w: set<Path>): (r: Result<Out, string>)
    ensures r.Ok? ==> w + {f} <= r.value.written
    decreases s.files.Keys - w, 0
  {
    if f in w then Ok(Out([], w))
    else if f !in s.files then Ok(Out([], w + {f}))
    else match Targets(s, Statements(s.files[f]))
      case Err(e) => Err(e)
      case Ok(ps) =>
        match ReplaceAll(s, s.files[f], Statements(s.files[f]), ps, w + {f})
        case Err(e) => Err(e)
        case Ok(o) => Ok(Out(Tidy(o.text), o.written))
  }

  /** Replaces the statements, one after the other, everywhere in the text. */
  function ReplaceAll(s: Source, text: seq<Line>, incs: seq<Include>, ps: seq<Path>, w: set<Path>)
    : (r: Result<Out, string>)
    requires |incs| == |ps|
    ensures r.Ok? ==> w <= r.value.written
    decreases s.files.Keys - w, 1, |incs|
  {
    if incs == [] then Ok(Out(text, w))
    else match ExpandFile(s, ps[0], w)
      case Err(e) => Err(e)
      case Ok(o) => ReplaceAll(s, StrReplace(text, incs[0], o.text), incs[1..], ps[1..], o.written)
  }

  /** The main files, one after the other, with one set of written files. */
  function Program(s: Source, mains: seq<Path>): Result<Out, string> {
    if mains == [] then Ok(Out([], {}))
    else match Program(s, mains[..|mains| - 1])
      case Err(e) => Err(e)
      case Ok(o) =>
        match ExpandFile(s, mains[|mains| - 1], o.written)
        case Err(e) => Err(e)
        case Ok(last) => Ok(Out(o.text + last.text, last.written))
  }

  const HEADER := Own("", 0, "#pragma once")

  class Amalgamation {
    const source: Source
    var writtenFiles: set<Path>

    constructor (source: Source)
      ensures this.source == source && writtenFiles == {}
    {
      this.source, writtenFiles := source, {};
    }

    method GetContent(f: Path) returns (r: Result<seq<Line>, string>)
      modifies this
      ensures match ExpandFile(source, f, old(writtenFiles))
              case Ok(o) => r == Ok(o.text) && writtenFiles == o.written
              case Err(e) => r == Err(e)
      decreases source.files.Keys - writtenFiles, 0
    {
      if f in writtenFiles {
        return Ok([]);
      }
      writtenFiles := writtenFiles + {f};
      if f !in source.files {
        return Ok([]);
      }
      var text := source.files[f];
      var includes := GetIncludes(source, text);
      if includes.Err? {
        return Err(includes.error);
      }
      var (statements, files) := includes.value;
      ghost var start := writtenFiles;
      for k := 0 to |files|
        invariant |statements| == |files| && start <= writtenFiles
        invariant ReplaceAll(source, source.files[f], statements, files, start)
               == ReplaceAll(source, text, statements[k..], files[k..], writtenFiles)
      {
        assert statements[k..][1..] == statements[k + 1..] && files[k..][1..] == files[k + 1..];
        var content := GetContent(files[k]);
        if content.Err? {
          return Err(content.error);
        }
        text := StrReplace(text, statements[k], content.value);
      }
      return Ok(Tidy(text));
    }

    method Amalgamate(mains: seq<Path>) returns (r: Result<seq<Line>, string>)
      requires writtenFiles == {}
      modifies this
      ensures match Program(source, mains)
              case Ok(o) => r == Ok([Own("", 0, "#pragma once")] + o.text) && writtenFiles == o.written
              case Err(e) => r == Err(e)
    {
      hide ExpandFile;
      var contents := [HEADER];
      for n := 0 to |mains|
        invariant Program(source, mains[..n]).Ok?
        invariant contents == [HEADER] + Program(source, mains[..n]).value.text
        invariant writtenFiles == Program(source, mains[..n]).value.written
      {
        assert mains[..n + 1][..n] == mains[..n];
        var content := GetContent(mains[n]);
        if content.Err? {
          FailureStays(source, mains, n + 1);
          return Err(content.error);
        }
        contents := contents + content.value;
      }
      assert mains[..|mains|] == mains;
      return Ok(contents);
    }
  }

  lemma {:induction false} FailureStays(s: Source, mains: seq<Path>, n: nat)
    requires n <= |mains| && Program(s, mains[..n]).Err?
    ensures Program(s, mains) == Program(s, mains[..n])
    decreases |mains|
  {
    if n == |mains| {
      assert mains[..n] == mains;
    } else {
      var init := mains[..|mains| - 1];
      assert init[..n] == mains[..n];
      FailureStays(s, init, n);
    }
  }
}
