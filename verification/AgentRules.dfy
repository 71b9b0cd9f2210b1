/** scripts/agent_rules.py: copies of AGENTS.md kept equal up to line endings. */
module AgentRules {
  import opened Wrappers

  type Byte = b: int | 0 <= b < 256

  const LF: Byte := 10
  const CR: Byte := 13

  type Bytes = seq<Byte>

  // ---- Normalisation --------------------------------------------------------------------

  /** Python's `data.replace(pattern, subst)`. */
  function Replace(data: Bytes, pattern: Bytes, subst: Bytes): Bytes
    requires pattern != []
  {
    if |data| < |pattern| then data
    else if data[..|pattern|] == pattern then subst + Replace(data[|pattern|..], pattern, subst)
    else [data[0]] + Replace(data[1..], pattern, subst)
  }

  predicate EndsInLF(data: Bytes) {
    data != [] && data[|data| - 1] == LF
  }

  function Normalize(data: Bytes): Bytes {
    var unix := Replace(Replace(data, [CR, LF], [LF]), [CR], [LF]);
    if EndsInLF(unix) then unix else unix + [LF]
  }

  /** One pass over the bytes: CR LF, CR and LF each become LF. */
  function Universal(data: Bytes): Bytes {
    if data == [] then []
    else if data[0] == CR then [LF] + Universal(if |data| > 1 && data[1] == LF then data[2..] else data[1..])
    else [data[0]] + Universal(data[1..])
  }

  lemma {:induction false} TwoPassesAreOne(data: Bytes)
    ensures Replace(Replace(data, [CR, LF], [LF]), [CR], [LF]) == Universal(data)
    decreases |data|
  {
    var inner := Replace(data, [CR, LF], [LF]);
    if |data| >= 2 && data[..2] == [CR, LF] {
      assert data[0] == CR && data[1] == LF;
      ReplaceCRStep(LF, Replace(data[2..], [CR, LF], [LF]));
      TwoPassesAreOne(data[2..]);
    } else if data != [] {
      assert |data| >= 2 ==> data[..2] == [data[0], data[1]];
      if |data| == 1 {
        assert data == [data[0]] + [];
        ReplaceCRStep(data[0], []);
      } else {
        ReplaceCRStep(data[0], Replace(data[1..], [CR, LF], [LF]));
        TwoPassesAreOne(data[1..]);
      }
    }
  }

  lemma ReplaceCRStep(b: Byte, rest: Bytes)
    ensures Replace([b] + rest, [CR], [LF]) == [if b == CR then LF else b] + Replace(rest, [CR], [LF])
  {
  }

  // ---- Lines ----------------------------------------------------------------------------

  /** Python's `data.splitlines()`. */
  function SplitLines(data: Bytes): (lines: seq<Bytes>)
    ensures lines == [] <==> data == []
  {
    if data == [] then []
    else if data[0] == CR && |data| > 1 && data[1] == LF then [[]] + SplitLines(data[2..])
    else if data[0] == CR || data[0] == LF then [[]] + SplitLines(data[1..])
    else if |data| == 1 then [data]
    else
      var rest := SplitLines(data[1..]);
      [[data[0]] + rest[0]] + rest[1..]
  }

  /** The lines of a file; an empty file counts as one empty line. */
  function Lines(data: Bytes): seq<Bytes> {
    if data == [] then [[]] else SplitLines(data)
  }

  function Unlines(lines: seq<Bytes>): Bytes {
    if lines == [] then [] else lines[0] + [LF] + Unlines(lines[1..])
  }

  predicate LineOf(line: Bytes) {
    CR !in line && LF !in line
  }

  lemma {:induction false} LinesHaveNoBreaks(data: Bytes)
    ensures forall l | l in SplitLines(data) :: LineOf(l)
    decreases |data|
  {
    if data == [] {
    } else if data[0] == CR && |data| > 1 && data[1] == LF {
      LinesHaveNoBreaks(data[2..]);
    } else if data[0] == CR || data[0] == LF {
      LinesHaveNoBreaks(data[1..]);
    } else if |data| > 1 {
      LinesHaveNoBreaks(data[1..]);
      assert LineOf(SplitLines(data[1..])[0]);
    }
  }

  function Terminated(data: Bytes): Bytes {
    if EndsInLF(data) then data else data + [LF]
  }

  lemma TerminatedStep(b: Byte, data: Bytes)
    requires data != []
    ensures Terminated([b] + data) == [b] + Terminated(data)
  {
  }

  lemma {:induction false} UniversalEmpty(data: Bytes)
    ensures Universal(data) == [] <==> data == []
  {
  }

  lemma Regroup(b: Byte, x: Bytes, y: Bytes)
    ensures ([b] + x) + [LF] + y == [b] + (x + [LF] + y)
  {
  }

  lemma UnlinesStep(b: Byte, lines: seq<Bytes>)
    requires lines != []
    ensures Unlines([[b] + lines[0]] + lines[1..]) == [b] + Unlines(lines)
  {
    var longer := [[b] + lines[0]] + lines[1..];
    assert longer[0] == [b] + lines[0] && longer[1..] == lines[1..];
    Regroup(b, lines[0], Unlines(lines[1..]));
  }

  lemma UnlinesEmptyLine(lines: seq<Bytes>)
    ensures Unlines([[]] + lines) == [LF] + Unlines(lines)
  {
  }

  /** Normalising a non-empty file terminates each of its lines by one LF. */
  lemma {:induction false} UniversalIsUnlines(data: Bytes)
    requires data != []
    ensures Terminated(Universal(data)) == Unlines(SplitLines(data))
    decreases |data|
  {
    if data[0] == CR || data[0] == LF {
      var rest := if data[0] == CR && |data| > 1 && data[1] == LF then data[2..] else data[1..];
      UnlinesEmptyLine(SplitLines(rest));
      UniversalEmpty(rest);
      if rest != [] {
        UniversalIsUnlines(rest);
        TerminatedStep(LF, Universal(rest));
      }
    } else if |data| == 1 {
      assert Universal(data) == data && SplitLines(data) == [data];
      assert [data][1..] == [];
    } else {
      UniversalIsUnlines(data[1..]);
      UniversalEmpty(data[1..]);
      TerminatedStep(data[0], Universal(data[1..]));
      UnlinesStep(data[0], SplitLines(data[1..]));
    }
  }

  /** The normal form of a file is its lines, each ended by LF. */
  lemma NormalFormIsLines(data: Bytes)
    ensures Normalize(data) == Terminated(Universal(data)) == Unlines(Lines(data))
  {
    TwoPassesAreOne(data);
    if data == [] {
      UnlinesEmptyLine([]);
      assert Lines(data) == [[]] + [];
    } else {
      UniversalIsUnlines(data);
    }
  }

  /** 10, 13 followed by 10, and 13 followed by anything else or nothing end a line. */
  predicate Ends(end: Bytes, rest: Bytes) {
    end == [10] || end == [13, 10] || (end == [13] && (rest == [] || rest[0] != 10))
  }

  lemma EndAlone(end: Bytes, rest: Bytes)
    requires Ends(end, rest)
    ensures SplitLines(end + rest) == [[]] + SplitLines(rest)
  {
    assert (end + rest)[|end|..] == rest;
  }

  lemma SplitCons(b: Byte, data: Bytes, line: Bytes, lines: seq<Bytes>)
    requires b != 10 && b != 13 && data != [] && SplitLines(data) == [line] + lines
    ensures SplitLines([b] + data) == [[b] + line] + lines
  {
    assert ([b] + data)[1..] == data;
  }

  lemma Uncons(line: Bytes, end: Bytes, rest: Bytes)
    requires line != []
    ensures line + end + rest == [line[0]] + (line[1..] + end + rest)
    ensures line == [line[0]] + line[1..] && line[0] in line
  {
  }

  /** What the lines of a file are: up to the first end of line, and then the lines of the rest. */
  lemma {:induction false} LineEnds(line: Bytes, end: Bytes, rest: Bytes)
    requires 10 !in line && 13 !in line && Ends(end, rest)
    ensures SplitLines(line + end + rest) == [line] + SplitLines(rest)
    decreases |line|
  {
    if line == [] {
      assert line + end + rest == end + rest;
      EndAlone(end, rest);
    } else {
      Uncons(line, end, rest);
      LineEnds(line[1..], end, rest);
      SplitCons(line[0], line[1..] + end + rest, line[1..], SplitLines(rest));
    }
  }

  /** The last line needs no end. */
  lemma {:induction false} LastLine(line: Bytes)
    requires 10 !in line && 13 !in line
    ensures SplitLines(line) == if line == [] then [] else [line]
    decreases |line|
  {
    if |line| > 1 {
      LastLine(line[1..]);
      Uncons(line, [], []);
      SplitCons(line[0], line[1..], line[1..], []);
    }
  }

  lemma {:induction false} SplitUnlines(lines: seq<Bytes>)
    requires forall l | l in lines :: LineOf(l)
    ensures SplitLines(Unlines(lines)) == lines
  {
    if lines != [] {
      SplitUnlines(lines[1..]);
      assert LineOf(lines[0]);
      LineEnds(lines[0], [LF], Unlines(lines[1..]));
    }
  }

  /** Normalising keeps the lines. */
  lemma NormalizeKeepsLines(data: Bytes)
    ensures Lines(Normalize(data)) == Lines(data)
  {
    NormalFormIsLines(data);
    LinesHaveNoBreaks(data);
    SplitUnlines(Lines(data));
    assert Normalize(data) != [];
  }

  /** Two files have one normal form exactly when they have the same lines. */
  lemma SameNormalFormSameLines(a: Bytes, b: Bytes)
    ensures Normalize(a) == Normalize(b) <==> Lines(a) == Lines(b)
  {
    NormalFormIsLines(a);
    NormalFormIsLines(b);
    NormalizeKeepsLines(a);
    NormalizeKeepsLines(b);
  }

  lemma {:induction false} UniversalHasNoCR(data: Bytes)
    ensures CR !in Universal(data)
    decreases |data|
  {
    if data != [] {
      UniversalHasNoCR(if data[0] == CR && |data| > 1 && data[1] == LF then data[2..] else data[1..]);
    }
  }

  /** The normal form has no CR, ends in LF, and is its own normal form. */
  lemma NormalFormIsNormal(data: Bytes)
    ensures 13 !in Normalize(data) && Normalize(data) != [] && Normalize(data)[|Normalize(data)| - 1] == 10
    ensures Normalize(Normalize(data)) == Normalize(data)
  {
    NormalFormIsLines(data);
    UniversalHasNoCR(data);
    NormalizeKeepsLines(data);
    SameNormalFormSameLines(data, Normalize(data));
  }

  // ---- Sync and check -------------------------------------------------------------------

  type Files = map<string, Bytes>

  const SOURCE := "AGENTS.md"
  const TARGETS: seq<string> := [".clinerules", ".cursorrules", ".github/copilot-instructions.md"]

  /** The test of `_sync` and `_check` on the contents of a target. */
  function HasForm(data: Bytes): Bytes -> bool {
    (contents: Bytes) => Normalize(contents) == data
  }

  predicate IsStale(files: Files, fits: Bytes -> bool, target: string) {
    target !in files || !fits(files[target])
  }

  /** The number of stale ones among the first `n` targets. */
  function CountStale(files: Files, fits: Bytes -> bool, targets: seq<string>, n: nat): nat
    requires n <= |targets|
  {
    if n == 0 then 0
    else CountStale(files, fits, targets, n - 1) + if IsStale(files, fits, targets[n - 1]) then 1 else 0
  }

  /** The stale ones of `targets` were overwritten with `data`, and nothing else changed. */
  ghost predicate Updated(before: Files, after: Files, data: Bytes, fits: Bytes -> bool, targets: set<string>) {
    && after.Keys == before.Keys + targets
    && (forall p | p in after ::
          after[p] == if p in targets && IsStale(before, fits, p) then data else before[p])
  }

  /** Every target exists and has the source's lines. */
  ghost predicate InSync(files: Files) {
    SOURCE in files && forall t | t in TARGETS :: t in files && Lines(files[t]) == Lines(files[SOURCE])
  }

  function FirstOf(targets: seq<string>, n: nat): set<string>
    requires n <= |targets|
  {
    if n == 0 then {} else FirstOf(targets, n - 1) + {targets[n - 1]}
  }

  lemma {:induction false} FirstOfMembers(targets: seq<string>, n: nat)
    requires n <= |targets|
    ensures forall t :: t in FirstOf(targets, n) <==> exists k :: 0 <= k < n && targets[k] == t
  {
    if n > 0 { FirstOfMembers(targets, n - 1); }
  }

  lemma NotAmongFirst(targets: seq<string>, n: nat)
    requires n < |targets| && forall i, j | 0 <= i < j < |targets| :: targets[i] != targets[j]
    ensures targets[n] !in FirstOf(targets, n)
  {
    FirstOfMembers(targets, n);
  }

  lemma TargetsAreDistinct()
    ensures SOURCE !in FirstOf(TARGETS, |TARGETS|)
    ensures forall i, j | 0 <= i < j < |TARGETS| :: TARGETS[i] != TARGETS[j]
  {
    FirstOfMembers(TARGETS, |TARGETS|);
  }

  /** The files and the number of writes after `n` rounds of the loop of `_sync`. */
  ghost function Written(files: Files, writes: nat, data: Bytes, fits: Bytes -> bool, targets: seq<string>, n: nat)
    : (Files, nat)
    requires n <= |targets|
  {
    if n == 0 then (files, writes)
    else
      var (f, w) := Written(files, writes, data, fits, targets, n - 1);
      if IsStale(f, fits, targets[n - 1]) then (f[targets[n - 1] := data], w + 1) else (f, w)
  }

  /** Writing the earlier targets does not change whether the next one is stale. */
  lemma UpdateNext(before: Files, files: Files, data: Bytes, fits: Bytes -> bool, done: set<string>, target: string)
    requires Updated(before, files, data, fits, done) && target !in done
    ensures IsStale(files, fits, target) == IsStale(before, fits, target)
    ensures Updated(before, if IsStale(files, fits, target) then files[target := data] else files, data, fits, done + {target})
  {
  }

  lemma {:induction false} WrittenIsUpdated(files: Files, writes: nat, data: Bytes, fits: Bytes -> bool,
                                            targets: seq<string>, n: nat)
    requires n <= |targets| && forall i, j | 0 <= i < j < |targets| :: targets[i] != targets[j]
    ensures Updated(files, Written(files, writes, data, fits, targets, n).0, data, fits, FirstOf(targets, n))
    ensures Written(files, writes, data, fits, targets, n).1 == writes + CountStale(files, fits, targets, n)
  {
    if n > 0 {
      WrittenIsUpdated(files, writes, data, fits, targets, n - 1);
      NotAmongFirst(targets, n - 1);
      UpdateNext(files, Written(files, writes, data, fits, targets, n - 1).0, data, fits, FirstOf(targets, n - 1), targets[n - 1]);
    }
  }

  class Repository {
    var files: Files
    /** The number of `write_bytes` calls so far. */
    ghost var writes: nat

    constructor (files: Files)
      ensures this.files == files && writes == 0
    {
      this.files := files;
      writes := 0;
    }

    /** `_normalized_bytes`; None for a missing file. */
    method NormalizedBytes(path: string) returns (r: Option<Bytes>)
      ensures r == if path in files then Some(Unlines(Lines(files[path]))) else None
      ensures path in files ==> r == Some(Normalize(files[path]))
    {
      if path !in files {
        return None;
      }
      NormalFormIsLines(files[path]);
      var data := files[path];
      data := Replace(Replace(data, [CR, LF], [LF]), [CR], [LF]);
      if !EndsInLF(data) {
        data := data + [LF];
      }
      return Some(data);
    }

    /** The loop of `_sync` over any list of distinct targets. */
    method SyncTargets(targets: seq<string>, data: Bytes)
      requires forall i, j | 0 <= i < j < |targets| :: targets[i] != targets[j]
      modifies this
      ensures Updated(old(files), files, data, HasForm(data), FirstOf(targets, |targets|))
      ensures writes == old(writes) + CountStale(old(files), HasForm(data), targets, |targets|)
    {
      ghost var before := files;
      for i := 0 to |targets|
        invariant (files, writes) == Written(before, old(writes), data, HasForm(data), targets, i)
      {
        var target := targets[i];
        var copy := NormalizedBytes(target);
        if copy.None? || copy.value != data {
          files := files[target := data];
          writes := writes + 1;
        }
      }
      WrittenIsUpdated(before, old(writes), data, HasForm(data), targets, |targets|);
    }

    /** `_sync`: 0, or None when the source is missing. */
    method Sync() returns (code: Option<int>)
      modifies this
      ensures SOURCE !in old(files) ==> code == None && files == old(files) && writes == old(writes)
      ensures SOURCE in old(files) ==>
                var data := Normalize(old(files)[SOURCE]);
                && code == Some(0) && InSync(files)
                && Updated(old(files), files, data, HasForm(data), FirstOf(TARGETS, |TARGETS|))
                && writes == old(writes) + CountStale(old(files), HasForm(data), TARGETS, |TARGETS|)
      ensures SOURCE in old(files) ==>
                && (forall t :: t in files <==> t in old(files) || Named(t))
                && (forall t | Named(t) && !(t in old(files) && Lines(old(files)[t]) == Lines(old(files)[SOURCE])) ::
                      t in files && files[t] == Normalize(old(files)[SOURCE]))
                && (forall t | t in old(files) && (!Named(t) || Lines(old(files)[t]) == Lines(old(files)[SOURCE])) ::
                      t in files && files[t] == old(files)[t])
    {
      var source := NormalizedBytes(SOURCE);
      if source.None? {
        return None;
      }
      TargetsAreDistinct();
      SyncTargets(TARGETS, source.value);
      UpdateEstablishesInSync(old(files), files);
      UpdateByName(old(files), files);
      return Some(0);
    }

    /** `_check`: 0 or 1, or None when the source is missing. */
    method Check() returns (code: Option<int>)
      ensures code.None? <==> SOURCE !in files
      ensures code == Some(0) <==> InSync(files)
      ensures code == Some(0) <==>
                && "AGENTS.md" in files
                && forall t | t == ".clinerules" || t == ".cursorrules" || t == ".github/copilot-instructions.md" ::
                     t in files && Lines(files[t]) == Lines(files["AGENTS.md"])
      ensures code.Some? ==> code.value == 0 || code.value == 1
    {
      var source := NormalizedBytes(SOURCE);
      if source.None? {
        return None;
      }
      InSyncIffNoneStale(files);
      forall t ensures t in TARGETS <==> Named(t) { TargetsByName(t); }
      var bad := CountStale(files, HasForm(source.value), TARGETS, |TARGETS|);
      return Some(if bad != 0 then 1 else 0);
    }
  }

  lemma {:induction false} NoneStale(files: Files, fits: Bytes -> bool, targets: seq<string>, n: nat)
    requires n <= |targets|
    ensures CountStale(files, fits, targets, n) == 0 <==> forall k | 0 <= k < n :: !IsStale(files, fits, targets[k])
  {
    if n > 0 { NoneStale(files, fits, targets, n - 1); }
  }

  lemma InSyncIffNoneStale(files: Files)
    requires SOURCE in files
    ensures InSync(files) <==> CountStale(files, HasForm(Normalize(files[SOURCE])), TARGETS, |TARGETS|) == 0
  {
    NoneStale(files, HasForm(Normalize(files[SOURCE])), TARGETS, |TARGETS|);
    forall t | t in files
      ensures Lines(files[t]) == Lines(files[SOURCE]) <==> Normalize(files[t]) == Normalize(files[SOURCE])
    {
      SameNormalFormSameLines(files[t], files[SOURCE]);
    }
  }

  predicate Named(t: string) {
    t == ".clinerules" || t == ".cursorrules" || t == ".github/copilot-instructions.md"
  }

  lemma TargetsByName(t: string)
    ensures t in TARGETS <==> Named(t)
    ensures t in FirstOf(TARGETS, |TARGETS|) <==> Named(t)
  {
    FirstOfMembers(TARGETS, |TARGETS|);
    assert TARGETS[0] == ".clinerules" && TARGETS[1] == ".cursorrules" && TARGETS[2] == ".github/copilot-instructions.md";
  }

  /** What a sync does, file by file. */
  lemma UpdateByName(before: Files, after: Files)
    requires SOURCE in before
    requires var data := Normalize(before[SOURCE]);
             Updated(before, after, data, HasForm(data), FirstOf(TARGETS, |TARGETS|))
    ensures forall t :: t in after <==> t in before || Named(t)
    ensures forall t | Named(t) && !(t in before && Lines(before[t]) == Lines(before[SOURCE])) ::
              t in after && after[t] == Normalize(before[SOURCE])
    ensures forall t | t in before && (!Named(t) || Lines(before[t]) == Lines(before[SOURCE])) ::
              t in after && after[t] == before[t]
  {
    forall t
      ensures t in FirstOf(TARGETS, |TARGETS|) <==> Named(t)
      ensures t in before ==> (Lines(before[t]) == Lines(before[SOURCE]) <==> Normalize(before[t]) == Normalize(before[SOURCE]))
    {
      TargetsByName(t);
      if t in before { SameNormalFormSameLines(before[t], before[SOURCE]); }
    }
  }

  lemma UpdateLeavesNoneStale(before: Files, after: Files, data: Bytes, fits: Bytes -> bool, targets: seq<string>)
    requires Updated(before, after, data, fits, FirstOf(targets, |targets|)) && fits(data)
    ensures CountStale(after, fits, targets, |targets|) == 0
  {
    NoneStale(after, fits, targets, |targets|);
    FirstOfMembers(targets, |targets|);
    forall k | 0 <= k < |targets| ensures !IsStale(after, fits, targets[k]) {
      assert targets[k] in FirstOf(targets, |targets|);
    }
  }

  /** After a sync the check passes, and a second sync has nothing to write. */
  lemma UpdateEstablishesInSync(before: Files, after: Files)
    requires SOURCE in before
    requires var data := Normalize(before[SOURCE]);
             Updated(before, after, data, HasForm(data), FirstOf(TARGETS, |TARGETS|))
    ensures SOURCE in after && after[SOURCE] == before[SOURCE]
    ensures InSync(after) && CountStale(after, HasForm(Normalize(after[SOURCE])), TARGETS, |TARGETS|) == 0
  {
    var data := Normalize(before[SOURCE]);
    TargetsAreDistinct();
    NormalFormIsNormal(before[SOURCE]);
    UpdateLeavesNoneStale(before, after, data, HasForm(data), TARGETS);
    InSyncIffNoneStale(after);
  }
}
