// The per-file evolution pipeline (processFile) and the batch loop of a run.
// For each file: extract and deduplicate candidates, visit them from the last
// offset to the first, ask the evolver for a rewrite of every candidate that is
// not too simple and scores above zero, splice accepted rewrites into the
// working content, save and check the file once, make one self-correction
// attempt when the check fails, and keep or revert the file.
module Pipeline {
  import opened Wrappers
  import opened JsText
  import opened Analyzer
  import opened Limiter
  import opened Evolver
  import opened Splicing
  import Validator

  /** The evolver as processFile calls it, `evolveFunction(name, body)`, over an evolver state of
      type S: the new state and the outcome. The imperative pipeline below instantiates it with the
      evolver model (EvolverCall). */
  type EvolveCall<!S> = (S, string, string) -> (S, EvolveOutcome)

  // ---------------------------------------------------------------------------
  // Candidate filters
  // ---------------------------------------------------------------------------

  /** `body.split('\n').length` */
  function LineCount(body: string): nat
  {
    Count(body, '\n') + 1
  }

  /** Too simple to evolve: fewer than 4 lines AND fewer than 60 characters. */
  predicate TooSimple(body: string)
  {
    LineCount(body) < 4 && |body| < 60
  }

  /** A candidate is sent to the evolver when it is not too simple and scores above zero. */
  predicate Eligible(c: Candidate)
  {
    !TooSimple(c.functionBody) && Score(c.functionBody) > 0
  }

  /** The bracket guard: as many `{` as `}` and as many `(` as `)`. */
  predicate Balanced(code: string)
  {
    Count(code, '{') == Count(code, '}') && Count(code, '(') == Count(code, ')')
  }

  /** A rewrite is spliced in when it is not blank, differs from the body, and is balanced. */
  predicate Accepts(code: string, body: string)
  {
    !IsBlank(code) && code != body && Balanced(code)
  }

  /** Either condition alone keeps a candidate: a body of four lines or more is never too simple,
      however short, and neither is a body of 60 characters or more. */
  lemma TooSimpleNeedsBoth(body: string)
    ensures Count(body, '\n') >= 3 ==> !TooSimple(body)
    ensures |body| >= 60 ==> !TooSimple(body)
    ensures TooSimple(body) ==> |body| < 60 && Count(body, '\n') <= 2
  {
  }

  // ---------------------------------------------------------------------------
  // Visiting order
  // ---------------------------------------------------------------------------

  /** Insert `c` after every candidate that starts at or after it. */
  function InsertByStart(sorted: seq<Candidate>, c: Candidate): (r: seq<Candidate>)
    ensures |r| == |sorted| + 1
  {
    if sorted == [] then [c]
    else if sorted[0].startIndex >= c.startIndex then [sorted[0]] + InsertByStart(sorted[1..], c)
    else [c] + sorted
  }

  /** `[...functions].sort((a, b) => b.startIndex - a.startIndex)`: a stable sort by descending start. */
  function SortByStartDesc(cs: seq<Candidate>): (r: seq<Candidate>)
    ensures |r| == |cs|
  {
    if cs == [] then [] else InsertByStart(SortByStartDesc(cs[..|cs| - 1]), cs[|cs| - 1])
  }

  ghost predicate StartDescending(cs: seq<Candidate>)
  {
    forall i, j | 0 <= i < j < |cs| :: cs[i].startIndex >= cs[j].startIndex
  }

  lemma {:induction false} InsertByStartBound(sorted: seq<Candidate>, c: Candidate, bound: nat)
    requires forall k | 0 <= k < |sorted| :: sorted[k].startIndex <= bound
    requires c.startIndex <= bound
    ensures forall k | 0 <= k < |InsertByStart(sorted, c)| :: InsertByStart(sorted, c)[k].startIndex <= bound
    decreases |sorted|
  {
    if sorted != [] && sorted[0].startIndex >= c.startIndex {
      InsertByStartBound(sorted[1..], c, bound);
    }
  }

  lemma {:induction false} InsertByStartSpec(sorted: seq<Candidate>, c: Candidate)
    requires StartDescending(sorted)
    ensures StartDescending(InsertByStart(sorted, c))
    decreases |sorted|
  {
    if sorted != [] && sorted[0].startIndex >= c.startIndex {
      var rest := InsertByStart(sorted[1..], c);
      InsertByStartSpec(sorted[1..], c);
      InsertByStartBound(sorted[1..], c, sorted[0].startIndex);
      var r := [sorted[0]] + rest;
      forall i, j | 0 <= i < j < |r| ensures r[i].startIndex >= r[j].startIndex {
        if i > 0 {
          assert r[i] == rest[i - 1] && r[j] == rest[j - 1];
        } else {
          assert r[j] == rest[j - 1];
        }
      }
    }
  }

  lemma {:induction false} InsertByStartPermutes(sorted: seq<Candidate>, c: Candidate)
    ensures multiset(InsertByStart(sorted, c)) == multiset(sorted) + multiset{c}
    decreases |sorted|
  {
    if sorted != [] && sorted[0].startIndex >= c.startIndex {
      InsertByStartPermutes(sorted[1..], c);
      assert sorted == [sorted[0]] + sorted[1..];
    }
  }

  lemma {:induction false} SortByStartDescSorted(cs: seq<Candidate>)
    ensures StartDescending(SortByStartDesc(cs))
  {
    if cs != [] {
      var init := cs[..|cs| - 1];
      SortByStartDescSorted(init);
      InsertByStartSpec(SortByStartDesc(init), cs[|cs| - 1]);
    }
  }

  lemma {:induction false} SortByStartDescPermutes(cs: seq<Candidate>)
    ensures multiset(SortByStartDesc(cs)) == multiset(cs)
  {
    if cs != [] {
      var init, last := cs[..|cs| - 1], cs[|cs| - 1];
      SortByStartDescPermutes(init);
      InsertByStartPermutes(SortByStartDesc(init), last);
      assert cs == init + [last];
    }
  }

  /** Candidates are visited in non-increasing start order, and every candidate is visited. */
  lemma SortByStartDescSpec(cs: seq<Candidate>)
    ensures StartDescending(SortByStartDesc(cs))
    ensures multiset(SortByStartDesc(cs)) == multiset(cs)
  {
    SortByStartDescSorted(cs);
    SortByStartDescPermutes(cs);
  }

  // ---------------------------------------------------------------------------
  // The rewrite loop
  // ---------------------------------------------------------------------------

  /** The loop's state: the evolver, the working content, the rewrites spliced so far, and whether
      a call is waiting for a limiter slot (after which the loop never resumes). */
  datatype LoopState<S> = LoopState(evolver: S, content: string, edits: seq<Edit>, stalled: bool)

  /** One iteration for candidate `c`. An exception from the evolver is caught and the candidate skipped. */
  function Visit<S>(evolve: EvolveCall<S>, gate: Candidate -> bool, ls: LoopState<S>, c: Candidate): (r: LoopState<S>)
  {
    if !gate(c) then ls
    else
      var (st, out) := evolve(ls.evolver, c.functionName, c.functionBody);
      match out
      case Parked => ls.(evolver := st, stalled := true)
      case Threw(_) => ls.(evolver := st)
      case Returned(code) =>
        if Accepts(code, c.functionBody) then
          ls.(evolver := st,
              content := Splice(ls.content, c.startIndex, c.endIndex, code),
              edits := ls.edits + [Edit(c.startIndex, c.endIndex, code)])
        else ls.(evolver := st)
  }

  /** The loop over the remaining candidates `cs`. */
  function RewriteFrom<S>(evolve: EvolveCall<S>, gate: Candidate -> bool, ls: LoopState<S>, cs: seq<Candidate>): (r: LoopState<S>)
    decreases |cs|
  {
    if cs == [] || ls.stalled then ls
    else RewriteFrom(evolve, gate, Visit(evolve, gate, ls, cs[0]), cs[1..])
  }

  /** With processFile's gate, a candidate that is too simple or scores zero never reaches the
      evolver: nothing changes. Any other makes exactly the evolver call for its name and body. */
  lemma VisitFilters<S>(evolve: EvolveCall<S>, ls: LoopState<S>, c: Candidate)
    ensures TooSimple(c.functionBody) ==> Visit(evolve, Eligible, ls, c) == ls
    ensures Score(c.functionBody) == 0 ==> Visit(evolve, Eligible, ls, c) == ls
    ensures !TooSimple(c.functionBody) && Score(c.functionBody) > 0 ==>
              Visit(evolve, Eligible, ls, c).evolver == evolve(ls.evolver, c.functionName, c.functionBody).0
    ensures Eligible(c) ==>
              var r := Visit(evolve, Eligible, ls, c);
              var out := evolve(ls.evolver, c.functionName, c.functionBody).1;
              && (out.Parked? ==> r.stalled)
              && (!out.Parked? ==> r.stalled == ls.stalled)
              && (out.Parked? || out.Threw? ==> r.content == ls.content && r.edits == ls.edits)
              && (out.Returned? && Accepts(out.code, c.functionBody) ==>
                    && r.content == Splice(ls.content, c.startIndex, c.endIndex, out.code)
                    && r.edits == ls.edits + [Edit(c.startIndex, c.endIndex, out.code)])
              && (out.Returned? && !Accepts(out.code, c.functionBody) ==>
                    r.content == ls.content && r.edits == ls.edits)
  {
  }

  /** The working content is the original content with the loop's edits applied in order; the
      edits only grow. */
  lemma {:induction false} RewriteContent<S>(evolve: EvolveCall<S>, gate: Candidate -> bool, ls: LoopState<S>, cs: seq<Candidate>)
    ensures var r := RewriteFrom(evolve, gate, ls, cs);
      |ls.edits| <= |r.edits| && r.edits[..|ls.edits|] == ls.edits &&
      r.content == ApplyEdits(ls.content, r.edits[|ls.edits|..])
    decreases |cs|
  {
    if cs != [] && !ls.stalled {
      var v := Visit(evolve, gate, ls, cs[0]);
      RewriteContent(evolve, gate, v, cs[1..]);
      var r := RewriteFrom(evolve, gate, v, cs[1..]);
      if |v.edits| == |ls.edits| {
        assert v.content == ls.content;
      } else {
        var e := v.edits[|ls.edits|];
        assert v.edits == ls.edits + [e];
        assert r.edits[|ls.edits|..] == [e] + r.edits[|v.edits|..];
        assert v.content == Splice(ls.content, e.start, e.end, e.code);
      }
    }
  }

  /** Edit `e` replaces the span of one of the candidates `cs` that the gate let through, with code
      that candidate's guard accepted (not blank, not the original body, balanced). */
  ghost predicate MadeFrom(e: Edit, gate: Candidate -> bool, cs: seq<Candidate>)
  {
    exists i | 0 <= i < |cs| ::
      gate(cs[i]) && e.start == cs[i].startIndex && e.end == cs[i].endIndex &&
      Accepts(e.code, cs[i].functionBody)
  }

  lemma MadeFromTail(e: Edit, gate: Candidate -> bool, cs: seq<Candidate>)
    requires cs != [] && MadeFrom(e, gate, cs[1..])
    ensures MadeFrom(e, gate, cs)
  {
    var i :| 0 <= i < |cs| - 1 && gate(cs[1..][i]) && e.start == cs[1..][i].startIndex &&
      e.end == cs[1..][i].endIndex && Accepts(e.code, cs[1..][i].functionBody);
    assert cs[1..][i] == cs[i + 1];
  }

  /** Every edit the loop adds comes from one of the candidates it visited: its span is that
      candidate's span and its code passed that candidate's guard. The edits made before are kept. */
  lemma {:induction false} RewriteEditsFromCandidates<S>(evolve: EvolveCall<S>, gate: Candidate -> bool, ls: LoopState<S>, cs: seq<Candidate>)
    ensures var r := RewriteFrom(evolve, gate, ls, cs);
      && |ls.edits| <= |r.edits| && r.edits[..|ls.edits|] == ls.edits
      && forall k | |ls.edits| <= k < |r.edits| :: MadeFrom(r.edits[k], gate, cs)
    decreases |cs|
  {
    if cs != [] && !ls.stalled {
      var v := Visit(evolve, gate, ls, cs[0]);
      RewriteEditsFromCandidates(evolve, gate, v, cs[1..]);
      var r := RewriteFrom(evolve, gate, v, cs[1..]);
      forall k | |v.edits| <= k < |r.edits| ensures MadeFrom(r.edits[k], gate, cs) {
        MadeFromTail(r.edits[k], gate, cs);
      }
      if |v.edits| != |ls.edits| {
        var e := v.edits[|ls.edits|];
        assert v.edits == ls.edits + [e];
        assert r.edits[|ls.edits|] == e by { assert r.edits[..|v.edits|] == v.edits; }
        assert gate(cs[0]) && e.start == cs[0].startIndex && e.end == cs[0].endIndex &&
          Accepts(e.code, cs[0].functionBody);
      }
      assert r.edits[..|ls.edits|] == r.edits[..|v.edits|][..|ls.edits|];
    }
  }

  /** Candidate spans that are well formed and non-overlapping, in descending order. Nested
      functions violate this; it is what offset-stable splicing needs. */
  ghost predicate SpansDescending(cs: seq<Candidate>)
  {
    (forall i | 0 <= i < |cs| :: cs[i].startIndex <= cs[i].endIndex) &&
    (forall i, j | 0 <= i < j < |cs| :: cs[j].endIndex <= cs[i].startIndex)
  }

  /** Every edit the loop makes replaces a gated candidate's span with code that passed that
      candidate's guard, and on non-overlapping candidates the edits are non-overlapping and
      descending, within the candidates' bound. */
  lemma {:induction false} RewriteEdits<S>(evolve: EvolveCall<S>, gate: Candidate -> bool, ls: LoopState<S>, cs: seq<Candidate>, bound: nat)
    requires SpansDescending(cs) && Descending(ls.edits)
    requires forall k, i | 0 <= k < |ls.edits| && 0 <= i < |cs| :: cs[i].endIndex <= ls.edits[k].start
    requires forall k | 0 <= k < |ls.edits| :: ls.edits[k].end <= bound
    requires forall i | 0 <= i < |cs| :: cs[i].endIndex <= bound
    ensures var r := RewriteFrom(evolve, gate, ls, cs);
      && |ls.edits| <= |r.edits|
      && Descending(r.edits)
      && (forall k | 0 <= k < |r.edits| :: r.edits[k].end <= bound)
      && (forall k | |ls.edits| <= k < |r.edits| :: MadeFrom(r.edits[k], gate, cs))
    decreases |cs|
  {
    RewriteEditsFromCandidates(evolve, gate, ls, cs);
    if cs != [] && !ls.stalled {
      var v := Visit(evolve, gate, ls, cs[0]);
      assert SpansDescending(cs[1..]);
      if |v.edits| != |ls.edits| {
        assert v.edits == ls.edits + [Edit(cs[0].startIndex, cs[0].endIndex, v.edits[|ls.edits|].code)];
      }
      RewriteEdits(evolve, gate, v, cs[1..], bound);
      RewriteContent(evolve, gate, v, cs[1..]);
    }
  }

  /** Offset stability: on non-overlapping candidates inside the content, splicing the accepted
      rewrites one by one from the last offset to the first gives exactly the text obtained by
      replacing all those spans of the ORIGINAL content at once. */
  lemma RewritesAreOffsetStable<S>(evolve: EvolveCall<S>, gate: Candidate -> bool, st: S, content: string, sorted: seq<Candidate>)
    requires SpansDescending(sorted)
    requires forall i | 0 <= i < |sorted| :: sorted[i].endIndex <= |content|
    ensures var r := RewriteFrom(evolve, gate, LoopState(st, content, [], false), sorted);
      Ascending(Reverse(r.edits), 0, |content|) &&
      r.content == Assemble(content, 0, Reverse(r.edits))
  {
    var ls := LoopState(st, content, [], false);
    RewriteContent(evolve, gate, ls, sorted);
    RewriteEdits(evolve, gate, ls, sorted, |content|);
    var r := RewriteFrom(evolve, gate, ls, sorted);
    assert r.edits[0..] == r.edits;
    SequentialEqualsReference(content, r.edits);
  }

  // ---------------------------------------------------------------------------
  // processFile
  // ---------------------------------------------------------------------------

  /** How processFile ends for one file. */
  datatype FileOutcome =
    | Unreadable                                         // the file cannot be read: analyzeFile throws
    | NoFunctions                                        // nothing to evolve
    | Evolved(charsSaved: int, correction: Option<string>) // kept; with the self-correction's code if that was used
    | Reverted(attemptedCorrection: bool)                // the check failed, the backup was restored
    | Rejected(message: string)                          // an exception escaped processFile
    | Stalled                                            // an evolver call waits for a slot forever

  /** The run's `projectAudit` counters. */
  datatype AuditCounts = AuditCounts(totalScanned: nat, successfulFixes: nat, syntaxErrorsPrevented: nat, totalCharsSaved: int)

  /** How a verdict moves the counters: a kept file is a successful fix and adds its saved
      characters; a reverted one is a prevented syntax error; nothing else counts. */
  function Verdict(a: AuditCounts, outcome: FileOutcome): AuditCounts
  {
    match outcome
    case Evolved(saved, _) => a.(successfulFixes := a.successfulFixes + 1, totalCharsSaved := a.totalCharsSaved + saved)
    case Reverted(_) => a.(syntaxErrorsPrevented := a.syntaxErrorsPrevented + 1)
    case _ => a
  }

  /** How a file moves the counters: it is scanned, then its verdict is counted. */
  function Tally(a: AuditCounts, outcome: FileOutcome): AuditCounts
  {
    Verdict(a.(totalScanned := a.totalScanned + 1), outcome)
  }

  /** The fixed parts of the self-correction request. */
  const FixIntro := "Your previous refactor of \""
  const FixMiddle := "\" caused a SyntaxError: "
  const FixOutro := ". Please fix the syntax (check your parentheses and braces) and return ONLY the raw code.\n\nOriginal Code:\n"

  /** The self-correction request; it is sent as the function BODY, so it is also the cache key. */
  function FixPrompt(name: string, error: string, body: string): string
  {
    FixIntro + name + FixMiddle + error + FixOutro + body
  }

  /** The candidates analyzeFile extracts from a content, through the parser oracle. */
  function Extract(parse: string -> seq<CapturedNode>, content: string): seq<Candidate>
  {
    Dedup(CandidatesOf(parse(content)))
  }

  /** After a failed check: revert, re-read, ask for a fix of the first visited candidate, splice
      the fix into the re-read content (no bracket guard), save and check again; then the verdict. */
  function SelfCorrect<S>(evolve: EvolveCall<S>, check: string -> Validator.CheckResult, st: S,
                       files: Validator.FileMap, f: string, target: Candidate, diagnostic: string, originalLength: nat)
    : (r: (S, Validator.FileMap, FileOutcome))
    requires f in files
  {
    var reverted := Validator.RevertStep(files, f);
    var retryContent := reverted[f];
    var prompt := FixPrompt(target.functionName, diagnostic, target.functionBody);
    var (st2, out) := evolve(st, target.functionName, prompt);
    match out
    case Parked => (st2, reverted, Stalled)
    case Threw(message) => (st2, reverted, Rejected(message))
    case Returned(fixedCode) =>
      if IsBlank(fixedCode) then (st2, Validator.RevertStep(reverted, f), Reverted(true))
      else
        var retry := Splice(retryContent, target.startIndex, target.endIndex, fixedCode);
        var saved := Validator.SaveStep(reverted, f, retry).value;
        if Validator.Validate(check, saved, f).Passed? then (st2, saved, Evolved(originalLength - |retry|, Some(fixedCode)))
        else (st2, Validator.RevertStep(saved, f), Reverted(true))
  }

  /** processFile after the loop: save the working content, check it, make the self-correction
      attempt when the check fails, and give the verdict. `st` is the evolver state after the loop. */
  function CheckAndCorrect<S>(evolve: EvolveCall<S>, check: string -> Validator.CheckResult, st: S,
                              files: Validator.FileMap, f: string, sorted: seq<Candidate>, content: string)
    : (r: (S, Validator.FileMap, FileOutcome))
    requires f in files && sorted != []
  {
    var saved := Validator.SaveStep(files, f, content).value;
    match Validator.Validate(check, saved, f)
    case Passed => (st, saved, Evolved(|files[f]| - |content|, None))
    case SyntaxError(diagnostic) => SelfCorrect(evolve, check, st, saved, f, sorted[0], diagnostic, |files[f]|)
  }

  /** processFile for file `f`, given the evolver state and the workspace. */
  function FileStep<S>(evolve: EvolveCall<S>, parse: string -> seq<CapturedNode>, check: string -> Validator.CheckResult,
                       st: S, files: Validator.FileMap, f: string)
    : (r: (S, Validator.FileMap, FileOutcome))
  {
    if f !in files then (st, files, Unreadable)
    else
      var functions := Extract(parse, files[f]);
      if functions == [] then (st, files, NoFunctions)
      else
        var sorted := SortByStartDesc(functions);
        var loop := RewriteFrom(evolve, Eligible, LoopState(st, files[f], [], false), sorted);
        if loop.stalled then (loop.evolver, files, Stalled)
        else CheckAndCorrect(evolve, check, loop.evolver, files, f, sorted, loop.content)
  }

  /** The self-correction attempt, once the failing content has been saved (so a backup exists):
      only the file and its backup are touched, the backup is kept, and the file ends up either
      holding the backup again or, when the attempt is kept, the fix spliced into the backup's
      content at the target's span, having passed the check. A revert here always follows an attempt. */
  lemma SelfCorrectSpec<S>(evolve: EvolveCall<S>, check: string -> Validator.CheckResult, st: S,
                           files: Validator.FileMap, f: string, target: Candidate, diagnostic: string, originalLength: nat)
    requires f in files && Validator.Bak(f) in files
    ensures var (_, files', outcome) := SelfCorrect(evolve, check, st, files, f, target, diagnostic, originalLength);
      && files' - {f, Validator.Bak(f)} == files - {f, Validator.Bak(f)}
      && f in files' && Validator.Bak(f) in files' && files'[Validator.Bak(f)] == files[Validator.Bak(f)]
      && (outcome.Stalled? || outcome.Rejected? || outcome == Reverted(true) || (outcome.Evolved? && outcome.correction.Some?))
      && (outcome.Evolved? ==>
            && Validator.Validate(check, files', f) == Validator.Passed
            && files'[f] == Splice(files[Validator.Bak(f)], target.startIndex, target.endIndex, outcome.correction.value)
            && outcome.charsSaved == originalLength - |files'[f]|)
      && (!outcome.Evolved? ==> files'[f] == files[Validator.Bak(f)])
      && var out := evolve(st, target.functionName, FixPrompt(target.functionName, diagnostic, target.functionBody)).1;
         && (out.Parked? ==> outcome == Stalled)
         && (out.Threw? ==> outcome == Rejected(out.message))
         && (out.Returned? && IsBlank(out.code) ==> outcome == Reverted(true))
         && (out.Returned? && !IsBlank(out.code) ==>
               var retry := Splice(files[Validator.Bak(f)], target.startIndex, target.endIndex, out.code);
               (outcome.Evolved? <==>
                  Validator.Validate(check, Validator.SaveStep(Validator.RevertStep(files, f), f, retry).value, f).Passed?))
  {
    Validator.BakIsOtherPath(f);
  }

  /** The same guarantees for everything after the loop, whatever the loop produced: only the file
      and its backup change; a kept file passed the check and holds the loop's content or the
      self-correction's; a reverted or rejected file, and one left waiting during self-correction,
      holds the content from before the first save; the backup holds that content too. */
  lemma CheckAndCorrectSpec<S>(evolve: EvolveCall<S>, check: string -> Validator.CheckResult, st: S,
                               files: Validator.FileMap, f: string, sorted: seq<Candidate>, content: string)
    requires f in files && sorted != []
    ensures var (_, files', outcome) := CheckAndCorrect(evolve, check, st, files, f, sorted, content);
      && files' - {f, Validator.Bak(f)} == files - {f, Validator.Bak(f)}
      && f in files' && Validator.Bak(f) in files' && files'[Validator.Bak(f)] == Validator.Original(files, f)
      && (outcome.Stalled? || outcome.Rejected? || outcome == Reverted(true) || outcome.Evolved?)
      && (outcome.Evolved? ==>
            && Validator.Validate(check, files', f) == Validator.Passed
            && outcome.charsSaved == |files[f]| - |files'[f]|
            && (outcome.correction.None? ==> files'[f] == content)
            && (outcome.correction.Some? ==>
                  files'[f] == Splice(Validator.Original(files, f), sorted[0].startIndex, sorted[0].endIndex, outcome.correction.value)))
      && (!outcome.Evolved? ==> files'[f] == Validator.Original(files, f))
      && (Validator.Validate(check, Validator.SaveStep(files, f, content).value, f).Passed? <==>
            outcome == Evolved(|files[f]| - |content|, None))
  {
    Validator.SaveSpec(files, f, content);
    Validator.SaveRevertFrame(files, f, content);
    var saved := Validator.SaveStep(files, f, content).value;
    if Validator.Validate(check, saved, f).SyntaxError? {
      SelfCorrectSpec(evolve, check, st, saved, f, sorted[0], Validator.Validate(check, saved, f).diagnostic, |files[f]|);
    }
  }

  /** processFile touches only the file and its backup. */
  lemma FileStepFrame<S>(evolve: EvolveCall<S>, parse: string -> seq<CapturedNode>, check: string -> Validator.CheckResult,
                         st: S, files: Validator.FileMap, f: string)
    ensures var files' := FileStep(evolve, parse, check, st, files, f).1;
      files' - {f, Validator.Bak(f)} == files - {f, Validator.Bak(f)}
  {
    if f in files && Extract(parse, files[f]) != [] {
      var sorted := SortByStartDesc(Extract(parse, files[f]));
      var loop := RewriteFrom(evolve, Eligible, LoopState(st, files[f], [], false), sorted);
      CheckAndCorrectSpec(evolve, check, loop.evolver, files, f, sorted, loop.content);
    }
  }

  /** The safety guarantee: a file is left with its content unchanged, with the content from before
      the pipeline first touched it (the backup), or with content that passed the check. A kept file
      passed the check; a reverted or rejected one holds the backup. The backup, once it exists,
      holds that earlier content. */
  lemma FileStepSafety<S>(evolve: EvolveCall<S>, parse: string -> seq<CapturedNode>, check: string -> Validator.CheckResult,
                          st: S, files: Validator.FileMap, f: string)
    requires f in files
    ensures var (_, files', outcome) := FileStep(evolve, parse, check, st, files, f);
      && f in files'
      && (outcome.Evolved? ==> Validator.Validate(check, files', f) == Validator.Passed)
      && (outcome.Reverted? || outcome.Rejected? ==> files'[f] == Validator.Original(files, f))
      && (outcome.Stalled? ==> files'[f] == files[f] || files'[f] == Validator.Original(files, f))
      && (outcome.NoFunctions? ==> files' == files)
      && (Validator.Bak(f) in files' ==> files'[Validator.Bak(f)] == Validator.Original(files, f))
  {
    if Extract(parse, files[f]) != [] {
      var sorted := SortByStartDesc(Extract(parse, files[f]));
      var loop := RewriteFrom(evolve, Eligible, LoopState(st, files[f], [], false), sorted);
      if !loop.stalled {
        CheckAndCorrectSpec(evolve, check, loop.evolver, files, f, sorted, loop.content);
      }
    }
  }

  /** What a kept file holds: without self-correction, the loop's content; with it, the fix spliced
      at the span of the FIRST visited candidate into the backup's content. The saved-characters
      count is the length difference either way. */
  lemma FileStepKept<S>(evolve: EvolveCall<S>, parse: string -> seq<CapturedNode>, check: string -> Validator.CheckResult,
                        st: S, files: Validator.FileMap, f: string)
    requires f in files
    ensures var (_, files', outcome) := FileStep(evolve, parse, check, st, files, f);
      var sorted := SortByStartDesc(Extract(parse, files[f]));
      outcome.Evolved? ==>
        && f in files' && |sorted| > 0
        && outcome.charsSaved == |files[f]| - |files'[f]|
        && (outcome.correction.None? ==>
              files'[f] == RewriteFrom(evolve, Eligible, LoopState(st, files[f], [], false), sorted).content)
        && (outcome.correction.Some? ==>
              files'[f] == Splice(Validator.Original(files, f), sorted[0].startIndex, sorted[0].endIndex, outcome.correction.value))
  {
    if Extract(parse, files[f]) != [] {
      var sorted := SortByStartDesc(Extract(parse, files[f]));
      var loop := RewriteFrom(evolve, Eligible, LoopState(st, files[f], [], false), sorted);
      if !loop.stalled {
        CheckAndCorrectSpec(evolve, check, loop.evolver, files, f, sorted, loop.content);
      }
    }
  }

  /** Self-correction is attempted whenever the check fails (there is always a candidate by then),
      so a file is never reverted without one: the "Syntax Error blocked" verdict cannot occur. */
  lemma RevertedOnlyAfterCorrection<S>(evolve: EvolveCall<S>, parse: string -> seq<CapturedNode>, check: string -> Validator.CheckResult,
                                       st: S, files: Validator.FileMap, f: string)
    ensures FileStep(evolve, parse, check, st, files, f).2 != Reverted(false)
  {
    if f in files && Extract(parse, files[f]) != [] {
      var sorted := SortByStartDesc(Extract(parse, files[f]));
      var loop := RewriteFrom(evolve, Eligible, LoopState(st, files[f], [], false), sorted);
      if !loop.stalled {
        CheckAndCorrectSpec(evolve, check, loop.evolver, files, f, sorted, loop.content);
      }
    }
  }

  /** Every file is scanned; a file with functions that finishes is counted exactly once, as a
      successful fix or as a prevented syntax error. */
  lemma TallySpec(a: AuditCounts, outcome: FileOutcome)
    ensures Tally(a, outcome).totalScanned == a.totalScanned + 1
    ensures Tally(a, outcome).successfulFixes + Tally(a, outcome).syntaxErrorsPrevented
            == a.successfulFixes + a.syntaxErrorsPrevented + (if outcome.Evolved? || outcome.Reverted? then 1 else 0)
    ensures outcome.Evolved? ==> Tally(a, outcome).totalCharsSaved == a.totalCharsSaved + outcome.charsSaved
    ensures !outcome.Evolved? ==> Tally(a, outcome).totalCharsSaved == a.totalCharsSaved
  {
  }

  // ---------------------------------------------------------------------------
  // The run
  // ---------------------------------------------------------------------------

  datatype RunState<S> = RunState(evolver: S, files: Validator.FileMap, audit: AuditCounts, stalled: bool)

  /** processFile as a value: the run is stated over any per-file step. */
  type FileProcessor<!S> = (S, Validator.FileMap, string) -> (S, Validator.FileMap, FileOutcome)

  function Processor<S>(evolve: EvolveCall<S>, parse: string -> seq<CapturedNode>, check: string -> Validator.CheckResult)
    : FileProcessor<S>
  {
    (st: S, files: Validator.FileMap, f: string) => FileStep(evolve, parse, check, st, files, f)
  }

  /** `process` gives, on every state, what processFile over `evolve` gives. The agreement is
      consulted only where a FileStep result is at hand (that is its trigger), so a run stated over
      `process` does not drag the whole per-file step into every proof about the run. */
  ghost predicate ProcessesAs(process: FileProcessor<EvolverState>, evolve: EvolveCall<EvolverState>,
                                 parse: string -> seq<CapturedNode>, check: string -> Validator.CheckResult)
  {
    forall st: EvolverState, files: Validator.FileMap, f: string {:trigger FileStep(evolve, parse, check, st, files, f)} ::
      process(st, files, f) == FileStep(evolve, parse, check, st, files, f)
  }

  lemma ProcessorProcessesAs(evolve: EvolveCall<EvolverState>, parse: string -> seq<CapturedNode>,
                                check: string -> Validator.CheckResult)
    ensures ProcessesAs(Processor(evolve, parse, check), evolve, parse, check)
  {
  }

  /** One file of the run: processFile, then its counters; a stalled file stops the run. */
  function RunStep<S>(process: FileProcessor<S>, rs: RunState<S>, f: string): (r: RunState<S>)
  {
    var (st, files, outcome) := process(rs.evolver, rs.files, f);
    RunState(st, files, Tally(rs.audit, outcome), outcome.Stalled?)
  }

  /** The files processed one after another, until one stalls. */
  function RunFrom<S>(process: FileProcessor<S>, rs: RunState<S>, paths: seq<string>): (r: RunState<S>)
    decreases |paths|
  {
    if paths == [] || rs.stalled then rs
    else RunFrom(process, RunStep(process, rs, paths[0]), paths[1..])
  }

  /** Running two lists of files one after the other is running their concatenation. */
  lemma {:induction false} RunFromAppend<S>(process: FileProcessor<S>, rs: RunState<S>, a: seq<string>, b: seq<string>)
    ensures RunFrom(process, rs, a + b) == RunFrom(process, RunFrom(process, rs, a), b)
    decreases |a|
  {
    if a == [] {
      assert a + b == b;
    } else if !rs.stalled {
      assert (a + b)[0] == a[0] && (a + b)[1..] == a[1..] + b;
      RunFromAppend(process, RunStep(process, rs, a[0]), a[1..], b);
    }
  }

  ghost predicate AuditConsistent(a: AuditCounts)
  {
    a.successfulFixes + a.syntaxErrorsPrevented <= a.totalScanned
  }

  /** A run that does not stall scans every file once; the verdict counters never exceed the scan count. */
  lemma {:induction false} RunCounts<S>(process: FileProcessor<S>, rs: RunState<S>, paths: seq<string>)
    requires AuditConsistent(rs.audit)
    ensures var r := RunFrom(process, rs, paths);
      && AuditConsistent(r.audit)
      && rs.audit.totalScanned <= r.audit.totalScanned <= rs.audit.totalScanned + |paths|
      && (!rs.stalled && !r.stalled ==> r.audit.totalScanned == rs.audit.totalScanned + |paths|)
    decreases |paths|
  {
    if paths != [] && !rs.stalled {
      var next := RunStep(process, rs, paths[0]);
      RunCounts(process, next, paths[1..]);
    }
  }

  /** The slices `paths.slice(i, i + n)`, `paths.slice(i + n, i + 2n)`, ... that the batch loop takes
      from offset i on (`slice` stops at the end of the list). */
  function Batches(paths: seq<string>, n: nat, i: nat): seq<seq<string>>
    requires n >= 1
    decreases |paths| - i
  {
    if i >= |paths| then []
    else [paths[i..Min(i + n, |paths|)]] + Batches(paths, n, i + n)
  }

  function Flatten(bs: seq<seq<string>>): seq<string>
  {
    if bs == [] then [] else bs[0] + Flatten(bs[1..])
  }

  /** From any offset on, the batches partition the rest of the file list in order: concatenated
      they give it back, and each holds between one and n files. */
  lemma {:induction false} BatchesPartition(paths: seq<string>, n: nat, i: nat)
    requires n >= 1
    ensures Flatten(Batches(paths, n, i)) == paths[Min(i, |paths|)..]
    ensures forall j | 0 <= j < |Batches(paths, n, i)| :: 1 <= |Batches(paths, n, i)[j]| <= n
    decreases |paths| - i
  {
    if i < |paths| {
      var k := Min(i + n, |paths|);
      BatchesPartition(paths, n, i + n);
      assert paths[i..] == paths[i..k] + paths[k..];
    }
  }

  /** One turn of the batch loop: the batch at offset i is the next batch of the partition, and
      running it and then the files after it is running everything from i on. */
  lemma {:induction false} BatchLoopStep<S>(process: FileProcessor<S>, paths: seq<string>, n: nat, i: nat,
                                            taken: seq<seq<string>>, rs: RunState<S>, after: RunState<S>, goal: RunState<S>)
    requires n >= 1 && i < |paths|
    requires Batches(paths, n, 0) == taken + Batches(paths, n, i)
    requires RunFrom(process, rs, paths[Min(i, |paths|)..]) == goal
    requires after == RunFrom(process, rs, paths[i..Min(i + n, |paths|)])
    ensures Batches(paths, n, 0) == (taken + [paths[i..Min(i + n, |paths|)]]) + Batches(paths, n, i + n)
    ensures RunFrom(process, after, paths[Min(i + n, |paths|)..]) == goal
  {
    var batch := paths[i..Min(i + n, |paths|)];
    assert taken + ([batch] + Batches(paths, n, i + n)) == (taken + [batch]) + Batches(paths, n, i + n);
    assert paths[i..] == batch + paths[Min(i + n, |paths|)..];
    RunFromAppend(process, rs, batch, paths[Min(i + n, |paths|)..]);
  }

  // ---------------------------------------------------------------------------
  // The concurrency setting
  // ---------------------------------------------------------------------------

  /** `parseInt(process.env.ACEE_FILE_CONCURRENCY, 10) || 3`, the parse given as None when it is NaN. */
  function FileConcurrencyAsWritten(parsed: Option<int>): int
  {
    match parsed
    case None => 3
    case Some(v) => if v == 0 then 3 else v
  }

  /** With a negative setting the batch loop's index only goes down: after any number of batches
      it is still below the number of files, so the loop never ends. */
  lemma {:induction false} NegativeConcurrencyNeverEnds(v: int, fileCount: nat, batches: nat)
    requires v < 0 && fileCount > 0
    ensures FileConcurrencyAsWritten(Some(v)) == v
    ensures batches * FileConcurrencyAsWritten(Some(v)) < fileCount
    decreases batches
  {
    if batches > 0 {
      NegativeConcurrencyNeverEnds(v, fileCount, batches - 1);
      assert batches * v == (batches - 1) * v + v;
    }
  }

  /** The setting as evidently intended: a positive batch size, 3 unless a positive number is given. */
  function FileConcurrency(parsed: Option<int>): (n: nat)
    ensures n >= 1
  {
    match parsed
    case Some(v) => if v >= 1 then v else 3
    case None => 3
  }

  /** The two agree on every setting except a negative number. */
  lemma FileConcurrencyAgrees(parsed: Option<int>)
    ensures parsed.None? || parsed.value >= 0 ==> FileConcurrency(parsed) == FileConcurrencyAsWritten(parsed)
    ensures parsed.Some? && parsed.value < 0 ==> FileConcurrency(parsed) == 3 != FileConcurrencyAsWritten(parsed)
  {
  }

  // ---------------------------------------------------------------------------
  // The pipeline over the evolver model
  // ---------------------------------------------------------------------------

  /** evolveFunction(name, body) of the evolver model, on states that keep the limiter invariant
      (every state a valid CodeEvolver can be in). */
  ghost function EvolverCall(service: nat -> Response): EvolveCall<EvolverState>
  {
    (st: EvolverState, name: string, body: string) =>
      if Inv(st.limiter) then Evolve(service, st, name, body, 0) else (st, Parked)
  }

  /** If the fix request meets a service error other than rate limiting or authentication, the
      evolver hands back its input, the prompt itself, and that is what gets spliced in and checked. */
  lemma CorrectionAfterServiceErrorUsesPrompt(service: nat -> Response, check: string -> Validator.CheckResult, st: EvolverState,
                                              files: Validator.FileMap, f: string, target: Candidate, diagnostic: string, originalLength: nat)
    requires Inv(st.limiter) && st.limiter.running < st.limiter.maxConcurrent && f in files && target.functionName != ""
    requires FixPrompt(target.functionName, diagnostic, target.functionBody) !in st.cache
    requires service(st.calls).Failure? && service(st.calls).status != 429 && service(st.calls).status != 401
    ensures var outcome := SelfCorrect(EvolverCall(service), check, st, files, f, target, diagnostic, originalLength).2;
      outcome == Reverted(true) ||
      (outcome.Evolved? && outcome.correction == Some(FixPrompt(target.functionName, diagnostic, target.functionBody)))
  {
    var prompt := FixPrompt(target.functionName, diagnostic, target.functionBody);
    SingleAttempt(service, st, target.functionName, prompt, 0);
    assert !IsBlank(prompt) by {
      assert prompt[0] == 'Y';
    }
  }

  // ---------------------------------------------------------------------------
  // The imperative pipeline
  // ---------------------------------------------------------------------------

  class ProjectAudit {
    var totalScanned: nat
    var successfulFixes: nat
    var syntaxErrorsPrevented: nat
    var totalCharsSaved: int

    function State(): AuditCounts
      reads this
    {
      AuditCounts(totalScanned, successfulFixes, syntaxErrorsPrevented, totalCharsSaved)
    }

    constructor ()
      ensures State() == AuditCounts(0, 0, 0, 0)
    {
      totalScanned, successfulFixes, syntaxErrorsPrevented, totalCharsSaved := 0, 0, 0, 0;
    }

    method CountScanned()
      modifies this
      ensures State() == old(State()).(totalScanned := old(totalScanned) + 1)
    {
      totalScanned := totalScanned + 1;
    }

    /** The verdict's counters: a kept file is a successful fix and adds its saved characters; a
        reverted one is a prevented syntax error. */
    method CountVerdict(outcome: FileOutcome)
      modifies this
      ensures State() == Verdict(old(State()), outcome)
    {
      match outcome
      case Evolved(charsRemoved, _) =>
        successfulFixes := successfulFixes + 1;
        totalCharsSaved := totalCharsSaved + charsRemoved;
      case Reverted(_) =>
        syntaxErrorsPrevented := syntaxErrorsPrevented + 1;
      case _ =>
    }
  }

  /** The `for (const func of sortedFunctions)` loop. */
  method RewriteCandidates(evolver: CodeEvolver, content0: string, sorted: seq<Candidate>)
    returns (content: string, ghost edits: seq<Edit>, stalled: bool)
    requires evolver.Valid()
    modifies evolver, evolver.limiter
    ensures evolver.Valid()
    ensures LoopState(evolver.State(), content, edits, stalled)
            == RewriteFrom(EvolverCall(evolver.service), Eligible, LoopState(old(evolver.State()), content0, [], false), sorted)
  {
    ghost var evolve := EvolverCall(evolver.service);
    ghost var goal := RewriteFrom(evolve, Eligible, LoopState(evolver.State(), content0, [], false), sorted);
    content, edits, stalled := content0, [], false;
    var k := 0;
    while k < |sorted| && !stalled
      invariant 0 <= k <= |sorted|
      invariant evolver.Valid()
      invariant RewriteFrom(evolve, Eligible, LoopState(evolver.State(), content, edits, stalled), sorted[k..]) == goal
    {
      ghost var before := LoopState(evolver.State(), content, edits, stalled);
      assert sorted[k..][0] == sorted[k] && sorted[k..][1..] == sorted[k + 1..];
      var func := sorted[k];
      k := k + 1;
      if TooSimple(func.functionBody) {
        continue;
      }
      var scored := ScoreOptimizationNeed(func.functionBody);
      if scored.score == 0 {
        continue;
      }
      var upgraded := evolver.EvolveFunction(func.functionName, func.functionBody, 0);
      assert (evolver.State(), upgraded) == evolve(before.evolver, func.functionName, func.functionBody);
      match upgraded
      case Parked =>
        stalled := true;
      case Threw(_) =>
      case Returned(code) =>
        if !IsBlank(code) && code != func.functionBody {
          if !Balanced(code) {
            continue;
          }
          content := Splice(content, func.startIndex, func.endIndex, code);
          edits := edits + [Edit(func.startIndex, func.endIndex, code)];
        }
    }
  }

  /** processFile: count the file, evolve it, and count its verdict in the audit. */
  method ProcessFile(f: string, parse: string -> seq<CapturedNode>, evolver: CodeEvolver,
                     validator: Validator.Validator, audit: ProjectAudit)
    returns (outcome: FileOutcome)
    requires evolver.Valid()
    modifies evolver, evolver.limiter, validator, audit
    ensures evolver.Valid()
    ensures (evolver.State(), validator.files, outcome)
            == FileStep(EvolverCall(evolver.service), parse, validator.check, old(evolver.State()), old(validator.files), f)
    ensures audit.State() == Tally(old(audit.State()), outcome)
  {
    audit.CountScanned();
    outcome := EvolveFile(f, parse, evolver, validator);
    audit.CountVerdict(outcome);
  }

  /** The work of processFile between the counters: read and analyze the file, run the rewrite
      loop, then save, check, self-correct and give the verdict. */
  method EvolveFile(f: string, parse: string -> seq<CapturedNode>, evolver: CodeEvolver, validator: Validator.Validator)
    returns (outcome: FileOutcome)
    requires evolver.Valid()
    modifies evolver, evolver.limiter, validator
    ensures evolver.Valid()
    ensures (evolver.State(), validator.files, outcome)
            == FileStep(EvolverCall(evolver.service), parse, validator.check, old(evolver.State()), old(validator.files), f)
  {
    ghost var evolve := EvolverCall(evolver.service);
    ghost var st0, files0 := evolver.State(), validator.files;
    if f !in validator.files {
      return Unreadable;
    }
    var functions := AnalyzeFile(parse(validator.files[f]));
    if |functions| == 0 {
      return NoFunctions;
    }
    var sortedFunctions := SortByStartDesc(functions);
    var currentFileContent, stalled;
    ghost var edits;
    currentFileContent, edits, stalled := RewriteCandidates(evolver, validator.files[f], sortedFunctions);
    ghost var loop := RewriteFrom(evolve, Eligible, LoopState(st0, files0[f], [], false), sortedFunctions);
    assert loop == LoopState(evolver.State(), currentFileContent, edits, stalled);
    if stalled {
      assert FileStep(evolve, parse, validator.check, st0, files0, f) == (loop.evolver, files0, Stalled);
      return Stalled;
    }
    outcome := CheckAndCorrectFile(f, sortedFunctions, currentFileContent, evolver, validator);
    assert FileStep(evolve, parse, validator.check, st0, files0, f)
           == CheckAndCorrect(evolve, validator.check, loop.evolver, files0, f, sortedFunctions, loop.content);
  }

  /** The part of processFile after the loop: save and check the working content; a passing file
      is kept, a failing one goes to the self-correction attempt on the first visited candidate. */
  method CheckAndCorrectFile(f: string, sortedFunctions: seq<Candidate>, currentFileContent: string,
                             evolver: CodeEvolver, validator: Validator.Validator)
    returns (outcome: FileOutcome)
    requires evolver.Valid() && f in validator.files && sortedFunctions != []
    modifies evolver, evolver.limiter, validator
    ensures evolver.Valid()
    ensures (evolver.State(), validator.files, outcome)
            == CheckAndCorrect(EvolverCall(evolver.service), validator.check, old(evolver.State()), old(validator.files),
                               f, sortedFunctions, currentFileContent)
  {
    var originalFileLength := |validator.files[f]|;
    var _ := validator.SaveEvolution(f, currentFileContent);
    var result := validator.ValidateAsync(f);
    if result.Passed? {
      return Evolved(originalFileLength - |currentFileContent|, None);
    }
    outcome := SelfCorrectFile(f, sortedFunctions[0], result.diagnostic, originalFileLength, evolver, validator);
  }

  /** The self-correction branch of processFile: revert, re-read, ask for a fix of the target,
      splice it into the re-read content, save and check again, and revert unless that passed. */
  method SelfCorrectFile(f: string, targetFunc: Candidate, diagnostic: string, originalFileLength: nat,
                         evolver: CodeEvolver, validator: Validator.Validator)
    returns (outcome: FileOutcome)
    requires evolver.Valid() && f in validator.files
    modifies evolver, evolver.limiter, validator
    ensures evolver.Valid()
    ensures (evolver.State(), validator.files, outcome)
            == SelfCorrect(EvolverCall(evolver.service), validator.check, old(evolver.State()), old(validator.files),
                           f, targetFunc, diagnostic, originalFileLength)
  {
    validator.Revert(f);
    var retryContent := validator.files[f];
    var fixPrompt := FixPrompt(targetFunc.functionName, diagnostic, targetFunc.functionBody);
    ghost var st := evolver.State();
    var fixed := evolver.EvolveFunction(targetFunc.functionName, fixPrompt, 0);
    assert (evolver.State(), fixed) == EvolverCall(evolver.service)(st, targetFunc.functionName, fixPrompt);
    match fixed
    case Parked =>
      return Stalled;
    case Threw(message) =>
      return Rejected(message);
    case Returned(fixedCode) =>
      if !IsBlank(fixedCode) {
        retryContent := Splice(retryContent, targetFunc.startIndex, targetFunc.endIndex, fixedCode);
        var _ := validator.SaveEvolution(f, retryContent);
        var result := validator.ValidateAsync(f);
        if result.Passed? {
          return Evolved(originalFileLength - |retryContent|, Some(fixedCode));
        }
      }
      validator.Revert(f);
      outcome := Reverted(true);
  }

  /** One batch: `Promise.allSettled(batch.map(processFile))`, its files taken one after another. */
  method ProcessBatch(batch: seq<string>, parse: string -> seq<CapturedNode>,
                      evolver: CodeEvolver, validator: Validator.Validator, audit: ProjectAudit,
                      ghost process: FileProcessor<EvolverState>)
    returns (stalled: bool)
    requires evolver.Valid()
    requires ProcessesAs(process, EvolverCall(evolver.service), parse, validator.check)
    modifies evolver, evolver.limiter, validator, audit
    ensures evolver.Valid()
    ensures RunState(evolver.State(), validator.files, audit.State(), stalled)
            == RunFrom(process, RunState(old(evolver.State()), old(validator.files), old(audit.State()), false), batch)
  {
    ghost var goal := RunFrom(process,
                              RunState(evolver.State(), validator.files, audit.State(), false), batch);
    stalled := false;
    var j := 0;
    while j < |batch| && !stalled
      invariant 0 <= j <= |batch|
      invariant evolver.Valid()
      invariant RunFrom(process,
                        RunState(evolver.State(), validator.files, audit.State(), stalled), batch[j..]) == goal
    {
      ghost var rs := RunState(evolver.State(), validator.files, audit.State(), stalled);
      assert batch[j..][0] == batch[j] && batch[j..][1..] == batch[j + 1..];
      var outcome := ProcessFile(batch[j], parse, evolver, validator, audit);
      stalled := outcome.Stalled?;
      assert RunState(evolver.State(), validator.files, audit.State(), stalled) == RunStep(process, rs, batch[j]);
      j := j + 1;
    }
  }

  /** The batch loop of a run: `for (i = 0; i < files.length; i += n)` over `files.slice(i, i + n)`,
      with the batch size from the (corrected) concurrency setting. A run that does not stall goes
      through exactly the batches of the partition. */
  method RunEvolution(paths: seq<string>, setting: Option<int>, parse: string -> seq<CapturedNode>,
                      evolver: CodeEvolver, validator: Validator.Validator, audit: ProjectAudit,
                      ghost process: FileProcessor<EvolverState>)
    returns (stalled: bool, ghost batches: seq<seq<string>>)
    requires evolver.Valid()
    requires ProcessesAs(process, EvolverCall(evolver.service), parse, validator.check)
    modifies evolver, evolver.limiter, validator, audit
    ensures evolver.Valid()
    ensures RunState(evolver.State(), validator.files, audit.State(), stalled)
            == RunFrom(process, RunState(old(evolver.State()), old(validator.files), old(audit.State()), false), paths)
    ensures !stalled ==> batches == Batches(paths, FileConcurrency(setting), 0)
  {
    var n := FileConcurrency(setting);
    ghost var goal := RunFrom(process,
                              RunState(evolver.State(), validator.files, audit.State(), false), paths);
    stalled, batches := false, [];
    var i := 0;
    ghost var rs := RunState(evolver.State(), validator.files, audit.State(), stalled);
    while i < |paths| && !stalled
      invariant Batches(paths, n, 0) == batches + Batches(paths, n, i)
      invariant evolver.Valid()
      invariant rs == RunState(evolver.State(), validator.files, audit.State(), stalled)
      invariant RunFrom(process, rs, paths[Min(i, |paths|)..]) == goal
    {
      var batch := paths[i..Min(i + n, |paths|)];
      stalled := ProcessBatch(batch, parse, evolver, validator, audit, process);
      ghost var after := RunState(evolver.State(), validator.files, audit.State(), stalled);
      BatchLoopStep(process, paths, n, i, batches, rs, after, goal);
      batches, i, rs := batches + [batch], i + n, after;
    }
  }
}
