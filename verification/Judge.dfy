/** Output comparison (backend/src/judge/diff.cpp). */
module OutputDiff {

  predicate IsSpace(ch: char) { ch in " \t\n\r" }

  // Nothing but whitespace from position n on.
  ghost predicate SpaceFrom(s: string, n: nat) { forall i | n <= i < |s| :: IsSpace(s[i]) }

  // r is s without its trailing whitespace.
  ghost predicate Trims(s: string, r: string) {
    && r <= s && SpaceFrom(s, |r|)
    && (r == "" || !IsSpace(r[|r| - 1]))
  }

  method TrimTrailingWhitespace(value: string) returns (r: string)
    ensures Trims(value, r)
  {
    var end := |value|;
    while end > 0
      invariant 0 <= end <= |value|
      invariant SpaceFrom(value, end)
    {
      var ch := value[end - 1];
      if ch == ' ' || ch == '\t' || ch == '\n' || ch == '\r' {
        end := end - 1;
      } else {
        break;
      }
    }
    r := value[..end];
  }

  // The texts agree up to a point after which both hold nothing but whitespace.
  ghost predicate SameUpToTrailing(a: string, b: string) {
    exists n: nat :: n <= |a| && n <= |b| && a[..n] == b[..n] && SpaceFrom(a, n) && SpaceFrom(b, n)
  }

  lemma TrimIsUnique(s: string, r: string, q: string)
    requires Trims(s, r) && Trims(s, q)
    ensures r == q
  {
    assert |r| > 0 ==> r[|r| - 1] == s[|r| - 1];
    assert |q| > 0 ==> q[|q| - 1] == s[|q| - 1];
  }

  lemma TrimAtSplit(s: string, n: nat, r: string)
    requires n <= |s| && SpaceFrom(s, n) && Trims(s, r)
    ensures Trims(s[..n], r)
  {
    assert |r| > 0 ==> r[|r| - 1] == s[|r| - 1];
  }

  method OutputsMatch(expected: string, actual: string) returns (same: bool)
    ensures same <==> SameUpToTrailing(expected, actual)
  {
    var e := TrimTrailingWhitespace(expected);
    var a := TrimTrailingWhitespace(actual);
    same := e == a;
    if same {
      assert expected[..|e|] == actual[..|e|];
    } else if n: nat :| n <= |expected| && n <= |actual| && expected[..n] == actual[..n]
                        && SpaceFrom(expected, n) && SpaceFrom(actual, n) {
      TrimAtSplit(expected, n, e);
      TrimAtSplit(actual, n, a);
      TrimIsUnique(expected[..n], e, a);
      assert false;
    }
  }
}

/** Classification of a finished run (the end of runBinary in backend/src/judge/runner.cpp). */
module Runner {

  const UINT32 := 0x1_0000_0000

  datatype Ending = Exited(code: nat) | Signaled(signal: nat) | OtherEnding

  // What the operating system reported about one run; `kb` is ru_maxrss in KiB.
  datatype Measurement =
    | NotStarted
    | Ran(killed: bool, ending: Ending, kb: int, timeMs: nat, output: string)

  datatype RunStatus = Ok | Timeout | MemoryLimit | RuntimeError | SpawnError

  datatype RunResult = RunResult(status: RunStatus, timeMs: nat, memoryMb: nat, output: string)

  // Rounded up to MiB, then cut to 32 bits.
  function MemoryInMb(kb: int): nat {
    if kb <= 0 then 0 else (kb + 1023) / 1024 % UINT32
  }

  predicate RssExceeded(kb: int, limitBytes: nat) { MemoryInMb(kb) * 1024 * 1024 > limitBytes }

  /** For whole-MiB limits rounding up never changes the comparison, as long as the figure fits 32 bits of MiB. */
  lemma RoundingIsExact(kb: int, limitMb: nat)
    requires kb <= 1024 * (UINT32 - 1)
    ensures RssExceeded(kb, limitMb * 1024 * 1024) <==> kb > 1024 * limitMb
  {
    if kb > 0 {
      var mb := (kb + 1023) / 1024;
      assert 1024 * (mb - 1) < kb <= 1024 * mb;
      assert mb % UINT32 == mb;
    }
  }

  /** Exactly the figures of at most 2^32 - 1 MiB are compared correctly with every 32-bit limit. */
  lemma ComparedCorrectlyIff(kb: int)
    ensures (forall limitMb: nat | limitMb < UINT32 ::
               RssExceeded(kb, limitMb * 1024 * 1024) <==> kb > 1024 * limitMb)
       <==> kb <= 1024 * (UINT32 - 1)
  {
    if kb <= 1024 * (UINT32 - 1) {
      forall limitMb: nat | limitMb < UINT32
        ensures RssExceeded(kb, limitMb * 1024 * 1024) <==> kb > 1024 * limitMb
      {
        RoundingIsExact(kb, limitMb);
      }
    } else {
      var top: nat := UINT32 - 1;
      assert MemoryInMb(kb) <= top;
      assert !RssExceeded(kb, top * 1024 * 1024);
    }
  }

  function RunBinary(m: Measurement, limitBytes: nat): RunResult {
    match m
    case NotStarted => RunResult(SpawnError, 0, 0, "")
    case Ran(killed, ending, kb, timeMs, output) =>
      var status :=
        if killed then Timeout
        else match ending
          case Exited(code) =>
            if RssExceeded(kb, limitBytes) then MemoryLimit else if code == 0 then Ok else RuntimeError
          case Signaled(_) => if RssExceeded(kb, limitBytes) then MemoryLimit else RuntimeError
          case OtherEnding => RuntimeError;
      RunResult(status, timeMs, MemoryInMb(kb), output)
  }
}

/** The judging loop (backend/src/judge/pipeline.cpp) and its input (backend/src/http/handlers_public.cpp). */
module Pipeline {
  import opened OutputDiff
  import opened Runner

  datatype Verdict = AC | WA | TLE | CE | MLE | RE

  datatype TestCase = TestCase(input: string, expected: string)

  datatype Problem = Problem(timeLimitMs: nat, memoryLimitMb: nat, testcases: seq<TestCase>)

  datatype PipelineInput = PipelineInput(testcases: seq<TestCase>, runTimeoutMs: nat, memoryLimitBytes: nat)

  // How the steps before the first run ended.
  datatype Compilation = NoWorkDir(message: string) | Rejected(diagnostics: string) | Compiled(diagnostics: string)

  datatype CaseResult =
    CaseResult(index: nat, verdict: Verdict, timeMs: nat, memoryMb: nat, expected: string, actual: string)

  datatype SubmissionResult =
    SubmissionResult(verdict: Verdict, timeMs: nat, memoryMb: nat, compileOutput: string, perCase: seq<CaseResult>)

  method BuildPipelineInput(problem: Problem) returns (input: PipelineInput)
    ensures input == PipelineInput(problem.testcases, problem.timeLimitMs, problem.memoryLimitMb * 1024 * 1024)
  {
    var cases := [];
    for i := 0 to |problem.testcases|
      invariant cases == problem.testcases[..i]
    {
      cases := cases + [problem.testcases[i]];
    }
    return PipelineInput(cases, problem.timeLimitMs, problem.memoryLimitMb * 1024 * 1024);
  }

  function MapRunStatus(status: RunStatus): Verdict {
    match status
    case Ok => AC
    case Timeout => TLE
    case MemoryLimit => MLE
    case RuntimeError => RE
    case SpawnError => RE
  }

  function AggregateVerdict(overall: Verdict, next: Verdict): Verdict {
    if overall == AC then next else overall
  }

  // The result one measured run of one case is reported with.
  ghost function CaseAt(input: PipelineInput, runs: seq<Measurement>, i: nat): CaseResult
    requires i < |input.testcases| == |runs|
  {
    var run := RunBinary(runs[i], input.memoryLimitBytes);
    var expected := input.testcases[i].expected;
    if run.status != Ok then
      CaseResult(i + 1, MapRunStatus(run.status), run.timeMs, run.memoryMb, "", "")
    else if SameUpToTrailing(expected, run.output) then
      CaseResult(i + 1, AC, run.timeMs, run.memoryMb, "", "")
    else
      CaseResult(i + 1, WA, run.timeMs, run.memoryMb, expected, run.output)
  }

  function Times(cases: seq<CaseResult>): seq<nat> {
    seq(|cases|, i requires 0 <= i < |cases| => cases[i].timeMs)
  }

  function Memories(cases: seq<CaseResult>): seq<nat> {
    seq(|cases|, i requires 0 <= i < |cases| => cases[i].memoryMb)
  }

  // m is the largest element, 0 if there are none.
  ghost predicate IsMax(xs: seq<nat>, m: nat) {
    && (forall i | 0 <= i < |xs| :: xs[i] <= m)
    && (if xs == [] then m == 0 else m in xs)
  }

  ghost predicate Maxima(cases: seq<CaseResult>, time: nat, memory: nat) {
    IsMax(Times(cases), time) && IsMax(Memories(cases), memory)
  }

  function Max(a: nat, b: nat): nat { if a < b then b else a }

  lemma MaxSnoc(xs: seq<nat>, m: nat, x: nat)
    requires IsMax(xs, m)
    ensures IsMax(xs + [x], Max(m, x))
  {
    assert (xs + [x])[|xs|] == x;
  }

  lemma MaximaSnoc(cases: seq<CaseResult>, time: nat, memory: nat, c: CaseResult)
    requires Maxima(cases, time, memory)
    ensures Maxima(cases + [c], Max(time, c.timeMs), Max(memory, c.memoryMb))
  {
    MaxSnoc(Times(cases), time, c.timeMs);
    MaxSnoc(Memories(cases), memory, c.memoryMb);
    assert Times(cases + [c]) == Times(cases) + [c.timeMs];
    assert Memories(cases + [c]) == Memories(cases) + [c.memoryMb];
  }

  ghost function Cases(input: PipelineInput, runs: seq<Measurement>): seq<CaseResult>
    requires |runs| == |input.testcases|
  {
    seq(|runs|, i requires 0 <= i < |runs| => CaseAt(input, runs, i))
  }

  // r reports the cases up to and including the first that is not accepted, and its verdict is that one's.
  ghost predicate Judged(cases: seq<CaseResult>, r: SubmissionResult) {
    var k := |r.perCase|;
    && r.perCase <= cases
    && (forall i | 0 <= i < k - 1 :: cases[i].verdict == AC)
    && (k < |cases| ==> k > 0 && cases[k - 1].verdict != AC)
    && r.verdict == (if k == 0 then RE else cases[k - 1].verdict)
    && Maxima(r.perCase, r.timeMs, r.memoryMb)
  }

  // The loop's state after reporting the cases in perCase.
  ghost predicate SoFar(cases: seq<CaseResult>, perCase: seq<CaseResult>, verdict: Verdict, time: nat, memory: nat) {
    var k := |perCase|;
    && perCase <= cases
    && (forall i | 0 <= i < k - 1 :: cases[i].verdict == AC)
    && verdict == (if k == 0 then AC else cases[k - 1].verdict)
    && Maxima(perCase, time, memory)
  }

  lemma SoFarStep(cases: seq<CaseResult>, perCase: seq<CaseResult>, verdict: Verdict, time: nat, memory: nat)
    requires SoFar(cases, perCase, verdict, time, memory) && verdict == AC && |perCase| < |cases|
    ensures var c := cases[|perCase|];
            SoFar(cases, perCase + [c], AggregateVerdict(verdict, c.verdict),
                  Max(time, c.timeMs), Max(memory, c.memoryMb))
  {
    MaximaSnoc(perCase, time, memory, cases[|perCase|]);
  }

  ghost predicate Reported(input: PipelineInput, compilation: Compilation, runs: seq<Measurement>, r: SubmissionResult)
    requires |runs| == |input.testcases|
  {
    match compilation
    case NoWorkDir(message) => r == SubmissionResult(RE, 0, 0, message, [])
    case Rejected(diagnostics) => r == SubmissionResult(CE, 0, 0, diagnostics, [])
    case Compiled(diagnostics) => r.compileOutput == diagnostics && Judged(Cases(input, runs), r)
  }

  // One turn of the loop: run the case, map a failed run, else compare the output.
  method RunCase(input: PipelineInput, runs: seq<Measurement>, i: nat) returns (result: CaseResult)
    requires i < |input.testcases| == |runs|
    ensures result == CaseAt(input, runs, i)
  {
    var run := RunBinary(runs[i], input.memoryLimitBytes);
    result := CaseResult(i + 1, AC, run.timeMs, run.memoryMb, "", "");
    if run.status != Ok {
      result := result.(verdict := MapRunStatus(run.status));
    } else {
      var same := OutputsMatch(input.testcases[i].expected, run.output);
      if !same {
        result := result.(verdict := WA, expected := input.testcases[i].expected, actual := run.output);
      }
    }
  }

  // The loop over the cases, left at the first verdict that is not AC.
  method JudgeCases(input: PipelineInput, runs: seq<Measurement>, diagnostics: string) returns (r: SubmissionResult)
    requires |runs| == |input.testcases|
    ensures r.compileOutput == diagnostics && Judged(Cases(input, runs), r)
  {
    ghost var cases := Cases(input, runs);
    var verdict, perCase: seq<CaseResult> := AC, [];
    var maxTime: nat, maxMemory: nat := 0, 0;
    var i := 0;
    while i < |input.testcases| && verdict == AC
      invariant i == |perCase| && SoFar(cases, perCase, verdict, maxTime, maxMemory)
    {
      var result := RunCase(input, runs, i);
      assert result == cases[i];
      SoFarStep(cases, perCase, verdict, maxTime, maxMemory);
      maxTime := Max(maxTime, result.timeMs);
      maxMemory := Max(maxMemory, result.memoryMb);
      verdict := AggregateVerdict(verdict, result.verdict);
      perCase := perCase + [result];
      i := i + 1;
    }
    if verdict == AC && perCase == [] {
      verdict := RE;
    }
    r := SubmissionResult(verdict, maxTime, maxMemory, diagnostics, perCase);
  }

  /** runs[i] is what a run on case i measures; cases after the first failure are not run. */
  method RunPipeline(input: PipelineInput, compilation: Compilation, runs: seq<Measurement>)
    returns (r: SubmissionResult)
    requires |runs| == |input.testcases|
    ensures Reported(input, compilation, runs, r)
  {
    match compilation
    case NoWorkDir(message) => r := SubmissionResult(RE, 0, 0, message, []);
    case Rejected(diagnostics) => r := SubmissionResult(CE, 0, 0, diagnostics, []);
    case Compiled(diagnostics) => r := JudgeCases(input, runs, diagnostics);
  }

  lemma MaximaAreUnique(cases: seq<CaseResult>, t: nat, m: nat, t': nat, m': nat)
    requires Maxima(cases, t, m) && Maxima(cases, t', m')
    ensures t == t' && m == m'
  {
  }

  lemma SamePrefix(cases: seq<CaseResult>, r: SubmissionResult, q: SubmissionResult)
    requires Judged(cases, r) && Judged(cases, q)
    ensures r.perCase == q.perCase
  {
    hide Maxima;
    var k, l := |r.perCase|, |q.perCase|;
    assert r.perCase == cases[..k] && q.perCase == cases[..l];
  }

  /** The report is determined by the measurements. */
  lemma ReportIsDetermined(input: PipelineInput, c: Compilation, runs: seq<Measurement>,
                           r: SubmissionResult, q: SubmissionResult)
    requires |runs| == |input.testcases| && Reported(input, c, runs, r) && Reported(input, c, runs, q)
    ensures r == q
  {
    if c.Compiled? {
      hide Cases, Maxima;
      SamePrefix(Cases(input, runs), r, q);
      MaximaAreUnique(r.perCase, r.timeMs, r.memoryMb, q.timeMs, q.memoryMb);
    }
  }

  // The run ended by itself with exit code 0, within the memory limit, and printed the expected text.
  ghost predicate Passes(t: TestCase, m: Measurement, limitMb: nat) {
    && m.Ran? && !m.killed && m.ending == Exited(0)
    && m.kb <= 1024 * limitMb
    && SameUpToTrailing(t.expected, m.output)
  }

  /** Every verdict of a case, in terms of what was measured. */
  lemma CaseVerdicts(input: PipelineInput, runs: seq<Measurement>, limitMb: nat, i: nat)
    requires i < |runs| == |input.testcases| && input.memoryLimitBytes == limitMb * 1024 * 1024
    requires runs[i].Ran? ==> runs[i].kb <= 1024 * (UINT32 - 1)
    ensures var m, t, v := runs[i], input.testcases[i], CaseAt(input, runs, i).verdict;
            var ended := m.Ran? && !m.killed;
            var tooBig := ended && !m.ending.OtherEnding? && m.kb > 1024 * limitMb;
            && (v == AC <==> Passes(t, m, limitMb))
            && (v == TLE <==> m.Ran? && m.killed)
            && (v == MLE <==> tooBig)
            && (v == WA <==> ended && !tooBig && m.ending == Exited(0) && !SameUpToTrailing(t.expected, m.output))
            && (v == RE <==> m.NotStarted? || (ended && !tooBig && m.ending != Exited(0)))
            && v != CE
  {
    if runs[i].Ran? {
      RoundingIsExact(runs[i].kb, limitMb);
    }
  }

  lemma AllAccepted(input: PipelineInput, c: Compilation, runs: seq<Measurement>, r: SubmissionResult)
    requires |runs| == |input.testcases| && Reported(input, c, runs, r)
    ensures r.verdict == AC
       <==> && c.Compiled? && input.testcases != []
            && forall i | 0 <= i < |runs| :: CaseAt(input, runs, i).verdict == AC
  {
    hide CaseAt;
    if c.Compiled? && input.testcases != [] {
      var k := |r.perCase|;
      assert k > 0 && r.perCase[k - 1] == CaseAt(input, runs, k - 1);
      if r.verdict == AC {
        assert k == |runs|;
        assert forall i | 0 <= i < k :: CaseAt(input, runs, i) == r.perCase[i];
      }
    }
  }

  // What Passes comes down to for figures of any width: the memory is compared after the cut to 32 bits of MiB.
  ghost predicate PassesCut(t: TestCase, m: Measurement, limitMb: nat) {
    && m.Ran? && !m.killed && m.ending == Exited(0)
    && MemoryInMb(m.kb) <= limitMb
    && SameUpToTrailing(t.expected, m.output)
  }

  /** Accepted means: it compiled, there is a case, and every case passed, as far as its memory figure shows. */
  lemma AcceptedCutIff(problem: Problem, input: PipelineInput, c: Compilation, runs: seq<Measurement>,
                       r: SubmissionResult)
    requires input == PipelineInput(problem.testcases, problem.timeLimitMs, problem.memoryLimitMb * 1024 * 1024)
    requires |runs| == |problem.testcases| && Reported(input, c, runs, r)
    ensures r.verdict == AC
       <==> && c.Compiled? && problem.testcases != []
            && forall i | 0 <= i < |runs| :: PassesCut(problem.testcases[i], runs[i], problem.memoryLimitMb)
  {
    hide Reported, SameUpToTrailing;
    AllAccepted(input, c, runs, r);
    forall i | 0 <= i < |runs|
      ensures CaseAt(input, runs, i).verdict == AC
         <==> PassesCut(problem.testcases[i], runs[i], problem.memoryLimitMb)
    {
    }
  }

  // Every memory figure fits 32 bits of MiB.
  ghost predicate FitsWidth(runs: seq<Measurement>) {
    forall m | m in runs && m.Ran? :: m.kb <= 1024 * (UINT32 - 1)
  }

  /** For figures that fit, that is: every case passed. */
  lemma AcceptedIff(problem: Problem, input: PipelineInput, c: Compilation, runs: seq<Measurement>, r: SubmissionResult)
    requires input == PipelineInput(problem.testcases, problem.timeLimitMs, problem.memoryLimitMb * 1024 * 1024)
    requires |runs| == |problem.testcases| && Reported(input, c, runs, r)
    requires FitsWidth(runs)
    ensures r.verdict == AC
       <==> && c.Compiled? && problem.testcases != []
            && forall i | 0 <= i < |runs| :: Passes(problem.testcases[i], runs[i], problem.memoryLimitMb)
  {
    hide Reported, CaseAt, Passes;
    AllAccepted(input, c, runs, r);
    forall i | 0 <= i < |runs|
      ensures CaseAt(input, runs, i).verdict == AC
         <==> Passes(problem.testcases[i], runs[i], problem.memoryLimitMb)
    {
      assert runs[i] in runs;
      CaseVerdicts(input, runs, problem.memoryLimitMb, i);
    }
  }

  // m is the figure in whole MiB, rounded up.
  ghost predicate RoundsUpTo(kb: int, m: nat) {
    kb <= 1024 * m && (m > 0 ==> kb > 1024 * (m - 1))
  }

  // What a run is measured to have taken; a run that did not start took nothing.
  function TimeOf(m: Measurement): nat { match m case NotStarted => 0 case Ran(_, _, _, timeMs, _) => timeMs }

  function KbOf(m: Measurement): int { match m case NotStarted => 0 case Ran(_, _, kb, _, _) => kb }

  function OutputOf(m: Measurement): string { match m case NotStarted => "" case Ran(_, _, _, _, output) => output }

  ghost predicate CaseFigures(input: PipelineInput, runs: seq<Measurement>, i: nat)
    requires i < |input.testcases| == |runs|
  {
    var reported := CaseAt(input, runs, i);
    && reported.index == i + 1
    && reported.timeMs == TimeOf(runs[i]) && RoundsUpTo(KbOf(runs[i]), reported.memoryMb)
    && reported.expected == (if reported.verdict == WA then input.testcases[i].expected else "")
    && reported.actual == if reported.verdict == WA then OutputOf(runs[i]) else ""
  }

  lemma CaseIsMeasured(input: PipelineInput, runs: seq<Measurement>, i: nat)
    requires i < |input.testcases| == |runs| && (runs[i].Ran? ==> runs[i].kb <= 1024 * (UINT32 - 1))
    ensures CaseFigures(input, runs, i)
  {
    hide SameUpToTrailing;
    if runs[i].Ran? {
      MemoryRoundsUp(runs[i].kb);
    }
  }

  lemma MemoryRoundsUp(kb: int)
    requires kb <= 1024 * (UINT32 - 1)
    ensures RoundsUpTo(kb, MemoryInMb(kb))
  {
    if kb > 0 {
      var mb := (kb + 1023) / 1024;
      assert mb % UINT32 == mb;
    }
  }

  // Positions of the largest time and memory, |r.perCase| if there is none.
  lemma LargestFigures(r: SubmissionResult) returns (f: nat, g: nat)
    requires Maxima(r.perCase, r.timeMs, r.memoryMb)
    ensures forall i | 0 <= i < |r.perCase| ::
              r.perCase[i].timeMs <= r.timeMs && r.perCase[i].memoryMb <= r.memoryMb
    ensures if r.perCase == [] then r.timeMs == r.memoryMb == 0
            else && f < |r.perCase| && r.perCase[f].timeMs == r.timeMs
                 && g < |r.perCase| && r.perCase[g].memoryMb == r.memoryMb
  {
    var ts, ms := Times(r.perCase), Memories(r.perCase);
    assert forall i | 0 <= i < |r.perCase| :: ts[i] == r.perCase[i].timeMs && ms[i] == r.perCase[i].memoryMb;
    f, g := 0, 0;
    if r.perCase != [] {
      f :| f < |ts| && ts[f] == r.timeMs;
      g :| g < |ms| && ms[g] == r.memoryMb;
    }
  }

  /** The reported figures and texts are the measured ones: case by case, and the largest over the submission. */
  lemma ReportedFigures(input: PipelineInput, c: Compilation, runs: seq<Measurement>, r: SubmissionResult)
    requires |runs| == |input.testcases| && c.Compiled? && Reported(input, c, runs, r) && FitsWidth(runs)
    ensures |r.perCase| <= |runs| && r.compileOutput == c.diagnostics
    ensures forall i | 0 <= i < |r.perCase| ::
              var reported := r.perCase[i];
              && reported.index == i + 1
              && reported.timeMs == TimeOf(runs[i]) && RoundsUpTo(KbOf(runs[i]), reported.memoryMb)
              && reported.expected == (if reported.verdict == WA then input.testcases[i].expected else "")
              && reported.actual == if reported.verdict == WA then OutputOf(runs[i]) else ""
    ensures forall i | 0 <= i < |r.perCase| :: TimeOf(runs[i]) <= r.timeMs && KbOf(runs[i]) <= 1024 * r.memoryMb
    ensures r.timeMs == 0 || exists i :: 0 <= i < |r.perCase| && TimeOf(runs[i]) == r.timeMs
    ensures r.memoryMb == 0 || exists i :: 0 <= i < |r.perCase| && RoundsUpTo(KbOf(runs[i]), r.memoryMb)
  {
    forall i | 0 <= i < |r.perCase|
      ensures r.perCase[i] == CaseAt(input, runs, i) && CaseFigures(input, runs, i)
    {
      assert runs[i] in runs;
      CaseIsMeasured(input, runs, i);
    }
    hide CaseAt, RoundsUpTo;
    var f, g := LargestFigures(r);
    assert f < |r.perCase| ==> CaseFigures(input, runs, f);
    assert g < |r.perCase| ==> CaseFigures(input, runs, g);
  }

  /** Otherwise the verdict is that of the first case that does not pass, and nothing after it is reported. */
  lemma FirstFailureDecides(input: PipelineInput, c: Compilation, runs: seq<Measurement>, r: SubmissionResult, f: nat)
    requires |runs| == |input.testcases| && Reported(input, c, runs, r) && c.Compiled?
    requires f < |runs| && CaseAt(input, runs, f).verdict != AC
    requires forall i | 0 <= i < f :: CaseAt(input, runs, i).verdict == AC
    ensures r.verdict == CaseAt(input, runs, f).verdict && |r.perCase| == f + 1
  {
    assert Cases(input, runs)[f].verdict != AC;
  }

  // ---- The memory figure is taken over all children of the server waited for so far ----

  // getrusage(RUSAGE_CHILDREN) reports the largest child yet.  `others[i]` is the largest one that was not a run of
  // this submission and had been waited for when figure i was read: earlier submissions', compilers', and those of
  // the other judge workers, which go on while this one is judged.
  ghost predicate RunningPeak(runs: seq<Measurement>, own: seq<int>, others: seq<int>)
    requires |runs| == |own| == |others|
  {
    forall i | 0 <= i < |runs| && runs[i].Ran? ::
      && runs[i].kb >= others[i] && (forall j | 0 <= j <= i :: runs[i].kb >= own[j])
      && (runs[i].kb == others[i] || exists j :: 0 <= j <= i && runs[i].kb == own[j])
  }

  // Every run ended by itself with exit code 0, printed what was expected, and used no more than the limit.
  ghost predicate RunsWell(problem: Problem, runs: seq<Measurement>, own: seq<int>)
    requires |runs| == |problem.testcases| == |own|
  {
    forall i | 0 <= i < |runs| ::
      && runs[i].Ran? && !runs[i].killed && runs[i].ending == Exited(0)
      && SameUpToTrailing(problem.testcases[i].expected, runs[i].output)
      && own[i] <= 1024 * problem.memoryLimitMb
  }

  ghost predicate NoneOver(figures: seq<int>, limitMb: nat) {
    forall i | 0 <= i < |figures| :: figures[i] <= 1024 * limitMb
  }

  lemma FigureOver(problem: Problem, runs: seq<Measurement>, own: seq<int>, others: seq<int>, i: nat)
    requires i < |runs| == |problem.testcases| == |own| == |others|
    requires RunningPeak(runs, own, others) && RunsWell(problem, runs, own)
    ensures runs[i].kb > 1024 * problem.memoryLimitMb <==> others[i] > 1024 * problem.memoryLimitMb
  {
  }

  lemma {:induction false} FirstOver(figures: seq<int>, limitMb: nat) returns (f: nat)
    requires !NoneOver(figures, limitMb)
    ensures f < |figures| && figures[f] > 1024 * limitMb && NoneOver(figures[..f], limitMb)
  {
    f := 0;
    while figures[f] <= 1024 * limitMb
      invariant f < |figures| && forall i | 0 <= i < f :: figures[i] <= 1024 * limitMb
      decreases |figures| - f
    {
      f := f + 1;
    }
  }

  lemma OverIsMLE(problem: Problem, input: PipelineInput, runs: seq<Measurement>,
                  own: seq<int>, others: seq<int>, i: nat)
    requires input == PipelineInput(problem.testcases, problem.timeLimitMs, problem.memoryLimitMb * 1024 * 1024)
    requires i < |runs| == |problem.testcases| == |own| == |others| && FitsWidth(runs)
    requires RunningPeak(runs, own, others) && RunsWell(problem, runs, own)
    ensures CaseAt(input, runs, i).verdict == if others[i] > 1024 * problem.memoryLimitMb then MLE else AC
  {
    assert runs[i] in runs;
    FigureOver(problem, runs, own, others, i);
    CaseVerdicts(input, runs, problem.memoryLimitMb, i);
  }

  /** A submission whose every run is right and within the limit is accepted exactly if, at each of its figures, no
      other child of the server waited for so far had exceeded the limit; otherwise it is MLE. */
  lemma OtherChildrenDecide(problem: Problem, input: PipelineInput, c: Compilation, runs: seq<Measurement>,
                            r: SubmissionResult, own: seq<int>, others: seq<int>)
    requires input == PipelineInput(problem.testcases, problem.timeLimitMs, problem.memoryLimitMb * 1024 * 1024)
    requires |runs| == |problem.testcases| == |own| == |others| && Reported(input, c, runs, r)
    requires c.Compiled? && problem.testcases != [] && FitsWidth(runs)
    ensures RunningPeak(runs, own, others) && RunsWell(problem, runs, own) ==>
              r.verdict == if NoneOver(others, problem.memoryLimitMb) then AC else MLE
  {
    if RunningPeak(runs, own, others) && RunsWell(problem, runs, own) {
      forall i | 0 <= i < |runs|
        ensures CaseAt(input, runs, i).verdict == if others[i] > 1024 * problem.memoryLimitMb then MLE else AC
      {
        OverIsMLE(problem, input, runs, own, others, i);
      }
      if NoneOver(others, problem.memoryLimitMb) {
        JudgedAccepted(Cases(input, runs), r);
      } else {
        var f := FirstOver(others, problem.memoryLimitMb);
        forall i | 0 <= i < f ensures CaseAt(input, runs, i).verdict == AC {
          assert others[..f][i] == others[i];
        }
        FirstFailureDecides(input, c, runs, r, f);
      }
    }
  }

  lemma JudgedAccepted(cases: seq<CaseResult>, r: SubmissionResult)
    requires Judged(cases, r) && cases != [] && forall i | 0 <= i < |cases| :: cases[i].verdict == AC
    ensures r.verdict == AC
  {
  }

  // Two runs of 512 KiB, with another worker's child of 4 MiB waited for between them, under a limit of 1 MiB.
  function Twice(t: TestCase): Problem { Problem(1000, 1, [t, t]) }

  function TwoRuns(t: TestCase): (runs: seq<Measurement>)
    ensures |runs| == 2
  {
    [Ran(false, Exited(0), 512, 1, t.expected), Ran(false, Exited(0), 4096, 1, t.expected)]
  }

  lemma TwoRunsAreRight(t: TestCase)
    ensures FitsWidth(TwoRuns(t)) && RunsWell(Twice(t), TwoRuns(t), [512, 512])
    ensures RunningPeak(TwoRuns(t), [512, 512], [0, 4096])
  {
    SameText(t.expected);
  }

  /** A submission of right runs that gets MLE although nothing had exceeded the limit when it began. */
  lemma OtherWorkerWitness(t: TestCase, r: SubmissionResult)
    requires Reported(PipelineInput([t, t], 1000, 1024 * 1024), Compiled(""), TwoRuns(t), r)
    ensures r.verdict == MLE
  {
    TwoRunsAreRight(t);
    hide Reported, RunningPeak, RunsWell, FitsWidth, TwoRuns;
    OtherChildrenDecide(Twice(t), PipelineInput([t, t], 1000, 1024 * 1024), Compiled(""), TwoRuns(t), r,
                        [512, 512], [0, 4096]);
    assert [0, 4096][1] > 1024;
  }

  lemma SameText(s: string)
    ensures SameUpToTrailing(s, s)
  {
    assert s[..|s|] == s[..|s|] && SpaceFrom(s, |s|);
  }
}
