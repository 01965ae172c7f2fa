/** The harness every day's solver inherits: for part 1 and then part 2 it
    checks the solver against the example in the day's `test` file and, when
    that passes, prints the answer for the day's `input` file. An
    `AssertionError` in a test, a failed check or one the solver raises, is
    printed and ends the run; any other error ends it with an exception.
    The solver and the files are parameters: the file system is a map from
    path to lines, and the solver says what `process_data` does with a
    file's lines, what each part does on them, and what each part's test
    solution attribute holds. */
module Advent {
  import opened Common

  /** A `part_N_test_solution` attribute: a number, `None`, or the method
      inherited from the base class when a day sets no value (as days 5 and 6
      do), which is never `None` and equals no answer. */
  datatype Expected = ExpectedNone | ExpectedValue(value: int) | BoundMethod

  /** What calling `process_data` on a file's lines does: it returns the
      data, raises an `AssertionError`, or raises any other exception. */
  datatype Processing = Processed | ProcessAsserts | ProcessRaises

  /** What calling `part_N` does. */
  datatype Answer = Returned(value: int) | ReturnedNone | NotImplemented | Asserts | Crashed

  datatype Solver = Solver(
    process: seq<string> -> Processing,
    answer: (int, seq<string>) -> Answer,
    expected: int -> Expected)

  /** The three ways `_run_test` fails by `AssertionError`. */
  datatype Failure = ExpectedIsNone | AnswerIsNone | Mismatch(expected: Expected, got: int)

  /** The exceptions that reach `run`. */
  datatype Error =
    | FileMissing(path: string)
    | ProcessAssertion
    | ProcessFailed
    | PartNotImplemented(part: int)
    | PartAssertion
    | PartCrashed
    | TestFailed(part: int, failure: Failure)
  {
    /** The exception is an `AssertionError`, which `run` catches quietly
        around `_run_test`. */
    predicate IsAssertion() {
      ProcessAssertion? || PartAssertion? || TestFailed?
    }
  }

  /** What `run` does before it stops, in order: `TestPassed` marks a test
      that passed, which prints nothing; `Printed` is an answer printed for
      the real input. An `AssertionError` that `run` prints is not an event:
      it is the cause carried by `StoppedByTest`. */
  datatype Event = TestPassed(part: int) | Printed(part: int, answer: Option<int>)

  /** How `run` ends: normally, by returning after printing an
      `AssertionError` from a test, or by raising "Failed when running tests"
      or "Could not run part". */
  datatype RunEnd =
    | Completed
    | StoppedByTest(part: int, cause: Error)
    | FailedTests(part: int, cause: Error)
    | CouldNotRun(part: int, cause: Error)

  /** `test_data_paths`: both parts read the same example file. */
  const TestDataPaths := ["test", "test"]

  function DayPath(day: string, name: string): string {
    "advent_of_code/" + day + "/" + name
  }

  /** `_get_data`: a missing file is an error naming its path; otherwise
      `process_data` is applied to its lines, and what it raises passes
      through. */
  function GetData(s: Solver, files: map<string, seq<string>>, path: string): (r: Result<seq<string>, Error>)
    ensures r == Err(FileMissing(path)) <==> path !in files
    ensures r.Ok? <==> path in files && s.process(files[path]).Processed?
    ensures r.Ok? ==> r.value == files[path]
    ensures r == Err(ProcessAssertion) <==> path in files && s.process(files[path]).ProcessAsserts?
  {
    if path !in files then Err(FileMissing(path))
    else
      match s.process(files[path])
      case ProcessAsserts => Err(ProcessAssertion)
      case ProcessRaises => Err(ProcessFailed)
      case Processed => Ok(files[path])
  }

  /** `_run_test`: the example is loaded first, then the expected value is
      checked, then the part is called, then its answer is compared. */
  function TestResult(day: string, s: Solver, files: map<string, seq<string>>, part: int): (r: Result<(), Error>)
    requires part == 1 || part == 2
    ensures r.Ok? ==> s.expected(part).ExpectedValue?
    ensures r.Err? && (r.error.TestFailed? || r.error.PartNotImplemented?) ==> r.error.part == part
  {
    match GetData(s, files, DayPath(day, TestDataPaths[part - 1]))
    case Err(e) => Err(e)
    case Ok(data) =>
      if s.expected(part).ExpectedNone? then Err(TestFailed(part, ExpectedIsNone))
      else
        match s.answer(part, data)
        case NotImplemented => Err(PartNotImplemented(part))
        case Asserts => Err(PartAssertion)
        case Crashed => Err(PartCrashed)
        case ReturnedNone => Err(TestFailed(part, AnswerIsNone))
        case Returned(v) =>
          if s.expected(part) != ExpectedValue(v) then Err(TestFailed(part, Mismatch(s.expected(part), v)))
          else Ok(())
  }

  /** A test passes exactly when the example file is there and accepted, the
      expected value is set, and the part returns a number equal to it. */
  lemma TestPasses(day: string, s: Solver, files: map<string, seq<string>>, part: int)
    requires part == 1 || part == 2
    ensures var path := DayPath(day, "test");
      TestResult(day, s, files, part).Ok? <==>
        path in files && s.process(files[path]).Processed? && s.answer(part, files[path]).Returned?
          && s.expected(part) == ExpectedValue(s.answer(part, files[path]).value)
  {
    assert TestDataPaths[part - 1] == "test";
  }

  /** The checks come in order: a missing example file is reported even
      when the expected value is `None`, and an unset expected value is
      reported before the part is called. A part that is not implemented
      stays a `NotImplementedError` and is not a failed check. */
  lemma TestGuardOrder(day: string, s: Solver, files: map<string, seq<string>>, part: int)
    requires part == 1 || part == 2
    ensures var path := DayPath(day, "test"); var r := TestResult(day, s, files, part);
      && (path !in files ==> r == Err(FileMissing(path)))
      && (path in files && s.process(files[path]).Processed? && s.expected(part).ExpectedNone? ==> r == Err(TestFailed(part, ExpectedIsNone)))
      && (path in files && s.process(files[path]).Processed? && !s.expected(part).ExpectedNone? && s.answer(part, files[path]).NotImplemented? ==>
            r == Err(PartNotImplemented(part)))
  {
    assert TestDataPaths[part - 1] == "test";
  }

  /** A day that sets no test solution never passes its test: when the part
      returns a number the check fails by mismatch, since the inherited
      method is not `None` and equals no number. */
  lemma UnsetTestSolution(day: string, s: Solver, files: map<string, seq<string>>, part: int)
    requires part == 1 || part == 2
    requires s.expected(part) == BoundMethod
    ensures TestResult(day, s, files, part).Err?
    ensures var path := DayPath(day, "test");
      path in files && s.process(files[path]).Processed? && s.answer(part, files[path]).Returned? ==>
        TestResult(day, s, files, part) == Err(TestFailed(part, Mismatch(BoundMethod, s.answer(part, files[path]).value)))
  {
    assert TestDataPaths[part - 1] == "test";
  }

  /** `_run_solution`: the answer for the day's `input` file, `None` included;
      every exception passes through. */
  function SolutionResult(day: string, s: Solver, files: map<string, seq<string>>, part: int): (r: Result<Option<int>, Error>)
    ensures r.Err? && r.error.PartNotImplemented? ==> r.error.part == part
  {
    match GetData(s, files, DayPath(day, "input"))
    case Err(e) => Err(e)
    case Ok(data) =>
      match s.answer(part, data)
      case NotImplemented => Err(PartNotImplemented(part))
      case Asserts => Err(PartAssertion)
      case Crashed => Err(PartCrashed)
      case ReturnedNone => Ok(None)
      case Returned(v) => Ok(Some(v))
  }

  /** The real run loads the day's `input` file and prints what the part
      returns on it: a number, or `None`, which is printed as well. */
  lemma SolutionAnswer(day: string, s: Solver, files: map<string, seq<string>>, part: int)
    ensures var path := DayPath(day, "input"); var r := SolutionResult(day, s, files, part);
      && (path !in files ==> r == Err(FileMissing(path)))
      && (r == Ok(None) <==> path in files && s.process(files[path]).Processed? && s.answer(part, files[path]).ReturnedNone?)
      && (r.Ok? && r.value.Some? <==> path in files && s.process(files[path]).Processed? && s.answer(part, files[path]).Returned?)
      && (r.Ok? && r.value.Some? ==> r.value.value == s.answer(part, files[path]).value)
  {
  }

  /** `run` from part `part` on: test, then real input, for each part up to
      2; an `AssertionError` in a test stops quietly, any other exception is
      wrapped. */
  function RunFrom(day: string, s: Solver, files: map<string, seq<string>>, part: nat): (r: (seq<Event>, RunEnd))
    requires 1 <= part
    ensures r.1.StoppedByTest? ==> r.1.cause.IsAssertion()
    ensures r.1.FailedTests? ==> !r.1.cause.IsAssertion()
    ensures part <= 3 ==> |r.0| <= 2 * (3 - part)
    decreases 3 - part
  {
    if part > 2 then ([], Completed)
    else
      match TestResult(day, s, files, part)
      case Err(e) =>
        if e.IsAssertion() then ([], StoppedByTest(part, e)) else ([], FailedTests(part, e))
      case Ok(_) =>
        match SolutionResult(day, s, files, part)
        case Err(e) => ([TestPassed(part)], CouldNotRun(part, e))
        case Ok(v) =>
          var rest := RunFrom(day, s, files, part + 1);
          ([TestPassed(part), Printed(part, v)] + rest.0, rest.1)
  }

  /** The position an event of a complete run takes: test 1, real 1,
      test 2, real 2. */
  predicate InOrder(trace: seq<Event>, first: nat) {
    forall i :: 0 <= i < |trace| ==> trace[i].part == first + i / 2 && (trace[i].TestPassed? <==> i % 2 == 0)
  }

  /** The events always come as test 1, real 1, test 2, real 2, cut short
      where the run ends; a run ending in a part ends after that part's
      events and before any of a later part. */
  lemma {:induction false} RunOrder(day: string, s: Solver, files: map<string, seq<string>>, part: nat)
    requires 1 <= part <= 3
    ensures var (trace, end) := RunFrom(day, s, files, part);
      && InOrder(trace, part)
      && (end.Completed? <==> |trace| == 2 * (3 - part))
      && (end.StoppedByTest? || end.FailedTests? ==> |trace| == 2 * (end.part - part) && part <= end.part <= 2)
      && (end.CouldNotRun? ==> |trace| == 2 * (end.part - part) + 1 && part <= end.part <= 2)
    decreases 3 - part
  {
    if part <= 2 && TestResult(day, s, files, part).Ok? && SolutionResult(day, s, files, part).Ok? {
      RunOrder(day, s, files, part + 1);
      var rest := RunFrom(day, s, files, part + 1);
      var trace := RunFrom(day, s, files, part).0;
      forall i | 0 <= i < |trace|
        ensures trace[i].part == part + i / 2 && (trace[i].TestPassed? <==> i % 2 == 0)
      {
        if i >= 2 {
          assert trace[i] == rest.0[i - 2];
        }
      }
    }
  }

  /** An `AssertionError` in a test, from one of the harness's checks or
      raised by the solver's own `process_data` or `part_N`, ends the run
      quietly: the part's real input and every later part are skipped. Any
      other exception in a test ends it as "Failed when running tests", and
      any exception in a real run as "Could not run part", assertions
      included. */
  lemma {:induction false} StopsAtFailedTest(day: string, s: Solver, files: map<string, seq<string>>, part: nat)
    requires 1 <= part <= 3
    ensures var (trace, end) := RunFrom(day, s, files, part);
      end.StoppedByTest? ==>
        TestResult(day, s, files, end.part) == Err(end.cause) && end.cause.IsAssertion()
          && forall i :: 0 <= i < |trace| ==> trace[i].part < end.part
    ensures var (trace, end) := RunFrom(day, s, files, part);
      end.FailedTests? ==> TestResult(day, s, files, end.part) == Err(end.cause) && !end.cause.IsAssertion()
    ensures var (trace, end) := RunFrom(day, s, files, part);
      end.CouldNotRun? ==> TestResult(day, s, files, end.part).Ok? && SolutionResult(day, s, files, end.part) == Err(end.cause)
    decreases 3 - part
  {
    if part <= 2 {
      var r := TestResult(day, s, files, part);
      RunOrder(day, s, files, part);
      if r.Ok? && SolutionResult(day, s, files, part).Ok? {
        StopsAtFailedTest(day, s, files, part + 1);
        var rest := RunFrom(day, s, files, part + 1);
        assert RunFrom(day, s, files, part).1 == rest.1;
      }
    }
  }

  /** An `AssertionError` the solver raises on the example, in
      `process_data` or in the part itself, stops the run quietly in that
      part; on the real input it is wrapped as "Could not run part". */
  lemma SolverAssertionStops(day: string, s: Solver, files: map<string, seq<string>>)
    ensures var path := DayPath(day, "test");
      path in files && s.process(files[path]).ProcessAsserts? ==>
        RunFrom(day, s, files, 1) == ([], StoppedByTest(1, ProcessAssertion))
    ensures var path := DayPath(day, "test");
      path in files && s.process(files[path]).Processed? && !s.expected(1).ExpectedNone? && s.answer(1, files[path]).Asserts? ==>
        RunFrom(day, s, files, 1) == ([], StoppedByTest(1, PartAssertion))
    ensures var path := DayPath(day, "input");
      TestResult(day, s, files, 1).Ok? && path in files && s.process(files[path]).Processed? && s.answer(1, files[path]).Asserts? ==>
        RunFrom(day, s, files, 1) == ([TestPassed(1)], CouldNotRun(1, PartAssertion))
  {
    assert TestDataPaths[0] == "test";
  }

  /** A run completes exactly when both tests pass and both real inputs are
      answered; then it prints both answers. */
  lemma RunCompletes(day: string, s: Solver, files: map<string, seq<string>>)
    ensures RunFrom(day, s, files, 1).1.Completed? <==>
      TestResult(day, s, files, 1).Ok? && SolutionResult(day, s, files, 1).Ok?
        && TestResult(day, s, files, 2).Ok? && SolutionResult(day, s, files, 2).Ok?
    ensures RunFrom(day, s, files, 1).1.Completed? ==>
      RunFrom(day, s, files, 1).0 == [TestPassed(1), Printed(1, SolutionResult(day, s, files, 1).value),
                                      TestPassed(2), Printed(2, SolutionResult(day, s, files, 2).value)]
  {
  }

  /** A day without test solutions never reaches its real input: the run ends
      in the first part's test and no answer is printed. What is printed is
      the test's `AssertionError`, the cause of the stop. */
  lemma UnsetDayNeverRuns(day: string, s: Solver, files: map<string, seq<string>>)
    requires s.expected(1) == BoundMethod
    ensures RunFrom(day, s, files, 1).0 == []
    ensures RunFrom(day, s, files, 1).1.part == 1 && !RunFrom(day, s, files, 1).1.Completed?
  {
    UnsetTestSolution(day, s, files, 1);
  }

  /** `Advent`: one day's solver, bound to its day. */
  class Advent {
    const day: string
    const solver: Solver
    const files: map<string, seq<string>>

    constructor (day: string, solver: Solver, files: map<string, seq<string>>)
      ensures this.day == day && this.solver == solver && this.files == files
    {
      this.day := day;
      this.solver := solver;
      this.files := files;
    }

    /** `_run_test`, a chain of guards. */
    method RunTest(part: int) returns (r: Result<(), Error>)
      requires part == 1 || part == 2
      ensures r == TestResult(day, solver, files, part)
    {
      var path := DayPath(day, TestDataPaths[part - 1]);
      var data := GetData(solver, files, path);
      if data.Err? {
        return Err(data.error);
      }
      var expected := solver.expected(part);
      if expected.ExpectedNone? {
        return Err(TestFailed(part, ExpectedIsNone));
      }
      var solution := solver.answer(part, data.value);
      if solution.NotImplemented? {
        return Err(PartNotImplemented(part));
      }
      if solution.Asserts? {
        return Err(PartAssertion);
      }
      if solution.Crashed? {
        return Err(PartCrashed);
      }
      if solution.ReturnedNone? {
        return Err(TestFailed(part, AnswerIsNone));
      }
      if expected != ExpectedValue(solution.value) {
        return Err(TestFailed(part, Mismatch(expected, solution.value)));
      }
      return Ok(());
    }

    /** `_run_solution`: the answer it prints. */
    method RunSolution(part: int) returns (r: Result<Option<int>, Error>)
      ensures r == SolutionResult(day, solver, files, part)
    {
      var data := GetData(solver, files, DayPath(day, "input"));
      if data.Err? {
        return Err(data.error);
      }
      var solution := solver.answer(part, data.value);
      match solution
      case NotImplemented => r := Err(PartNotImplemented(part));
      case Asserts => r := Err(PartAssertion);
      case Crashed => r := Err(PartCrashed);
      case ReturnedNone => r := Ok(None);
      case Returned(v) => r := Ok(Some(v));
    }

    /** `run`: the loop over the two parts with its early exits. */
    method Run() returns (trace: seq<Event>, end: RunEnd)
      ensures (trace, end) == RunFrom(day, solver, files, 1)
    {
      trace := [];
      var part := 1;
      assert trace + RunFrom(day, solver, files, 1).0 == RunFrom(day, solver, files, 1).0;
      while part <= 2
        invariant 1 <= part <= 3
        invariant RunFrom(day, solver, files, 1) ==
          (trace + RunFrom(day, solver, files, part).0, RunFrom(day, solver, files, part).1)
      {
        var test := RunTest(part);
        if test.Err? {
          assert trace + [] == trace;
          if test.error.IsAssertion() {
            return trace, StoppedByTest(part, test.error);
          }
          return trace, FailedTests(part, test.error);
        }
        var solution := RunSolution(part);
        if solution.Err? {
          return trace + [TestPassed(part)], CouldNotRun(part, solution.error);
        }
        var step := [TestPassed(part), Printed(part, solution.value)];
        var rest := RunFrom(day, solver, files, part + 1);
        assert RunFrom(day, solver, files, part) == (step + rest.0, rest.1);
        assert trace + (step + rest.0) == (trace + step) + rest.0;
        trace := trace + step;
        part := part + 1;
      }
      assert trace + [] == trace;
      end := Completed;
    }
  }
}
